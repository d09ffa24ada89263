/**
 * The spec rewrite of fix_audiolab_template.py, with the file read and write
 * stripped off: unless the spec already collects audiolab's data files, a
 * block that does so is inserted just before the marker comment.
 *
 * A file is `Option<string>`: None when it does not exist. A rewrite reports
 * its boolean result and the content it writes, None when it writes nothing.
 */
module AudiolabFix {
  import opened Common
  import opened Text

  /** The call whose presence means the spec is already fixed. */
  const Sentinel: string := "collect_data_files('audiolab')"

  /** The comment the block is inserted before. */
  const Marker: string := "# 尝试收集其他数据文件"

  /** The inserted block: a comment, then a guarded `datas +=` of the sentinel call. */
  const BlockHead: string := "# 收集audiolab数据文件\ntry:\n    datas += "
  const BlockTail: string :=
    "\n    print(\"✅ 已添加audiolab数据文件收集\")\nexcept Exception as e:\n    print(f\"⚠️ 收集audiolab数据文件失败: {e}\")\n\n"
  const AudiolabBlock: string := BlockHead + Sentinel + BlockTail

  /** The block holds the sentinel. */
  lemma BlockHasSentinel()
    ensures IsSubstring(Sentinel, AudiolabBlock)
  {
    var n := |BlockHead|;
    assert AudiolabBlock[n..n + |Sentinel|] == Sentinel;
    assert OccursAt(AudiolabBlock, Sentinel, n);
  }

  /**
   * `fix_pyinstaller_spec`: a missing spec is a failure; a spec that holds the
   * sentinel, or lacks the marker, is left alone with a true result; otherwise
   * the block goes in at the marker's first index and the spec is written.
   */
  function FixSpec(file: Option<string>): (r: (bool, Option<string>))
    ensures file.None? ==> r == (false, None)
    ensures file.Some? ==> r.0
    ensures file.Some? && (IsSubstring(Sentinel, file.value) || !IsSubstring(Marker, file.value)) ==> r.1.None?
  {
    if file.None? then (false, None)
    else
      var content := file.value;
      if !IsSubstring(Sentinel, content) then
        var i := Find(content, Marker);
        if i != -1 then (true, Some(content[..i] + AudiolabBlock + content[i..]))
        else (true, None)
      else (true, None)
  }

  /**
   * A write puts the block exactly at the marker's first index: the text before
   * and after it is the original text, and the marker now follows the block.
   */
  lemma FixSpecInsertsAtMarker(content: string)
    requires !IsSubstring(Sentinel, content) && IsSubstring(Marker, content)
    ensures var i := Find(content, Marker);
      var r := FixSpec(Some(content)).1;
      && 0 <= i && r.Some?
      && |r.value| == |content| + |AudiolabBlock|
      && r.value[..i] == content[..i]
      && r.value[i..i + |AudiolabBlock|] == AudiolabBlock
      && r.value[i + |AudiolabBlock|..] == content[i..]
      && OccursAt(r.value, Marker, i + |AudiolabBlock|)
  {
    SpliceBefore(content, Find(content, Marker), AudiolabBlock, Marker);
  }

  /** Splicing `b` in at an occurrence of `m` keeps both sides and moves the occurrence past `b`. */
  lemma SpliceBefore(content: string, i: nat, b: string, m: string)
    requires OccursAt(content, m, i)
    ensures var r := content[..i] + b + content[i..];
      && |r| == |content| + |b|
      && r[..i] == content[..i]
      && r[i..i + |b|] == b
      && r[i + |b|..] == content[i..]
      && OccursAt(r, m, i + |b|)
  {
    var r := content[..i] + b + content[i..];
    assert r[i + |b|..] == content[i..];
    assert r[i + |b|..i + |b| + |m|] == content[i..i + |m|];
  }

  /** Once the block is in, a second run finds the sentinel and writes nothing. */
  lemma FixSpecIdempotent(content: string)
    requires FixSpec(Some(content)).1.Some?
    ensures FixSpec(FixSpec(Some(content)).1).1.None?
    ensures FixSpec(FixSpec(Some(content)).1).0
  {
    var i := Find(content, Marker);
    BlockHasSentinel();
    SubstringOfConcat(Sentinel, content[..i], AudiolabBlock);
    SubstringOfConcat(Sentinel, content[..i] + AudiolabBlock, content[i..]);
  }

  /** `main`: when creating the template fails, the result is false and the spec step does not run. */
  function RunFixes(templateCreated: bool, spec: Option<string>): (r: (bool, Option<string>))
    ensures !templateCreated ==> r == (false, None)
    ensures templateCreated ==> r == FixSpec(spec)
  {
    if !templateCreated then (false, None)
    else
      var (ok, written) := FixSpec(spec);
      if !ok then (false, written) else (true, written)
  }
}
