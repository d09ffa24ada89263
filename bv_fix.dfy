/**
 * The two content rewrites of fix_bv_dictionary.py, with the file reads and
 * writes stripped off: `update_bv_init` appends an import block to the `bv`
 * package's `__init__.py`, and `update_pyinstaller_spec` points the spec at
 * the hooks directory and inserts seven hidden imports.
 *
 * A file is `Option<string>`: None when it does not exist. A rewrite reports
 * its boolean result and the content it writes, None when it writes nothing.
 */
module BvFix {
  import opened Common
  import opened Text

  /** The import `update_bv_init` looks for. */
  const InitMarker: string := "from . import dictionary"

  /** The block `update_bv_init` appends: a comment and a guarded import of the marker. */
  const InitBlockHead: string := "\n# 添加dictionary模块导入\ntry:\n    "
  const InitBlockTail: string := "\nexcept ImportError:\n    pass\n"
  const InitBlock: string := InitBlockHead + InitMarker + InitBlockTail

  /** The appended block holds the import it guards against. */
  lemma InitBlockHasMarker()
    ensures IsSubstring(InitMarker, InitBlock)
  {
    var n := |InitBlockHead|;
    assert InitBlock[n..n + |InitMarker|] == InitMarker;
    assert OccursAt(InitBlock, InitMarker, n);
  }

  /** The rewrite of `update_bv_init`: the content with the block appended, unless the import is already there. */
  function InitContent(content: string): string
  {
    if !IsSubstring(InitMarker, content) then content + InitBlock else content
  }

  /**
   * `update_bv_init` once the package is found: a missing `__init__.py` reads
   * as empty; the file is written only when the import is absent; the result
   * is true either way.
   */
  function UpdateBvInit(file: Option<string>): (r: (bool, Option<string>))
    ensures r.0
    ensures var content := if file.Some? then file.value else "";
      r.1 == if IsSubstring(InitMarker, content) then None else Some(content + InitBlock)
  {
    var content := if file.Some? then file.value else "";
    if !IsSubstring(InitMarker, content) then (true, Some(InitContent(content))) else (true, None)
  }

  /** The old content is kept as a prefix, and afterwards the import is present. */
  lemma InitContentKeepsAndAdds(content: string)
    ensures StartsWith(InitContent(content), content)
    ensures IsSubstring(InitMarker, InitContent(content))
  {
    if !IsSubstring(InitMarker, content) {
      InitBlockHasMarker();
      SubstringOfConcat(InitMarker, content, InitBlock);
      assert (content + InitBlock)[..|content|] == content;
    }
  }

  /** Rewriting twice is rewriting once, and a second run of `update_bv_init` writes nothing. */
  lemma InitContentIdempotent(content: string)
    ensures InitContent(InitContent(content)) == InitContent(content)
    ensures UpdateBvInit(Some(InitContent(content))) == (true, None)
  {
    InitContentKeepsAndAdds(content);
  }

  /** The hooks-path text `update_pyinstaller_spec` replaces, and its replacement. */
  const HooksEmpty: string := "hookspath=[]"
  const HooksSet: string := "hookspath=['hooks']"

  /** The hooks-path step: replace every empty hooks path, when there is one. */
  function HooksPath(content: string): string
  {
    if IsSubstring(HooksEmpty, content) then ReplaceAll(content, HooksEmpty, HooksSet) else content
  }

  /** The membership test guarding the replacement changes nothing: the step is a plain replace-all. */
  lemma HooksPathIsReplaceAll(content: string)
    ensures HooksPath(content) == ReplaceAll(content, HooksEmpty, HooksSet)
  {
    if !IsSubstring(HooksEmpty, content) {
      ReplaceAbsent(content, HooksEmpty, HooksSet);
    }
  }

  /** The list the hidden imports are inserted into. */
  const ImportPattern: string := "hiddenimports = ["

  /** The seven hidden imports, each with its quotes. */
  const BvImports: seq<string> := [
    "'bv.dictionary'", "'bv.audio'", "'bv.audio.frame'", "'bv.frame'",
    "'bv.codec'", "'bv.codec.codec'", "'bv.codec.hwaccel'"
  ]

  /** The text inserted for one import: a new line, four spaces, the quoted name and a comma. */
  function Piece(name: string): string
  {
    "\n    " + name + ","
  }

  /** Where insertions land: just after the first occurrence of the pattern. */
  function InsertionPoint(content: string): (k: nat)
    requires IsSubstring(ImportPattern, content)
    ensures |ImportPattern| <= k <= |content| && content[k - |ImportPattern|..k] == ImportPattern
  {
    Find(content, ImportPattern) + |ImportPattern|
  }

  /** One turn of the insertion loop. */
  function InsertOne(content: string, name: string): string
  {
    if IsSubstring(name, content) then content
    else if IsSubstring(ImportPattern, content) then
      var k := InsertionPoint(content);
      content[..k] + Piece(name) + content[k..]
    else content
  }

  /** The insertion loop over `names`, in order. */
  function InsertImports(content: string, names: seq<string>): string
    decreases |names|
  {
    if names == [] then content
    else InsertOne(InsertImports(content, names[..|names| - 1]), names[|names| - 1])
  }

  /** The names the loop actually inserts: those absent from the content when their turn comes. */
  function Inserted(content: string, names: seq<string>): seq<string>
    decreases |names|
  {
    if names == [] then []
    else
      var n := names[|names| - 1];
      Inserted(content, names[..|names| - 1]) + (if IsSubstring(n, InsertImports(content, names[..|names| - 1])) then [] else [n])
  }

  /** A list in reverse order. */
  function Reverse<T>(xs: seq<T>): seq<T>
    decreases |xs|
  {
    if xs == [] then [] else [xs[|xs| - 1]] + Reverse(xs[..|xs| - 1])
  }

  /** The pieces of a list of names, in list order. */
  function Block(names: seq<string>): string
    decreases |names|
  {
    if names == [] then [] else Piece(names[0]) + Block(names[1..])
  }

  /** `update_pyinstaller_spec`: a missing spec is a failure with no write; otherwise the rewritten spec is written. */
  function UpdateSpec(file: Option<string>): (r: (bool, Option<string>))
    ensures file.None? ==> r == (false, None)
    ensures file.Some? ==> r.0 && r.1.Some?
  {
    if file.None? then (false, None) else (true, Some(InsertImports(HooksPath(file.value), BvImports)))
  }

  /** The pattern contains no quote, so no quoted name can start inside it. */
  lemma PatternHasNoQuote()
    ensures forall j :: 0 <= j < |ImportPattern| ==> ImportPattern[j] != '\''
  {
  }

  /** The shape of the seven names: each starts with a quote and is at most one longer than the pattern. */
  predicate Quoted(name: string)
  {
    1 <= |name| <= |ImportPattern| + 1 && name[0] == '\''
  }

  lemma BvImportsQuoted()
    ensures forall j :: 0 <= j < |BvImports| ==> Quoted(BvImports[j])
  {
  }

  /**
   * Inserting text right after an occurrence of the pattern keeps every
   * occurrence of a quoted name: none can straddle the insertion point,
   * because it would have to start inside the pattern, which holds no quote.
   */
  lemma InsertKeeps(content: string, k: nat, ins: string, x: string)
    requires |ImportPattern| <= k <= |content| && content[k - |ImportPattern|..k] == ImportPattern
    requires Quoted(x) && IsSubstring(x, content)
    ensures IsSubstring(x, content[..k] + ins + content[k..])
  {
    var r := content[..k] + ins + content[k..];
    var i :| 0 <= i <= |content| && OccursAt(content, x, i);
    if i + |x| <= k {
      assert r[i..i + |x|] == content[i..i + |x|];
      assert OccursAt(r, x, i);
    } else if i >= k {
      assert r[i + |ins|..i + |ins| + |x|] == content[i..i + |x|];
      assert OccursAt(r, x, i + |ins|);
    } else {
      assert content[i] == x[0];
      assert content[i] == ImportPattern[i - (k - |ImportPattern|)];
      PatternHasNoQuote();
      assert false;
    }
  }

  /** `Find` returns an occurrence with none before it, and any such occurrence is what it returns. */
  lemma FindIsFirst(s: string, p: string, f: nat)
    requires OccursAt(s, p, f) && forall j :: 0 <= j < f ==> !OccursAt(s, p, j)
    ensures Find(s, p) == f
  {
    assert IsSubstring(p, s);
  }

  /** Two strings that agree up to `k` have the same occurrences ending by `k`. */
  lemma SamePrefixOccurrence(s: string, t: string, k: nat, p: string, j: nat)
    requires k <= |s| && k <= |t| && s[..k] == t[..k] && j + |p| <= k
    ensures OccursAt(s, p, j) <==> OccursAt(t, p, j)
  {
    assert s[j..j + |p|] == s[..k][j..j + |p|];
    assert t[j..j + |p|] == t[..k][j..j + |p|];
  }

  /** Inserting text right after the first occurrence of any pattern leaves that occurrence first, at the same place. */
  lemma InsertAfterFirst(content: string, p: string, ins: string)
    requires IsSubstring(p, content)
    ensures var k := Find(content, p) + |p|;
      var r := content[..k] + ins + content[k..];
      Find(r, p) == Find(content, p) && r[..k] == content[..k] && r[k..] == ins + content[k..]
  {
    var f := Find(content, p);
    var k := f + |p|;
    var r := content[..k] + ins + content[k..];
    assert r[..k] == content[..k];
    SamePrefixOccurrence(r, content, k, p, f);
    forall j | 0 <= j < f ensures !OccursAt(r, p, j) {
      SamePrefixOccurrence(r, content, k, p, j);
    }
    FindIsFirst(r, p, f);
    assert r[k..] == ins + content[k..];
  }

  /** Inserting after the first occurrence of the import pattern keeps the insertion point. */
  lemma InsertKeepsPattern(content: string, ins: string)
    requires IsSubstring(ImportPattern, content)
    ensures var k := InsertionPoint(content);
      var r := content[..k] + ins + content[k..];
      IsSubstring(ImportPattern, r) && InsertionPoint(r) == k && r[..k] == content[..k] && r[k..] == ins + content[k..]
  {
    InsertAfterFirst(content, ImportPattern, ins);
  }

  /** Building the reversed block one name at a time: the newest name's piece goes first. */
  lemma BlockReverseSnoc(names: seq<string>, n: string)
    ensures Block(Reverse(names + [n])) == Piece(n) + Block(Reverse(names))
  {
    assert (names + [n])[..|names|] == names;
    assert Reverse(names + [n]) == [n] + Reverse(names);
    assert ([n] + Reverse(names))[1..] == Reverse(names);
  }

  /** One inserting turn on content of the shape the loop keeps. */
  lemma InsertOneShape(content: string, k: nat, names: seq<string>, d: string, n: string)
    requires IsSubstring(ImportPattern, d) && InsertionPoint(d) == k && k <= |content|
    requires d == content[..k] + Block(names) + content[k..]
    requires !IsSubstring(n, d)
    ensures var r := InsertOne(d, n);
      && IsSubstring(ImportPattern, r) && InsertionPoint(r) == k
      && r == content[..k] + (Piece(n) + Block(names)) + content[k..]
  {
    var r := d[..k] + Piece(n) + d[k..];
    assert InsertOne(d, n) == r;
    InsertKeepsPattern(d, Piece(n));
    SplitAtJoin(content[..k], Block(names), content[k..]);
    assert r == content[..k] + Piece(n) + (Block(names) + content[k..]);
  }

  /** Cutting a concatenation at the end of its first part. */
  lemma SplitAtJoin(a: string, b: string, c: string)
    ensures (a + b + c)[..|a|] == a && (a + b + c)[|a|..] == b + c
  {
  }

  /**
   * With the pattern present, the loop leaves the content around the
   * insertion point intact and puts there the pieces of the inserted names,
   * the last inserted first: the new names read in reverse list order.
   */
  lemma {:induction false} InsertImportsShape(content: string, names: seq<string>)
    requires IsSubstring(ImportPattern, content)
    ensures var k := InsertionPoint(content);
      var r := InsertImports(content, names);
      && IsSubstring(ImportPattern, r) && InsertionPoint(r) == k
      && r == content[..k] + Block(Reverse(Inserted(content, names))) + content[k..]
    decreases |names|
  {
    var k := InsertionPoint(content);
    if names == [] {
      assert content == content[..k] + content[k..];
    } else {
      var init := names[..|names| - 1];
      var n := names[|names| - 1];
      InsertImportsShape(content, init);
      var d := InsertImports(content, init);
      var before := Inserted(content, init);
      if !IsSubstring(n, d) {
        InsertOneShape(content, k, Reverse(before), d, n);
        BlockReverseSnoc(before, n);
        assert Inserted(content, names) == before + [n];
      } else {
        assert Inserted(content, names) == before;
      }
    }
  }

  /** An inserting turn keeps the names that were present and adds its own. */
  lemma InsertOneKeepsAll(d: string, present: seq<string>, n: string)
    requires IsSubstring(ImportPattern, d) && !IsSubstring(n, d)
    requires forall j :: 0 <= j < |present| ==> Quoted(present[j]) && IsSubstring(present[j], d)
    ensures forall j :: 0 <= j < |present| ==> IsSubstring(present[j], InsertOne(d, n))
    ensures IsSubstring(n, InsertOne(d, n))
  {
    var k := InsertionPoint(d);
    forall j | 0 <= j < |present| ensures IsSubstring(present[j], InsertOne(d, n)) {
      InsertKeeps(d, k, Piece(n), present[j]);
    }
    assert Piece(n)[5..5 + |n|] == n;
    assert OccursAt(Piece(n), n, 5);
    SubstringOfConcat(n, d[..k], Piece(n));
    SubstringOfConcat(n, d[..k] + Piece(n), d[k..]);
  }

  /** With the pattern present and every name quoted, every name occurs once the loop is done. */
  lemma {:induction false} InsertImportsAllPresent(content: string, names: seq<string>)
    requires IsSubstring(ImportPattern, content)
    requires forall j :: 0 <= j < |names| ==> Quoted(names[j])
    ensures forall j :: 0 <= j < |names| ==> IsSubstring(names[j], InsertImports(content, names))
    decreases |names|
  {
    if names != [] {
      var init := names[..|names| - 1];
      var n := names[|names| - 1];
      InsertImportsAllPresent(content, init);
      InsertImportsKeepPattern(content, init);
      var d := InsertImports(content, init);
      var r := InsertOne(d, n);
      assert InsertImports(content, names) == r;
      if !IsSubstring(n, d) {
        InsertOneKeepsAll(d, init, n);
      }
      forall j | 0 <= j < |names| ensures IsSubstring(names[j], r) {
        if j < |init| {
          assert names[j] == init[j];
        }
      }
    }
  }

  /** The loop never removes the pattern. */
  lemma InsertImportsKeepPattern(content: string, names: seq<string>)
    requires IsSubstring(ImportPattern, content)
    ensures IsSubstring(ImportPattern, InsertImports(content, names))
  {
    InsertImportsShape(content, names);
  }

  /** When every name already occurs, the loop changes nothing. */
  lemma {:induction false} InsertImportsPresent(content: string, names: seq<string>)
    requires forall j :: 0 <= j < |names| ==> IsSubstring(names[j], content)
    ensures InsertImports(content, names) == content
    decreases |names|
  {
    if names != [] {
      InsertImportsPresent(content, names[..|names| - 1]);
    }
  }

  /** Without the pattern, the loop changes nothing. */
  lemma {:induction false} InsertImportsWithoutPattern(content: string, names: seq<string>)
    requires !IsSubstring(ImportPattern, content)
    ensures InsertImports(content, names) == content
    decreases |names|
  {
    if names != [] {
      InsertImportsWithoutPattern(content, names[..|names| - 1]);
    }
  }

  /** With the pattern present, running the insertion loop again changes nothing. */
  lemma InsertBvImportsIdempotent(content: string)
    requires IsSubstring(ImportPattern, content)
    ensures InsertImports(InsertImports(content, BvImports), BvImports) == InsertImports(content, BvImports)
  {
    BvImportsQuoted();
    InsertImportsAllPresent(content, BvImports);
    InsertImportsPresent(InsertImports(content, BvImports), BvImports);
  }

  /** The insertion loop of `update_pyinstaller_spec`. */
  method InsertBvImports(content: string) returns (r: string)
    ensures r == InsertImports(content, BvImports)
  {
    r := content;
    var i := 0;
    while i < |BvImports|
      invariant 0 <= i <= |BvImports|
      invariant r == InsertImports(content, BvImports[..i])
    {
      var name := BvImports[i];
      InsertImportsStep(content, BvImports, i);
      ghost var before := r;
      if !IsSubstring(name, r) {
        if IsSubstring(ImportPattern, r) {
          var k := InsertionPoint(r);
          r := r[..k] + Piece(name) + r[k..];
        }
      }
      assert r == InsertOne(before, name);
      i := i + 1;
    }
    assert BvImports[..i] == BvImports;
  }

  /** The loop over the first `i + 1` names is one turn after the loop over the first `i`. */
  lemma InsertImportsStep(content: string, names: seq<string>, i: nat)
    requires i < |names|
    ensures InsertImports(content, names[..i + 1]) == InsertOne(InsertImports(content, names[..i]), names[i])
  {
    assert names[..i + 1][..i] == names[..i];
  }

  /** `update_pyinstaller_spec`, step by step: the hooks path, then the insertion loop. */
  method UpdatePyinstallerSpec(file: Option<string>) returns (ok: bool, written: Option<string>)
    ensures (ok, written) == UpdateSpec(file)
  {
    if file.None? {
      return false, None;
    }
    var content := file.value;
    if IsSubstring(HooksEmpty, content) {
      content := ReplaceAll(content, HooksEmpty, HooksSet);
    }
    content := InsertBvImports(content);
    return true, Some(content);
  }
}
