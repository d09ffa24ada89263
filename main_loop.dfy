/**
 * The file-driven loop of main.py: the samples are consumed in steps of a
 * tenth of the sample rate; each step's features are pushed through the
 * window, and `is_last` marks the final step.
 *
 * The feature extractor is outside the model: `featureCounts[j]` is how many
 * feature rows it returns for step j (none when it returns nothing).
 */
module MainLoop {
  import opened Streaming

  /** The chunk and padding sizes main.py uses. */
  const ChunkSize: nat := 10
  const Padding: nat := 8

  /** `int(0.1 * sr)`: a tenth of the sample rate, rounded down. */
  function StepOf(sampleRate: nat): nat
  {
    sampleRate / 10
  }

  /** The start offsets `range(i, sampleCount, step)` visits. */
  function Starts(sampleCount: nat, step: nat, i: nat): seq<nat>
    requires step > 0
    decreases sampleCount - i
  {
    if i >= sampleCount then [] else [i] + Starts(sampleCount, step, i + step)
  }

  /**
   * The steps start at `i`, advance by `step`, all lie before the end of the
   * samples, and `i + step >= sampleCount` holds at the final step and no other.
   */
  lemma {:induction false} StartsShape(sampleCount: nat, step: nat, i: nat)
    requires step > 0
    ensures var ss := Starts(sampleCount, step, i);
      && (|ss| > 0 <==> i < sampleCount)
      && (|ss| > 0 ==> ss[0] == i)
      && (forall j :: 0 <= j < |ss| ==> ss[j] < sampleCount)
      && (forall j :: 0 < j < |ss| ==> ss[j] == ss[j - 1] + step)
      && (forall j :: 0 <= j < |ss| ==> (ss[j] + step >= sampleCount <==> j == |ss| - 1))
    decreases sampleCount - i
  {
    if i < sampleCount {
      StartsShape(sampleCount, step, i + step);
      var rest := Starts(sampleCount, step, i + step);
      var ss := Starts(sampleCount, step, i);
      assert ss == [i] + rest;
      forall j | 0 < j < |ss| ensures ss[j] == ss[j - 1] + step && (ss[j] + step >= sampleCount <==> j == |ss| - 1) {
        assert ss[j] == rest[j - 1];
      }
    }
  }

  /** The batches of the file: step j brings `featureCounts[j]` features and is last when it reaches the end. */
  function FileBatches(sampleCount: nat, step: nat, featureCounts: seq<nat>): seq<Batch>
    requires step > 0 && |featureCounts| == |Starts(sampleCount, step, 0)|
  {
    var ss := Starts(sampleCount, step, 0);
    seq(|featureCounts|, j requires 0 <= j < |featureCounts| => Batch(featureCounts[j], ss[j] + step >= sampleCount))
  }

  /** Only the final step of the file is last. */
  lemma FileBatchesLast(sampleCount: nat, step: nat, featureCounts: seq<nat>)
    requires step > 0 && |featureCounts| == |Starts(sampleCount, step, 0)|
    ensures var bs := FileBatches(sampleCount, step, featureCounts);
      forall j :: 0 <= j < |bs| ==> (bs[j].isLast <==> j == |bs| - 1)
  {
    StartsShape(sampleCount, step, 0);
  }

  /** The starts still to visit from offset `i` are the tail of the whole run. */
  lemma {:induction false} StartsSuffix(sampleCount: nat, step: nat, i: nat, j: nat)
    requires step > 0 && j <= |Starts(sampleCount, step, 0)|
    requires Starts(sampleCount, step, 0)[j..] == Starts(sampleCount, step, i)
    requires i < sampleCount
    ensures j < |Starts(sampleCount, step, 0)| && Starts(sampleCount, step, 0)[j] == i
    ensures Starts(sampleCount, step, 0)[j + 1..] == Starts(sampleCount, step, i + step)
  {
    var all := Starts(sampleCount, step, 0);
    assert Starts(sampleCount, step, i) == [i] + Starts(sampleCount, step, i + step);
    assert all[j..][0] == i;
    assert all[j + 1..] == all[j..][1..];
  }

  /**
   * The loop's progress: `j` steps taken, the next at offset `i`, the window's
   * index after `FeatureCount` features and every decode so far.
   */
  ghost predicate Progress(sampleCount: nat, step: nat, featureCounts: seq<nat>, i: nat, j: nat, idx: int, decodes: seq<Decoded>)
    requires step > 0 && |featureCounts| == |Starts(sampleCount, step, 0)|
  {
    var batches := FileBatches(sampleCount, step, featureCounts);
    && j <= |featureCounts| && Starts(sampleCount, step, 0)[j..] == Starts(sampleCount, step, i)
    && idx == FeatureCount(batches[..j]) - 1
    && decodes == Decodes(ChunkSize, Padding, batches[..j])
  }

  /** One step of the loop feeds step j's features and keeps the progress. */
  lemma FileStep(sampleCount: nat, step: nat, featureCounts: seq<nat>, i: nat, j: nat, idx: int, decodes: seq<Decoded>)
    requires step > 0 && |featureCounts| == |Starts(sampleCount, step, 0)|
    requires Progress(sampleCount, step, featureCounts, i, j, idx, decodes)
    requires i < sampleCount
    ensures j < |featureCounts|
    ensures Progress(sampleCount, step, featureCounts, i + step, j + 1, idx + featureCounts[j],
                     decodes + DecodeRange(ChunkSize, Padding, idx + 1, featureCounts[j], i + step >= sampleCount))
  {
    StartsSuffix(sampleCount, step, i, j);
    var batches := FileBatches(sampleCount, step, featureCounts);
    assert batches[j] == Batch(featureCounts[j], i + step >= sampleCount);
    DecodesSnoc(ChunkSize, Padding, batches, j);
  }

  /** Once the offset passes the end, every step has been taken. */
  lemma FileDone(sampleCount: nat, step: nat, featureCounts: seq<nat>, i: nat, j: nat, idx: int, decodes: seq<Decoded>)
    requires step > 0 && |featureCounts| == |Starts(sampleCount, step, 0)|
    requires Progress(sampleCount, step, featureCounts, i, j, idx, decodes)
    requires i >= sampleCount
    ensures decodes == Decodes(ChunkSize, Padding, FileBatches(sampleCount, step, featureCounts))
  {
    assert Starts(sampleCount, step, i) == [];
    var batches := FileBatches(sampleCount, step, featureCounts);
    assert batches[..j] == batches;
  }

  /** main.py's loop: every decode the file's batches call for, in order. */
  method RunFile(sampleCount: nat, sampleRate: nat, featureCounts: seq<nat>) returns (decodes: seq<Decoded>)
    requires sampleRate >= 10
    requires |featureCounts| == |Starts(sampleCount, StepOf(sampleRate), 0)|
    ensures decodes == Decodes(ChunkSize, Padding, FileBatches(sampleCount, StepOf(sampleRate), featureCounts))
  {
    var step := sampleRate / 10;
    var window := new ChunkWindow(ChunkSize, Padding);
    decodes := [];
    var i := 0;
    var j := 0;
    assert FileBatches(sampleCount, step, featureCounts)[..0] == [];
    while i < sampleCount
      invariant window.Valid() && window.chunkSize == ChunkSize && window.padding == Padding
      invariant Progress(sampleCount, step, featureCounts, i, j, window.idx, decodes)
      decreases sampleCount - i
    {
      FileStep(sampleCount, step, featureCounts, i, j, window.idx, decodes);
      var isLast := i + step >= sampleCount;
      var more := window.Feed(featureCounts[j], isLast);
      decodes := decodes + more;
      i := i + step;
      j := j + 1;
    }
    FileDone(sampleCount, step, featureCounts, i, j, window.idx, decodes);
  }
}
