/**
 * The chunk scheduler shared by main.py and realtime.py: `get_size`, the
 * window of `chunk_size + 2*padding` feature rows, the decision to decode, and
 * the rows a decode hands to the model.
 *
 * Features are identified by their position since the window was last reset:
 * the model's row `Feat(n)` is the n-th feature pushed; `Zero` is a row that
 * has not been filled yet. Model inference is taken to produce one output row
 * per window row, so a slice of its output is named by the rows it came from.
 */
module Streaming {
  import opened Common

  /** `get_size`: how many rows of the current chunk have been filled (0 while still in the left padding). */
  function GetSize(curIdx: int, chunkSize: int, padding: int): (r: int)
    requires chunkSize > 0
    ensures r == 0 <==> curIdx + 1 <= padding
    ensures r != 0 ==> 1 <= r <= chunkSize
  {
    var effective := curIdx + 1 - padding;
    if effective <= 0 then 0
    else if effective % chunkSize == 0 then chunkSize
    else effective % chunkSize
  }

  /** Past the padding, the size is congruent to the effective size, and it is a full chunk exactly on multiples. */
  lemma GetSizeResidue(curIdx: int, chunkSize: int, padding: int)
    requires chunkSize > 0 && curIdx + 1 > padding
    ensures (curIdx + 1 - padding - GetSize(curIdx, chunkSize, padding)) % chunkSize == 0
    ensures GetSize(curIdx, chunkSize, padding) == chunkSize <==> (curIdx + 1 - padding) % chunkSize == 0
  {
    var e := curIdx + 1 - padding;
    var q := e / chunkSize;
    assert e == q * chunkSize + e % chunkSize;
    if e % chunkSize == 0 {
      assert e - chunkSize == (q - 1) * chunkSize;
      MultipleMod(q - 1, chunkSize);
    } else {
      assert e - e % chunkSize == q * chunkSize;
      MultipleMod(q, chunkSize);
    }
  }

  /** A product with a factor of at least one is at least the other factor. */
  lemma {:induction false} MulAtLeast(m: int, n: int)
    requires m >= 1 && n >= 0
    ensures m * n >= n
    decreases m
  {
    if m > 1 {
      MulAtLeast(m - 1, n);
      assert m * n == (m - 1) * n + n;
    }
  }

  /** Quotient and remainder are unique: any split `q*n + r` with `0 <= r < n` is the one `/` and `%` give. */
  lemma DivModUnique(a: int, n: int, q: int, r: int)
    requires n > 0 && 0 <= r < n && a == q * n + r
    ensures a % n == r && a / n == q
  {
    var q', r' := a / n, a % n;
    assert a == q' * n + r';
    assert (q - q') * n == r' - r;
    if q > q' {
      MulAtLeast(q - q', n);
    } else if q < q' {
      MulAtLeast(q' - q, n);
    }
  }

  /** A multiple of a positive number leaves no remainder. */
  lemma MultipleMod(k: int, n: int)
    requires n > 0
    ensures (k * n) % n == 0
  {
    DivModUnique(k * n, n, k, 0);
  }

  /** Past the padding, the size repeats with period `chunkSize`. */
  lemma GetSizePeriodic(curIdx: int, chunkSize: int, padding: int)
    requires chunkSize > 0 && curIdx + 1 > padding
    ensures GetSize(curIdx + chunkSize, chunkSize, padding) == GetSize(curIdx, chunkSize, padding)
  {
    var e := curIdx + 1 - padding;
    var q := e / chunkSize;
    assert e == q * chunkSize + e % chunkSize;
    assert e + chunkSize == (q + 1) * chunkSize + e % chunkSize;
    ModOfShift(e, chunkSize);
  }

  /** Adding the modulus does not change the remainder. */
  lemma ModOfShift(e: int, n: int)
    requires n > 0
    ensures (e + n) % n == e % n
  {
    assert e == (e / n) * n + e % n;
    DivModUnique(e + n, n, e / n + 1, e % n);
  }

  /** A full chunk is reached exactly at the indices `padding - 1 + k*chunkSize` with k >= 1. */
  lemma FullChunkIndices(curIdx: int, chunkSize: int, padding: int)
    requires chunkSize > 0
    ensures GetSize(curIdx, chunkSize, padding) == chunkSize <==> exists k :: k >= 1 && curIdx == padding - 1 + k * chunkSize
  {
    if GetSize(curIdx, chunkSize, padding) == chunkSize {
      GetSizeResidue(curIdx, chunkSize, padding);
      var e := curIdx + 1 - padding;
      var k := e / chunkSize;
      assert e == k * chunkSize;
      assert curIdx == padding - 1 + k * chunkSize;
    }
    if exists k :: k >= 1 && curIdx == padding - 1 + k * chunkSize {
      var k :| k >= 1 && curIdx == padding - 1 + k * chunkSize;
      assert curIdx + 1 - padding == k * chunkSize;
      assert k * chunkSize >= chunkSize;
      MultipleMod(k, chunkSize);
      GetSizeResidue(curIdx, chunkSize, padding);
    }
  }

  /** A row of the window: a feature, by its position since the last reset, or a row not yet filled. */
  datatype Row = Zero | Feat(index: nat)

  /** The row holding feature `n`, or a zero row when `n` lies before the first feature. */
  function RowAt(n: int): Row
  {
    if n >= 0 then Feat(n) else Zero
  }

  /** The window of `size` rows once `n` features have been pushed: the newest feature is the last row. */
  function WindowAfter(size: nat, n: nat): seq<Row>
  {
    seq(size, j => RowAt(n - size + j))
  }

  /** Rolling the window up by one row and writing the next feature into the last row. */
  lemma WindowShift(size: nat, n: nat)
    requires size > 0
    ensures WindowAfter(size, n)[1..] + [Feat(n)] == WindowAfter(size, n + 1)
  {
    var w := WindowAfter(size, n)[1..] + [Feat(n)];
    forall j | 0 <= j < size ensures w[j] == WindowAfter(size, n + 1)[j] {
      if j < size - 1 {
        assert w[j] == RowAt(n - size + j + 1);
      }
    }
  }

  /** A fresh window is all zero rows. */
  lemma FreshWindow(size: nat)
    ensures WindowAfter(size, 0) == seq(size, _ => Zero)
  {
    forall j | 0 <= j < size ensures WindowAfter(size, 0)[j] == Zero {
      assert WindowAfter(size, 0)[j] == RowAt(j - size);
    }
  }

  /**
   * The rows a decode hands on: the model's output from row `padding`, less
   * the `chunkSize - curSize` rows already decoded, and at most one chunk
   * unless the batch is the last.
   */
  function SliceBounds(chunkSize: nat, padding: nat, curSize: nat, isLast: bool): (b: (nat, nat))
    requires curSize <= chunkSize
    ensures b.0 <= b.1 <= chunkSize + 2 * padding
  {
    var size := chunkSize + 2 * padding;
    var lo := padding + (chunkSize - curSize);
    var hi := if isLast then size else if lo + chunkSize < size then lo + chunkSize else size;
    (lo, hi)
  }

  /** A decode: the feature index that triggered it, whether its batch was the last, and the rows it hands on. */
  datatype Decoded = Decoded(idx: nat, isLast: bool, rows: seq<Row>)

  /** Whether pushing feature `idx` triggers a decode: a full chunk, or any feature of the last batch. */
  predicate Triggered(chunkSize: nat, padding: nat, idx: nat, isLast: bool)
    requires chunkSize > 0
  {
    GetSize(idx, chunkSize, padding) == chunkSize || isLast
  }

  /** The decode pushing feature `idx` makes, if any. */
  function DecodeAt(chunkSize: nat, padding: nat, idx: nat, isLast: bool): seq<Decoded>
    requires chunkSize > 0
  {
    if !Triggered(chunkSize, padding, idx, isLast) then []
    else
      var (lo, hi) := SliceBounds(chunkSize, padding, GetSize(idx, chunkSize, padding), isLast);
      [Decoded(idx, isLast, WindowAfter(chunkSize + 2 * padding, idx + 1)[lo..hi])]
  }

  /**
   * What a decode contains: the features from `idx + 1 - padding - curSize`
   * on, a full chunk of them when the batch is not the last, and everything up
   * to the newest feature when it is.
   */
  lemma DecodedRows(chunkSize: nat, padding: nat, idx: nat, isLast: bool)
    requires chunkSize > 0 && Triggered(chunkSize, padding, idx, isLast)
    ensures var cur := GetSize(idx, chunkSize, padding);
      var d := DecodeAt(chunkSize, padding, idx, isLast)[0];
      && |d.rows| == (if isLast then padding + cur else chunkSize)
      && forall j :: 0 <= j < |d.rows| ==> d.rows[j] == RowAt(idx + 1 - padding - cur + j)
  {
  }

  /**
   * The decode at the end of chunk k (counting from 0) in a batch that is not
   * the last covers exactly the features `k*chunkSize` up to `(k+1)*chunkSize`:
   * successive chunk decodes tile the feature stream, each leaving its
   * `padding` rows of look-ahead to the next.
   */
  lemma ChunkDecodesTile(chunkSize: nat, padding: nat, k: nat)
    requires chunkSize > 0
    ensures var idx := padding + k * chunkSize + chunkSize - 1;
      && Triggered(chunkSize, padding, idx, false)
      && |DecodeAt(chunkSize, padding, idx, false)[0].rows| == chunkSize
      && forall j :: 0 <= j < chunkSize ==>
           DecodeAt(chunkSize, padding, idx, false)[0].rows[j].Feat?
           && DecodeAt(chunkSize, padding, idx, false)[0].rows[j].index == k * chunkSize + j
  {
    var idx := padding + k * chunkSize + chunkSize - 1;
    assert idx == padding - 1 + (k + 1) * chunkSize;
    FullChunkIndices(idx, chunkSize, padding);
    DecodedRows(chunkSize, padding, idx, false);
    var rows := DecodeAt(chunkSize, padding, idx, false)[0].rows;
    forall j | 0 <= j < chunkSize ensures rows[j].Feat? && rows[j].index == k * chunkSize + j {
      assert idx + 1 - padding - chunkSize + j == k * chunkSize + j;
    }
  }

  /** The decodes made while pushing `count` features of one batch, starting at index `start`. */
  function DecodeRange(chunkSize: nat, padding: nat, start: nat, count: nat, isLast: bool): seq<Decoded>
    requires chunkSize > 0
    decreases count
  {
    if count == 0 then []
    else DecodeRange(chunkSize, padding, start, count - 1, isLast) + DecodeAt(chunkSize, padding, start + count - 1, isLast)
  }

  /** Outside the last batch, decodes happen only on full chunks. */
  lemma {:induction false} RangeDecodesFullChunks(chunkSize: nat, padding: nat, start: nat, count: nat)
    requires chunkSize > 0
    ensures forall d | d in DecodeRange(chunkSize, padding, start, count, false) ::
      !d.isLast && GetSize(d.idx, chunkSize, padding) == chunkSize && |d.rows| == chunkSize
    decreases count
  {
    if count > 0 {
      RangeDecodesFullChunks(chunkSize, padding, start, count - 1);
      var idx := start + count - 1;
      if Triggered(chunkSize, padding, idx, false) {
        DecodedRows(chunkSize, padding, idx, false);
      }
    }
  }

  /** In the last batch every feature triggers a decode, each ending with that feature. */
  lemma {:induction false} LastBatchDecodesEveryFeature(chunkSize: nat, padding: nat, start: nat, count: nat)
    requires chunkSize > 0
    ensures var ds := DecodeRange(chunkSize, padding, start, count, true);
      && |ds| == count
      && forall j :: 0 <= j < count ==> ds[j].idx == start + j && |ds[j].rows| > 0 && ds[j].rows[|ds[j].rows| - 1] == Feat(start + j)
    decreases count
  {
    if count > 0 {
      LastBatchDecodesEveryFeature(chunkSize, padding, start, count - 1);
      DecodedRows(chunkSize, padding, start + count - 1, true);
    }
  }

  /** The sliding window of main.py and realtime.py, with the feature index `idx` it has reached. */
  class ChunkWindow {
    const chunkSize: nat
    const padding: nat
    var rows: seq<Row>
    var idx: int

    /** The window holds exactly the rows the features pushed so far leave in it. */
    ghost predicate Valid()
      reads this
    {
      chunkSize > 0 && idx >= -1 && rows == WindowAfter(chunkSize + 2 * padding, idx + 1)
    }

    /** A window of zero rows, before any feature. */
    constructor (chunkSize: nat, padding: nat)
      requires chunkSize > 0
      ensures Valid() && this.chunkSize == chunkSize && this.padding == padding && idx == -1
    {
      this.chunkSize := chunkSize;
      this.padding := padding;
      rows := seq(chunkSize + 2 * padding, _ => Zero);
      idx := -1;
      FreshWindow(chunkSize + 2 * padding);
    }

    /** One iteration of the feature loop: roll, write the feature, advance `idx`, decode if due. */
    method Push(isLast: bool) returns (d: Option<Decoded>)
      requires Valid()
      modifies this
      ensures Valid() && idx == old(idx) + 1
      ensures (if d.Some? then [d.value] else []) == DecodeAt(chunkSize, padding, idx, isLast)
    {
      WindowShift(chunkSize + 2 * padding, idx + 1);
      rows := rows[1..] + [Feat(idx + 1)];
      idx := idx + 1;
      var curSize := GetSize(idx, chunkSize, padding);
      if curSize != chunkSize && !isLast {
        return None;
      }
      var (lo, hi) := SliceBounds(chunkSize, padding, curSize, isLast);
      d := Some(Decoded(idx, isLast, rows[lo..hi]));
    }

    /** The loop over one batch of features. */
    method Feed(count: nat, isLast: bool) returns (ds: seq<Decoded>)
      requires Valid()
      modifies this
      ensures Valid() && idx == old(idx) + count
      ensures ds == DecodeRange(chunkSize, padding, old(idx) + 1, count, isLast)
    {
      ds := [];
      var k := 0;
      while k < count
        invariant 0 <= k <= count && Valid() && idx == old(idx) + k
        invariant ds == DecodeRange(chunkSize, padding, old(idx) + 1, k, isLast)
      {
        var d := Push(isLast);
        if d.Some? {
          ds := ds + [d.value];
        }
        k := k + 1;
      }
    }
  }

  /** A batch of features from one call to the feature extractor, and whether it was the last. */
  datatype Batch = Batch(count: nat, isLast: bool)

  /** The decodes of a run of batches from a fresh window, batch after batch. */
  function Decodes(chunkSize: nat, padding: nat, batches: seq<Batch>): seq<Decoded>
    requires chunkSize > 0
    decreases |batches|
  {
    if batches == [] then []
    else
      var b := batches[|batches| - 1];
      Decodes(chunkSize, padding, batches[..|batches| - 1])
        + DecodeRange(chunkSize, padding, FeatureCount(batches[..|batches| - 1]), b.count, b.isLast)
  }

  /** How many features a run of batches holds. */
  function FeatureCount(batches: seq<Batch>): nat
    decreases |batches|
  {
    if batches == [] then 0 else FeatureCount(batches[..|batches| - 1]) + batches[|batches| - 1].count
  }

  /** A single batch is decoded on a fresh window. */
  lemma DecodesSingle(chunkSize: nat, padding: nat, b: Batch)
    requires chunkSize > 0
    ensures Decodes(chunkSize, padding, [b]) == DecodeRange(chunkSize, padding, 0, b.count, b.isLast)
  {
    assert [b][..0] == [];
  }

  /** Unfolding the schedule for one more batch. */
  lemma DecodesSnoc(chunkSize: nat, padding: nat, batches: seq<Batch>, i: nat)
    requires chunkSize > 0 && i < |batches|
    ensures FeatureCount(batches[..i + 1]) == FeatureCount(batches[..i]) + batches[i].count
    ensures Decodes(chunkSize, padding, batches[..i + 1])
      == Decodes(chunkSize, padding, batches[..i]) + DecodeRange(chunkSize, padding, FeatureCount(batches[..i]), batches[i].count, batches[i].isLast)
  {
    assert batches[..i + 1][..i] == batches[..i];
  }
}
