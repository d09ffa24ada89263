/**
 * The microphone loop of realtime.py: for every item the speech iterator
 * yields, a dict holding "start" builds a fresh window (index -1, zero rows),
 * the item's features are pushed through it, and a dict holding "end" makes
 * the item's batch the last one of the segment.
 *
 * The speech iterator and the feature extractor are outside the model: an
 * item records which keys its dict holds and how many feature rows its samples
 * produced. An item before the first "start" reads a window that was never
 * built, which in the source is a `NameError`.
 */
module Realtime {
  import opened Common
  import opened Streaming

  /** The chunk and padding sizes realtime.py sets on every start. */
  const ChunkSize: nat := 10
  const Padding: nat := 8

  /** One item of the speech iterator. */
  datatype Item = Item(start: bool, end: bool, count: nat)

  /** The loop's state: whether a window exists, the batches of the current segment, and every decode so far. */
  datatype LoopState = LoopState(started: bool, segment: seq<Batch>, decodes: seq<Decoded>)

  /** The batch an item contributes: `is_last` is whether its dict holds "end". */
  function BatchOf(it: Item): Batch
  {
    Batch(it.count, it.end)
  }

  /** One item of the loop, or None when it arrives before any start. */
  function ItemStep(st: LoopState, it: Item): Option<LoopState>
  {
    if !it.start && !st.started then None
    else
      var seg := if it.start then [] else st.segment;
      Some(LoopState(true, seg + [BatchOf(it)],
                     st.decodes + DecodeRange(ChunkSize, Padding, FeatureCount(seg), it.count, it.end)))
  }

  /** The loop over a run of items, or None once an item arrives before any start. */
  function RunItems(items: seq<Item>): Option<LoopState>
    decreases |items|
  {
    if items == [] then Some(LoopState(false, [], []))
    else match RunItems(items[..|items| - 1])
      case None => None
      case Some(st) => ItemStep(st, items[|items| - 1])
  }

  /** Running one item more. */
  lemma RunItemsSnoc(items: seq<Item>, it: Item)
    ensures RunItems(items + [it]) == if RunItems(items).None? then None else ItemStep(RunItems(items).value, it)
  {
    assert (items + [it])[..|items|] == items;
  }

  /** Running the items up to `k + 1` is one step after running those up to `k`. */
  lemma RunItemsPrefixStep(items: seq<Item>, k: nat)
    requires k < |items| && RunItems(items[..k]).Some?
    ensures RunItems(items[..k + 1]) == ItemStep(RunItems(items[..k]).value, items[k])
  {
    assert items[..k + 1] == items[..k] + [items[k]];
    RunItemsSnoc(items[..k], items[k]);
  }

  /** Once a prefix of the items fails, so do all of them. */
  lemma RunItemsPrefixFails(items: seq<Item>, k: nat)
    requires k <= |items| && RunItems(items[..k]).None?
    ensures RunItems(items).None?
  {
    RunItemsFails(items[..k]);
    RunItemsFails(items);
  }

  /** The loop fails exactly when the first item does not start a segment. */
  lemma {:induction false} RunItemsFails(items: seq<Item>)
    ensures RunItems(items).None? <==> |items| > 0 && !items[0].start
    ensures RunItems(items).Some? ==> (RunItems(items).value.started <==> |items| > 0)
    decreases |items|
  {
    if items != [] {
      var prefix := items[..|items| - 1];
      RunItemsFails(prefix);
      if |prefix| > 0 {
        assert prefix[0] == items[0];
      }
    }
  }

  /**
   * A start forgets the past: after an item that starts a segment, the segment
   * is that item's batch alone, and the decodes it adds are those of a fresh
   * window, whatever came before.
   */
  lemma StartResets(items: seq<Item>, it: Item)
    requires it.start && RunItems(items).Some?
    ensures var st := RunItems(items + [it]);
      && st.Some?
      && st.value.segment == [BatchOf(it)]
      && st.value.decodes == RunItems(items).value.decodes + Decodes(ChunkSize, Padding, [BatchOf(it)])
  {
    RunItemsSnoc(items, it);
    DecodesSingle(ChunkSize, Padding, BatchOf(it));
  }

  /** `ys` is a suffix of `xs`. */
  predicate EndsWith<T(==)>(xs: seq<T>, ys: seq<T>)
  {
    |ys| <= |xs| && xs[|xs| - |ys|..] == ys
  }

  /** Appending the same tail to both keeps the suffix relation. */
  lemma EndsWithAppend<T>(xs: seq<T>, ys: seq<T>, zs: seq<T>)
    requires EndsWith(xs, ys)
    ensures EndsWith(xs + zs, ys + zs)
  {
    var n := |xs| - |ys|;
    assert xs == xs[..n] + ys;
    assert xs + zs == xs[..n] + (ys + zs);
  }

  /**
   * Within a segment the decodes are those of the segment's batches on a
   * fresh window: everything decoded since the last start is
   * `Decodes(segment)`.
   */
  lemma {:induction false} SegmentDecodes(items: seq<Item>)
    requires RunItems(items).Some?
    ensures EndsWith(RunItems(items).value.decodes, Decodes(ChunkSize, Padding, RunItems(items).value.segment))
    decreases |items|
  {
    if items != [] {
      var prefix := items[..|items| - 1];
      var it := items[|items| - 1];
      assert items == prefix + [it];
      RunItemsSnoc(prefix, it);
      SegmentDecodes(prefix);
      StepSegmentDecodes(RunItems(prefix).value, it);
    }
  }

  /** One item keeps the decodes since the last start equal to the segment's schedule. */
  lemma StepSegmentDecodes(st: LoopState, it: Item)
    requires ItemStep(st, it).Some?
    requires EndsWith(st.decodes, Decodes(ChunkSize, Padding, st.segment))
    ensures EndsWith(ItemStep(st, it).value.decodes, Decodes(ChunkSize, Padding, ItemStep(st, it).value.segment))
  {
    var seg := if it.start then [] else st.segment;
    var added := DecodeRange(ChunkSize, Padding, FeatureCount(seg), it.count, it.end);
    var seg' := seg + [BatchOf(it)];
    DecodesSnoc(ChunkSize, Padding, seg', |seg|);
    assert seg'[..|seg|] == seg;
    assert seg'[..|seg| + 1] == seg';
    assert Decodes(ChunkSize, Padding, seg') == Decodes(ChunkSize, Padding, seg) + added;
    if it.start {
      assert Decodes(ChunkSize, Padding, seg) == [];
      assert (st.decodes + added)[|st.decodes|..] == added;
    } else {
      EndsWithAppend(st.decodes, Decodes(ChunkSize, Padding, seg), added);
    }
  }

  /** One batch more adds its features to the count. */
  lemma FeatureCountSnoc(bs: seq<Batch>, b: Batch)
    ensures FeatureCount(bs + [b]) == FeatureCount(bs) + b.count
  {
    assert (bs + [b])[..|bs|] == bs;
  }

  /** A decode is marked last exactly when the item that caused it holds "end". */
  lemma {:induction false} DecodeRangeMarks(start: nat, count: nat, isLast: bool)
    ensures forall d | d in DecodeRange(ChunkSize, Padding, start, count, isLast) :: d.isLast == isLast
    decreases count
  {
    if count > 0 {
      DecodeRangeMarks(start, count - 1, isLast);
    }
  }

  /** A window that holds what the features of `segment` leave in it. */
  ghost predicate WindowFor(w: ChunkWindow, segment: seq<Batch>)
    reads w
  {
    w.Valid() && w.chunkSize == ChunkSize && w.padding == Padding && w.idx == FeatureCount(segment) - 1
  }

  /** One item of realtime.py's loop: a start builds a fresh window, then the item's features go through it. */
  method HandleItem(window: ChunkWindow?, it: Item, ghost st: LoopState) returns (w: ChunkWindow?, more: seq<Decoded>)
    requires window != null <==> st.started
    requires window != null ==> WindowFor(window, st.segment)
    modifies window
    ensures w == null <==> ItemStep(st, it).None?
    ensures w != null ==> (w == window || fresh(w)) && WindowFor(w, ItemStep(st, it).value.segment)
    ensures w != null ==> ItemStep(st, it).value.decodes == st.decodes + more
  {
    w := window;
    if it.start {
      w := new ChunkWindow(ChunkSize, Padding);
    }
    if w == null {
      return null, [];
    }
    ghost var seg := if it.start then [] else st.segment;
    FeatureCountSnoc(seg, BatchOf(it));
    more := w.Feed(it.count, it.end);
  }

  /** realtime.py's loop over the items: every decode, or None for the item that finds no window. */
  method RunStream(items: seq<Item>) returns (result: Option<seq<Decoded>>)
    ensures result.None? <==> RunItems(items).None?
    ensures result.Some? ==> result.value == RunItems(items).value.decodes
  {
    var window: ChunkWindow? := null;
    var decodes := [];
    ghost var st := LoopState(false, [], []);
    var k := 0;
    while k < |items|
      invariant 0 <= k <= |items| && RunItems(items[..k]) == Some(st)
      invariant window != null <==> st.started
      invariant decodes == st.decodes
      invariant window != null ==> fresh(window) && WindowFor(window, st.segment)
    {
      var it := items[k];
      RunItemsPrefixStep(items, k);
      var more;
      window, more := HandleItem(window, it, st);
      if window == null {
        RunItemsPrefixFails(items, k + 1);
        return None;
      }
      decodes := decodes + more;
      st := ItemStep(st, it).value;
      k := k + 1;
    }
    assert items[..k] == items;
    return Some(decodes);
  }
}
