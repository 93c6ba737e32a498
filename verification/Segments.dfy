// How a sequence is cut into segments that are spread over the nodes.

module Segments {
  import opened Arith
  import opened SegmentNames

  datatype SegKey = SegKey(name: string, node: nat)

  // Segments of a finalized column of the given size: at least one.
  function SegmentCount(size: nat, cap: nat): nat
    requires cap > 0
  {
    if size == 0 then 1 else (size - 1) / cap + 1
  }

  predicate Fits(count: nat, size: nat, cap: nat) {
    count >= 1 && (count - 1) * cap <= size <= count * cap
  }

  // Where element idx lives: its segment and its place in it.
  function SegmentIndex(idx: nat, cap: nat): nat
    requires cap > 0
  {
    idx / cap
  }

  function IndexInSegment(idx: nat, cap: nat): nat
    requires cap > 0
  {
    idx % cap
  }

  function NodeOf(seg: nat, nodes: nat): nat
    requires nodes > 0
  {
    seg % nodes
  }

  function Keys(id: string, count: nat, nodes: nat): seq<SegKey>
    requires nodes > 0
  {
    seq(count, i requires 0 <= i => SegKey(SegmentName(id, i), NodeOf(i, nodes)))
  }

  // Elements lo up to hi of xs, as far as there are any.
  function Slice<T>(xs: seq<T>, lo: nat, hi: nat): seq<T> {
    if lo >= |xs| then [] else if hi >= |xs| then xs[lo..] else if lo <= hi then xs[lo..hi] else []
  }

  function Segment<T>(xs: seq<T>, seg: nat, cap: nat): seq<T> {
    Slice(xs, seg * cap, seg * cap + cap)
  }

  lemma SegmentOfIndex<T>(xs: seq<T>, idx: nat, cap: nat)
    requires cap > 0 && idx < |xs|
    ensures SegmentIndex(idx, cap) < SegmentCount(|xs|, cap)
    ensures IndexInSegment(idx, cap) < |Segment(xs, SegmentIndex(idx, cap), cap)|
    ensures Segment(xs, SegmentIndex(idx, cap), cap)[IndexInSegment(idx, cap)] == xs[idx]
  {
    var lo := (idx / cap) * cap;
    assert lo + idx % cap == idx;
    DivisionIsMonotone(idx, |xs| - 1, cap);
    SliceAt(xs, lo, lo + cap, idx % cap);
    hide Slice;
  }

  lemma SliceAt<T>(xs: seq<T>, lo: nat, hi: nat, k: nat)
    requires lo + k < |xs| && lo + k < hi
    ensures k < |Slice(xs, lo, hi)| && Slice(xs, lo, hi)[k] == xs[lo + k]
  {
  }

  lemma CountOfFullSegments(k: nat, size: nat, cap: nat)
    requires cap > 0 && k >= 1
    requires (k - 1) * cap < size <= k * cap || (k == 1 && size == 0)
    ensures SegmentCount(size, cap) == k
  {
    if size > 0 {
      assert k * cap == (k - 1) * cap + cap;
      DivisionIsUnique(size - 1, cap, k - 1, size - 1 - (k - 1) * cap);
    }
  }

  lemma FullSliceStays<T>(xs: seq<T>, more: seq<T>, lo: nat, hi: nat)
    requires lo <= hi <= |xs|
    ensures Slice(xs + more, lo, hi) == Slice(xs, lo, hi)
  {
  }

  lemma FitsItsCount(size: nat, cap: nat)
    requires cap > 0
    ensures Fits(SegmentCount(size, cap), size, cap)
  {
    if size > 0 {
      var q := (size - 1) / cap;
      assert q * cap <= size - 1 < q * cap + cap == (q + 1) * cap;
    }
  }

  // ----------------------------------------------------------- at the last segment

  lemma NextNode(n: nat, nodes: nat)
    requires nodes > 0
    ensures (NodeOf(n, nodes) + 1) % nodes == NodeOf(n + 1, nodes)
  {
    var q, r := n / nodes, n % nodes;
    assert n == q * nodes + r;
    if r + 1 == nodes {
      assert (q + 1) * nodes == q * nodes + nodes;
      DivisionIsUnique(n + 1, nodes, q + 1, 0);
      DivisionIsUnique(r + 1, nodes, 1, 0);
    } else {
      DivisionIsUnique(n + 1, nodes, q, r + 1);
      DivisionIsUnique(r + 1, nodes, 0, r + 1);
    }
  }

  lemma NothingBeyond<T>(pushed: seq<T>, seg: nat, cap: nat)
    requires |pushed| == seg * cap
    ensures Segment(pushed, seg, cap) == []
    ensures Fits(seg + 1, |pushed|, cap)
  {
  }

  lemma BlockBounds(seg: nat, size: nat, cap: nat)
    requires Fits(seg + 1, size, cap) && size != (seg + 1) * cap
    ensures seg * cap <= size < seg * cap + cap
    ensures Fits(seg + 1, size + 1, cap)
  {
    assert (seg + 1) * cap == seg * cap + cap;
  }

  lemma RoomForOneMore(n: nat, limit: nat, cap: nat)
    requires cap > 0 && n * cap < limit * cap
    ensures n < limit
  {
  }

  lemma LastSegmentGrows<T>(pushed: seq<T>, val: T, seg: nat, cap: nat)
    requires cap > 0 && seg * cap <= |pushed| < seg * cap + cap
    ensures Segment(pushed + [val], seg, cap) == Segment(pushed, seg, cap) + [val]
  {
  }

  // ------------------------------------------------------ at another capacity

  // Reading element idx of a column with segments of cap elements, as if the
  // segments had dflt elements, finds element idx.
  predicate FindsItself(idx: nat, cap: nat, dflt: nat)
    requires dflt > 0
  {
    IndexInSegment(idx, dflt) < cap && SegmentIndex(idx, dflt) * cap + IndexInSegment(idx, dflt) == idx
  }

  predicate Reopens(size: nat, cap: nat, dflt: nat) {
    cap == dflt || (size <= cap && size <= dflt)
  }

  // A column that is read back gets the default capacity. That is right
  // exactly when it was built with it or has all its elements in one segment.
  lemma ReopensExactly(size: nat, cap: nat, dflt: nat)
    requires cap > 0 && dflt > 0
    ensures (forall idx: nat | idx < size :: FindsItself(idx, cap, dflt)) <==> Reopens(size, cap, dflt)
  {
    if Reopens(size, cap, dflt) {
      forall idx: nat | idx < size ensures FindsItself(idx, cap, dflt) {
        if cap != dflt { DivisionIsUnique(idx, dflt, 0, idx); }
      }
    } else if cap < dflt {
      DivisionIsUnique(cap, dflt, 0, cap);
      assert !FindsItself(cap, cap, dflt);
    } else {
      DivisionIsUnique(dflt, dflt, 1, 0);
      assert !FindsItself(dflt, cap, dflt);
    }
  }
}
