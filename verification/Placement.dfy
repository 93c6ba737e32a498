// Which rows of a column a node finds locally, and that the nodes together
// find every row once.

module Placement {
  import opened Arith
  import opened Segments
  import opened SegmentNames

  function Range(lo: nat, hi: nat): seq<nat>
    decreases hi - lo
  {
    if lo >= hi then [] else [lo] + Range(lo + 1, hi)
  }

  // Where the indices of segment i end, as local_indices computes it.
  function SegmentEnd(i: nat, count: nat, size: nat, cap: nat): nat
    requires cap > 0
  {
    if i + 1 < count || size % cap == 0 then i * cap + cap else i * cap + size % cap
  }

  function IndicesUpTo(k: nat, count: nat, size: nat, cap: nat, nodes: nat, node: nat): seq<nat>
    requires cap > 0 && nodes > 0
  {
    if k == 0 then []
    else
      IndicesUpTo(k - 1, count, size, cap, nodes, node)
        + if NodeOf(k - 1, nodes) == node then Range((k - 1) * cap, SegmentEnd(k - 1, count, size, cap)) else []
  }

  // The result of local_indices on the given node.
  function LocalIndices(size: nat, cap: nat, nodes: nat, node: nat): seq<nat>
    requires cap > 0 && nodes > 0
  {
    var count := SegmentCount(size, cap);
    IndicesUpTo(count, count, size, cap, nodes, node)
  }

  method AppendRange(indices: seq<nat>, start: nat, end: nat) returns (more: seq<nat>)
    ensures more == indices + Range(start, end)
  {
    more := indices;
    var j := start;
    while j < end
      invariant start <= j && (j <= end || j == start)
      invariant more + Range(j, end) == indices + Range(start, end)
    {
      more := more + [j];
      j := j + 1;
    }
  }

  // local_indices of a finalized column, from its segment keys.
  method ComputeLocalIndices(segments: seq<SegKey>, id: string, size: nat, cap: nat, nodes: nat, node: nat)
    returns (indices: seq<nat>)
    requires cap > 0 && nodes > 0 && segments == Keys(id, SegmentCount(size, cap), nodes)
    ensures indices == LocalIndices(size, cap, nodes, node)
  {
    indices := [];
    hide Range, SegmentCount, SegmentName, NodeOf, IndicesUpTo, SegmentEnd;
    StartOfIndices(|segments|, size, cap, nodes, node);
    for i := 0 to |segments|
      invariant indices == IndicesUpTo(i, |segments|, size, cap, nodes, node)
    {
      NextIndices(i, |segments|, size, cap, nodes, node);
      if segments[i].node == node {
        indices := AppendRange(indices, i * cap, SegmentEnd(i, |segments|, size, cap));
      }
    }
  }

  lemma StartOfIndices(count: nat, size: nat, cap: nat, nodes: nat, node: nat)
    requires cap > 0 && nodes > 0
    ensures IndicesUpTo(0, count, size, cap, nodes, node) == []
  {
  }

  lemma NextIndices(i: nat, count: nat, size: nat, cap: nat, nodes: nat, node: nat)
    requires cap > 0 && nodes > 0
    ensures IndicesUpTo(i + 1, count, size, cap, nodes, node)
      == IndicesUpTo(i, count, size, cap, nodes, node)
        + if NodeOf(i, nodes) == node then Range(i * cap, SegmentEnd(i, count, size, cap)) else []
  {
    hide Range, SegmentEnd, NodeOf;
  }

  lemma {:induction false} RangeMember(lo: nat, hi: nat, x: nat)
    ensures x in Range(lo, hi) <==> lo <= x < hi
    decreases hi - lo
  {
    if lo < hi { RangeMember(lo + 1, hi, x); }
  }

  predicate Increasing(s: seq<nat>) {
    forall i, j | 0 <= i < j < |s| :: s[i] < s[j]
  }

  lemma {:induction false} RangeIncreases(lo: nat, hi: nat)
    ensures Increasing(Range(lo, hi))
    decreases hi - lo
  {
    if lo < hi {
      RangeIncreases(lo + 1, hi);
      var rest := Range(lo + 1, hi);
      forall k | 0 <= k < |rest| ensures rest[k] > lo {
        RangeMember(lo + 1, hi, rest[k]);
      }
    }
  }

  // In a non-empty column a segment ends where the next one starts, or with
  // the column.
  lemma SegmentEndIsRight(i: nat, size: nat, cap: nat)
    requires cap > 0 && size > 0 && i < SegmentCount(size, cap)
    ensures var count := SegmentCount(size, cap);
      SegmentEnd(i, count, size, cap) == if i * cap + cap <= size then i * cap + cap else size
  {
    var q, r := (size - 1) / cap, (size - 1) % cap;
    assert size - 1 == q * cap + r;
    if i < q {
      BlockFits(i, q, cap);
    } else if r + 1 == cap {
      assert size == (q + 1) * cap + 0 by { assert (q + 1) * cap == q * cap + cap; }
      DivisionIsUnique(size, cap, q + 1, 0);
    } else {
      DivisionIsUnique(size, cap, q, r + 1);
    }
  }

  lemma InSegment(x: nat, i: nat, cap: nat)
    requires cap > 0
    ensures i * cap <= x < i * cap + cap <==> i == SegmentIndex(x, cap)
  {
    if i * cap <= x < i * cap + cap { DivisionIsUnique(x, cap, i, x - i * cap); }
  }

  lemma {:induction false} IndexMember(k: nat, size: nat, cap: nat, nodes: nat, node: nat, x: nat)
    requires cap > 0 && nodes > 0 && size > 0 && k <= SegmentCount(size, cap)
    ensures x in IndicesUpTo(k, SegmentCount(size, cap), size, cap, nodes, node)
      <==> SegmentIndex(x, cap) < k && x < size && NodeOf(SegmentIndex(x, cap), nodes) == node
  {
    if k > 0 {
      hide SegmentIndex, NodeOf, Range, SegmentEnd, SegmentCount;
      IndexMember(k - 1, size, cap, nodes, node, x);
      SegmentEndIsRight(k - 1, size, cap);
      InSegment(x, k - 1, cap);
      RangeMember((k - 1) * cap, SegmentEnd(k - 1, SegmentCount(size, cap), size, cap), x);
    }
  }

  lemma {:induction false} IndicesIncrease(k: nat, count: nat, size: nat, cap: nat, nodes: nat, node: nat)
    requires cap > 0 && nodes > 0
    ensures Increasing(IndicesUpTo(k, count, size, cap, nodes, node))
    ensures forall x | x in IndicesUpTo(k, count, size, cap, nodes, node) :: x < k * cap
  {
    if k > 0 {
      var lo, hi := (k - 1) * cap, SegmentEnd(k - 1, count, size, cap);
      IndicesIncrease(k - 1, count, size, cap, nodes, node);
      assert lo + cap == k * cap && hi <= lo + cap;
      hide SegmentEnd, NodeOf;
      RangeIncreases(lo, hi);
      forall x: nat | x in Range(lo, hi) ensures lo <= x < k * cap { RangeMember(lo, hi, x); }
      Joined(IndicesUpTo(k - 1, count, size, cap, nodes, node), Range(lo, hi), lo);
    }
  }

  lemma Joined(a: seq<nat>, b: seq<nat>, mid: nat)
    requires Increasing(a) && Increasing(b)
    requires (forall x | x in a :: x < mid) && (forall x: nat | x in b :: x >= mid)
    ensures Increasing(a + b)
  {
    forall i, j | 0 <= i < j < |a + b| ensures (a + b)[i] < (a + b)[j] {
      if i < |a| <= j { assert a[i] in a && b[j - |a|] in b; }
    }
  }

  // Each node finds, in increasing order, the rows of its own segments.
  ghost predicate FindsOwnRows(size: nat, cap: nat, nodes: nat, node: nat)
    requires cap > 0 && nodes > 0
  {
    forall x :: x in LocalIndices(size, cap, nodes, node) <==>
      0 <= x < size && NodeOf(SegmentIndex(x, cap), nodes) == node
  }

  lemma NodeFindsOwnRows(size: nat, cap: nat, nodes: nat, node: nat)
    requires cap > 0 && nodes > 0 && size > 0
    ensures FindsOwnRows(size, cap, nodes, node)
  {
    hide NodeOf, IndicesUpTo;
    forall x: nat
      ensures x in LocalIndices(size, cap, nodes, node) <==> x < size && NodeOf(SegmentIndex(x, cap), nodes) == node
    {
      IndexMember(SegmentCount(size, cap), size, cap, nodes, node, x);
      if x < size { DivisionIsMonotone(x, size - 1, cap); }
    }
  }

  // local_indices splits the rows among the nodes exactly when there are rows:
  // for an empty column node 0 gets a whole segment of indices that do not exist.
  lemma RowsArePartitionedExactly(size: nat, cap: nat, nodes: nat)
    requires cap > 0 && nodes > 0
    ensures (forall node: nat | node < nodes :: FindsOwnRows(size, cap, nodes, node)) <==> size > 0
  {
    if size > 0 {
      forall node: nat | node < nodes ensures FindsOwnRows(size, cap, nodes, node) {
        NodeFindsOwnRows(size, cap, nodes, node);
      }
    } else {
      assert LocalIndices(0, cap, nodes, 0) == IndicesUpTo(0, 1, 0, cap, nodes, 0) + Range(0, cap);
      RangeMember(0, cap, 0);
      assert 0 in LocalIndices(0, cap, nodes, 0);
      assert !FindsOwnRows(0, cap, nodes, 0);
    }
  }

  // ------------------------------------------------------ all nodes together

  function AllIndices(size: nat, cap: nat, nodes: nat, k: nat): seq<nat>
    requires cap > 0 && nodes > 0
  {
    if k == 0 then [] else AllIndices(size, cap, nodes, k - 1) + LocalIndices(size, cap, nodes, k - 1)
  }

  lemma {:induction false} OnceIfIncreasing(s: seq<nat>, x: nat)
    requires Increasing(s)
    ensures multiset(s)[x] == if x in s then 1 else 0
  {
    if s != [] {
      var init, last := s[..|s| - 1], s[|s| - 1];
      assert s == init + [last];
      OnceIfIncreasing(init, x);
    }
  }

  lemma LocalIndicesIncrease(size: nat, cap: nat, nodes: nat, node: nat)
    requires cap > 0 && nodes > 0
    ensures Increasing(LocalIndices(size, cap, nodes, node))
  {
    hide IndicesUpTo, SegmentCount;
    IndicesIncrease(SegmentCount(size, cap), SegmentCount(size, cap), size, cap, nodes, node);
  }

  lemma CountAtNode(size: nat, cap: nat, nodes: nat, node: nat, x: nat)
    requires cap > 0 && nodes > 0 && size > 0
    ensures multiset(LocalIndices(size, cap, nodes, node))[x]
      == if x < size && NodeOf(SegmentIndex(x, cap), nodes) == node then 1 else 0
  {
    hide NodeOf, SegmentIndex, LocalIndices;
    NodeFindsOwnRows(size, cap, nodes, node);
    LocalIndicesIncrease(size, cap, nodes, node);
    OnceIfIncreasing(LocalIndices(size, cap, nodes, node), x);
  }

  lemma {:induction false} CountBelow(size: nat, cap: nat, nodes: nat, k: nat, x: nat)
    requires cap > 0 && nodes > 0 && size > 0 && k <= nodes
    ensures multiset(AllIndices(size, cap, nodes, k))[x]
      == if x < size && NodeOf(SegmentIndex(x, cap), nodes) < k then 1 else 0
  {
    hide NodeOf, SegmentIndex, LocalIndices;
    if k > 0 {
      CountBelow(size, cap, nodes, k - 1, x);
      CountAtNode(size, cap, nodes, k - 1, x);
    }
  }

  // The nodes' indices are a permutation of the row numbers.
  lemma IndicesArePermutation(size: nat, cap: nat, nodes: nat)
    requires cap > 0 && nodes > 0 && size > 0
    ensures multiset(AllIndices(size, cap, nodes, nodes)) == multiset(Range(0, size))
  {
    forall x: nat ensures multiset(AllIndices(size, cap, nodes, nodes))[x] == multiset(Range(0, size))[x] {
      CountBelow(size, cap, nodes, nodes, x);
      RangeIncreases(0, size);
      OnceIfIncreasing(Range(0, size), x);
      RangeMember(0, size, x);
    }
  }

  // A local row is read from a segment that the node itself stores.
  lemma LocalRowIsLocal(size: nat, cap: nat, nodes: nat, node: nat, x: nat, id: string)
    requires cap > 0 && nodes > 0 && size > 0 && node < nodes
    requires x in LocalIndices(size, cap, nodes, node)
    ensures x < size && SegmentIndex(x, cap) < SegmentCount(size, cap)
    ensures Keys(id, SegmentCount(size, cap), nodes)[SegmentIndex(x, cap)].node == node
  {
    RowsArePartitionedExactly(size, cap, nodes);
    assert FindsOwnRows(size, cap, nodes, node);
    DivisionIsMonotone(x, size - 1, cap);
  }
}
