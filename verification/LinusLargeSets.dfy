// Commits for which a set of some round needs a second segment: either the
// merged set only, or already what node 1 finds by itself.

module LinusLargeSets {
  import opened Ints
  import opened Arith
  import opened Segments
  import opened Search
  import opened TagSets
  import opened LinusModel
  import opened LinusLocal
  import opened LinusSafety

  // -------------------------------------------------- how many rows a set takes

  lemma {:induction false} AscendingCovers(s: set<nat>, lo: nat, k: nat, hi: nat)
    requires lo <= k <= hi && forall x | lo <= x < k :: x in s
    ensures |Ascending(s, lo, hi)| >= k - lo
    decreases k - lo
  {
    if lo < k { AscendingCovers(s, lo + 1, k, hi); }
  }

  lemma {:induction false} AscendingWithin(s: set<nat>, j: nat, k: nat, lo: nat, hi: nat)
    requires j <= k && forall x | x in s :: j <= x < k
    ensures |Ascending(s, lo, hi)| <= if lo <= j then k - j else if lo <= k then k - lo else 0
    decreases hi - lo
  {
    if lo < hi { AscendingWithin(s, j, k, lo + 1, hi); }
  }

  lemma TwoSegments(size: nat, cap: nat)
    requires cap > 0 && size > cap
    ensures SegmentCount(size, cap) >= 2 && (size == cap + 1 ==> SegmentCount(size, cap) == 2)
  {
    DivisionIsMonotone(cap, size - 1, cap);
    DivisionIsUnique(cap, cap, 1, 0);
  }

  // ---------------------------------------------------------- commits for round r

  // Makes x a new member in round r, which is 1 or 2, whatever is tagged: the
  // other id is out of range.
  function RowFor(r: nat, x: int32): CommitRow {
    if r == 1 then CommitRow(x, -1) else CommitRow(-1, x)
  }

  ghost predicate OnlyFor(c: Config, r: nat) {
    forall row | row in c.commits :: row == RowFor(r, if r == 1 then row.pid else row.uid)
  }

  lemma RowAdds(c: Config, r: nat, v: int32, x: nat)
    requires c.Valid() && (r == 1 || r == 2)
    ensures Adds(c, r, ToCommit(RowFor(r, v)), x) <==> x == v && x < SizeOf(c, r)
  {
    hide DeltaU, DeltaP;
    assert IsOdd(1) && !IsOdd(2);
  }

  lemma FindsRow(c: Config, r: nat, n: nat, v: int32)
    requires c.Valid() && (r == 1 || r == 2) && 0 <= v < SizeOf(c, r) && RowFor(r, v) in RowsAt(c, n)
    ensures v in Finds(c, r, n)
  {
    var t := ToCommit(RowFor(r, v));
    CommitMember(RowsAt(c, n), t);
    RowAdds(c, r, v, v);
    hide Adds, AsCommits, RowsAt, RowFor;
    FindsMember(c, r, n, v);
  }

  lemma MergedByRow(c: Config, r: nat, x: nat)
    requires c.Valid() && (r == 1 || r == 2) && OnlyFor(c, r)
    ensures x in Merged(c, r) <==> x < 0x8000_0000 && x < SizeOf(c, r) && RowFor(r, x) in c.commits
  {
    MergedMember(c, r, x);
    hide Merged, Adds, AsCommits, SizeOf, ToCommit, OnlyFor;
    var cs := c.CommitGraph().commits;
    if t :| t in cs && Adds(c, r, t, x) {
      CommitMember(c.commits, t);
      var row :| row in c.commits && ToCommit(row) == t;
      OnlySuchRows(c, r, row);
      RowAdds(c, r, if r == 1 then row.pid else row.uid, x);
    }
    if x < 0x8000_0000 && x < SizeOf(c, r) && RowFor(r, x) in c.commits {
      RowAdds(c, r, x, x);
      CommitMember(c.commits, ToCommit(RowFor(r, x)));
    }
  }

  lemma OnlySuchRows(c: Config, r: nat, row: CommitRow)
    requires OnlyFor(c, r) && row in c.commits
    ensures row == RowFor(r, if r == 1 then row.pid else row.uid)
  {
  }

  // ------------------------------------------------------------- the merged set

  // One new member more than a segment holds, over two segments of rows.
  function Spread(c: Config, r: nat): seq<CommitRow>
    requires c.cap < 0x8000_0000
  {
    seq(c.cap + 1, i requires 0 <= i <= c.cap => RowFor(r, i))
  }

  lemma SpreadIsValid(c0: Config, r: nat) returns (c: Config)
    requires c0.Valid() && c0.cap < 0x8000_0000
    ensures c == c0.(commits := Spread(c0, r)) && c.Valid() && c.Segments(2) == 2
    ensures OnlyFor(c, r)
  {
    c := c0.(commits := Spread(c0, r));
    TwoSegments(c.cap + 1, c.cap);
    assert c.Segments(0) == c0.Segments(0) && c.Segments(1) == c0.Segments(1);
    hide SegmentCount;
  }

  lemma SpreadMerged(c: Config, r: nat)
    requires c.Valid() && (r == 1 || r == 2) && c.cap < SizeOf(c, r) && c.commits == Spread(c, r) && OnlyFor(c, r)
    ensures DeltaSegments(c, r, 0) == 2
  {
    forall x: nat ensures x in Merged(c, r) <==> x <= c.cap {
      MergedByRow(c, r, x);
      if x <= c.cap { assert c.commits[x] == RowFor(r, x); }
      if x < 0x8000_0000 && RowFor(r, x) in c.commits {
        var i :| 0 <= i < |c.commits| && c.commits[i] == RowFor(r, x);
      }
    }
    hide Merged, RowFor, Spread, OnlyFor;
    AscendingCovers(Merged(c, r), 0, c.cap + 1, SizeOf(c, r));
    AscendingWithin(Merged(c, r), 0, c.cap + 1, 0, SizeOf(c, r));
    hide Ascending;
    assert |RightRows(c, r, 0)| == c.cap + 1;
    TwoSegments(c.cap + 1, c.cap);
  }

  // ---------------------------------------------------------- node 1's own set

  // Node 1 has the segments 1 and nodes + 1, and finds one member more than a
  // segment holds.
  function Heap(c: Config, r: nat): seq<CommitRow>
    requires c.cap < 0x8000_0000
  {
    seq((c.nodes + 2) * c.cap,
      i requires 0 <= i < (c.nodes + 2) * c.cap => RowFor(r, if c.cap <= i < 2 * c.cap then i - c.cap else c.cap))
  }

  lemma FullSegments(count: nat, cap: nat)
    requires cap > 0 && count > 0
    ensures count * cap > 0 && SegmentCount(count * cap, cap) == count
  {
    assert count * cap - 1 == (count - 1) * cap + (cap - 1);
    Scale(1, count, cap);
    DivisionIsUnique(count * cap - 1, cap, count - 1, cap - 1);
  }

  lemma HeapIsValid(c0: Config, r: nat) returns (c: Config)
    requires c0.Valid() && c0.cap < 0x8000_0000 && c0.nodes + 2 <= MAX_SEGMENTS
    ensures c == c0.(commits := Heap(c0, r)) && c.Valid() && c.Segments(2) == c.nodes + 2
    ensures OnlyFor(c, r)
  {
    c := c0.(commits := Heap(c0, r));
    forall row | row in c.commits ensures row == RowFor(r, if r == 1 then row.pid else row.uid) {
      var i :| 0 <= i < |c.commits| && c.commits[i] == row;
      var v: int32 := if c.cap <= i < 2 * c.cap then i - c.cap else c.cap;
      assert c.commits[i] == RowFor(r, v);
    }
    FullSegments(c.nodes + 2, c.cap);
    assert c.Segments(0) == c0.Segments(0) && c.Segments(1) == c0.Segments(1);
    hide SegmentCount;
  }

  lemma RowInSegment(c: Config, s: nat, y: nat)
    requires c.Valid() && y < c.cap && s * c.cap + y < |c.commits|
    ensures c.commits[s * c.cap + y] in Segment(c.commits, s, c.cap)
  {
    var segment := Segment(c.commits, s, c.cap);
    assert segment[y] == c.commits[s * c.cap + y];
  }

  lemma HeapOfNodeOne(c: Config, r: nat, x: nat)
    requires c.Valid() && c.nodes > 1 && c.cap < 0x8000_0000 && c.commits == Heap(c, r)
    requires c.Segments(2) == c.nodes + 2 && x <= c.cap
    ensures RowFor(r, x) in RowsAt(c, 1)
  {
    var s, y := if x < c.cap then 1 else c.nodes + 1, if x < c.cap then x else 0;
    HeapIndex(c, s, y);
    RowInSegment(c, s, y);
    assert c.commits[s * c.cap + y] == RowFor(r, x);
    hide Segment, RowFor, Heap;
    OnNodeOne(c.nodes);
    LocalMember(c, 1, c.nodes + 2, RowFor(r, x));
    assert NodeOf(s, c.nodes) == 1;
  }

  lemma OnNodeOne(nodes: nat)
    requires nodes > 1
    ensures NodeOf(1, nodes) == 1 && NodeOf(nodes + 1, nodes) == 1
  {
    DivisionIsUnique(nodes + 1, nodes, 1, 1);
    DivisionIsUnique(1, nodes, 0, 1);
  }

  lemma HeapIndex(c: Config, s: nat, y: nat)
    requires c.nodes > 1 && c.cap > 0 && y < c.cap && (s == 1 || (s == c.nodes + 1 && y == 0))
    ensures s * c.cap + y < (c.nodes + 2) * c.cap
    ensures s == 1 ==> s * c.cap + y == c.cap + y
    ensures s == c.nodes + 1 ==> s * c.cap >= 2 * c.cap
  {
    BlockFits(s, c.nodes + 2, c.cap);
    if s == c.nodes + 1 { Scale(2, s, c.cap); }
  }

  lemma HeapFound(c: Config, r: nat)
    requires c.Valid() && (r == 1 || r == 2) && c.nodes > 1 && c.cap < 0x8000_0000 && c.cap < SizeOf(c, r)
    requires c.commits == Heap(c, r) && c.Segments(2) == c.nodes + 2
    ensures DeltaSegments(c, r, 1) > 1
  {
    hide Finds, Heap, RowFor, RowsAt;
    forall x: nat | x < c.cap + 1 ensures x in Finds(c, r, 1) {
      HeapOfNodeOne(c, r, x);
      FindsRow(c, r, 1, x);
    }
    AscendingCovers(Finds(c, r, 1), 0, c.cap + 1, SizeOf(c, r));
    hide Ascending;
    assert |RightRows(c, r, 1)| >= c.cap + 1;
    TwoSegments(|RightRows(c, r, 1)|, c.cap);
  }

  // ---------------------------------------------------- a node with one segment

  lemma {:induction false} AscendingIsSmall(s: set<nat>, lo: nat, hi: nat)
    ensures |Ascending(s, lo, hi)| <= |s|
    decreases hi - lo
  {
    if lo < hi {
      AscendingIsSmall(s - {lo}, lo + 1, hi);
      AscendingWithout(s, lo, lo + 1, hi);
    }
  }

  lemma {:induction false} AscendingWithout(s: set<nat>, x: nat, lo: nat, hi: nat)
    requires x < lo
    ensures Ascending(s - {x}, lo, hi) == Ascending(s, lo, hi)
    decreases hi - lo
  {
    if lo < hi { AscendingWithout(s, x, lo + 1, hi); }
  }

  lemma {:induction false} FewRowsFewFound(cs: seq<Commit>, g: Graph, s: set<nat>)
    ensures |ProjectsOf(cs, g, s)| <= |cs| && |UsersOf(cs, g, s)| <= |cs|
  {
    if cs == [] {
      assert ProjectsOf(cs, g, s) == {} && UsersOf(cs, g, s) == {};
    } else {
      var init, last := cs[..|cs| - 1], cs[|cs| - 1];
      FewRowsFewFound(init, g, s);
      assert cs == init + [last];
      ScanSplits(init, [last], g, s);
      AtMostOne(ProjectsOf([last], g, s), last.pid);
      AtMostOne(UsersOf([last], g, s), last.uid);
    }
  }

  lemma AtMostOne(s: set<nat>, x: nat)
    requires forall y | y in s :: y == x
    ensures |s| <= 1
  {
    assert s <= {x};
    SubsetIsSmaller(s, {x});
  }

  lemma SubsetIsSmaller(a: set<nat>, b: set<nat>)
    requires a <= b
    ensures |a| <= |b|
  {
    assert a + (b - a) == b;
  }

  lemma FindsAreFew(c: Config, r: nat, n: nat)
    requires c.nodes > 0 && c.cap > 0 && r >= 1
    ensures |Finds(c, r, n)| <= |RowsAt(c, n)|
  {
    var k, g := (r - 1) / 2, c.CommitGraph();
    var cs := AsCommits(RowsAt(c, n));
    assert |cs| == |RowsAt(c, n)|;
    hide AsCommits, ProjectsOf, UsersOf, DeltaU, DeltaP, NaiveP, NaiveU, RowsAt;
    if IsOdd(r) {
      FewRowsFewFound(cs, g, DeltaU(g, k));
      SubsetIsSmaller(Finds(c, r, n), ProjectsOf(cs, g, DeltaU(g, k)));
    } else {
      FewRowsFewFound(cs, g, DeltaP(g, k));
      SubsetIsSmaller(Finds(c, r, n), UsersOf(cs, g, DeltaP(g, k)));
    }
  }

  // With so many nodes that a second segment would have no name.
  lemma {:induction false} OwnRowsAreFew(c: Config, n: nat, upTo: nat)
    requires c.cap > 0 && 0 < n < c.nodes && upTo <= MAX_SEGMENTS < c.nodes + 2
    ensures |LocalRows(c, n, upTo)| <= if upTo > n then c.cap else 0
  {
    if upTo > 0 {
      OwnRowsAreFew(c, n, upTo - 1);
      OnlyOwnSegment(c.nodes, upTo - 1, n);
    }
  }

  lemma OnlyOwnSegment(nodes: nat, s: nat, n: nat)
    requires 0 < n < nodes && s < nodes + 1
    ensures NodeOf(s, nodes) == n ==> s == n
  {
    if s >= nodes { DivisionIsUnique(s, nodes, 1, s - nodes); } else { DivisionIsUnique(s, nodes, 0, s); }
  }

  lemma OneRowSegmentOneSetSegment(c: Config, r: nat, n: nat)
    requires c.Valid() && r >= 1 && 0 < n < c.nodes && c.nodes + 2 > MAX_SEGMENTS
    ensures DeltaSegments(c, r, n) == 1
  {
    OwnRowsAreFew(c, n, c.Segments(2));
    FindsAreFew(c, r, n);
    hide Finds, RowsAt, SegmentCount;
    AscendingIsSmall(Finds(c, r, n), 0, SizeOf(c, r));
    hide Ascending;
    OneSegment(|RightRows(c, r, n)|, c.cap);
  }
}
