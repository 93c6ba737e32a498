// One node of the Linus application: if what it reads is right, then what it
// computes and what it publishes is right.

module LinusLocal {
  import opened Ints
  import opened Arith
  import opened Segments
  import opened Search
  import opened TagSets
  import opened LinusModel

  // ------------------------------------------- the nodes' rows are all the rows

  lemma {:induction false} LocalMember(c: Config, n: nat, upTo: nat, x: CommitRow)
    requires c.nodes > 0
    ensures x in LocalRows(c, n, upTo)
      <==> exists s: nat :: s < upTo && NodeOf(s, c.nodes) == n && x in Segment(c.commits, s, c.cap)
  {
    hide Segment, NodeOf;
    if upTo > 0 { LocalMember(c, n, upTo - 1, x); }
  }

  lemma SliceMember<T>(xs: seq<T>, lo: nat, hi: nat, x: T)
    requires x in Slice(xs, lo, hi)
    ensures x in xs
  {
  }

  lemma RowHasNode(c: Config, x: CommitRow) returns (n: nat)
    requires c.nodes > 0 && c.cap > 0 && x in c.commits
    ensures n < c.nodes && x in RowsAt(c, n)
  {
    var i :| 0 <= i < |c.commits| && c.commits[i] == x;
    SegmentOfIndex(c.commits, i, c.cap);
    var s := SegmentIndex(i, c.cap);
    n := NodeOf(s, c.nodes);
    hide Segment, SegmentIndex, IndexInSegment, SegmentCount, NodeOf, LocalRows;
    assert x in Segment(c.commits, s, c.cap);
    LocalMember(c, n, c.Segments(2), x);
  }

  lemma RowOfNode(c: Config, n: nat, x: CommitRow)
    requires c.nodes > 0 && c.cap > 0 && x in RowsAt(c, n)
    ensures x in c.commits
  {
    LocalMember(c, n, c.Segments(2), x);
    var s: nat :| s < c.Segments(2) && NodeOf(s, c.nodes) == n && x in Segment(c.commits, s, c.cap);
    hide Slice, SegmentCount, NodeOf, LocalRows;
    SliceMember(c.commits, s * c.cap, s * c.cap + c.cap, x);
  }

  lemma RowIsSomewhere(c: Config, x: CommitRow)
    requires c.nodes > 0 && c.cap > 0
    ensures x in c.commits <==> exists n: nat :: n < c.nodes && x in RowsAt(c, n)
  {
    hide RowsAt;
    if x in c.commits { var n := RowHasNode(c, x); }
    if n: nat :| n < c.nodes && x in RowsAt(c, n) { RowOfNode(c, n, x); }
  }

  function ToCommit(row: CommitRow): Commit {
    Commit(ToSize(row.pid), ToSize(row.uid))
  }

  lemma CommitMember(rows: seq<CommitRow>, x: Commit)
    ensures x in AsCommits(rows) <==> exists row :: row in rows && ToCommit(row) == x
  {
    if x in AsCommits(rows) {
      var i :| 0 <= i < |rows| && AsCommits(rows)[i] == x;
      assert rows[i] in rows && ToCommit(rows[i]) == x;
    }
    if row :| row in rows && ToCommit(row) == x {
      var i :| 0 <= i < |rows| && rows[i] == row;
      assert AsCommits(rows)[i] == x;
    }
  }

  lemma CommitIsSomewhere(c: Config, x: Commit)
    requires c.nodes > 0 && c.cap > 0
    ensures x in c.CommitGraph().commits <==> exists n: nat :: n < c.nodes && x in AsCommits(RowsAt(c, n))
  {
    CommitMember(c.commits, x);
    if x in c.CommitGraph().commits {
      var row :| row in c.commits && ToCommit(row) == x;
      RowIsSomewhere(c, row);
      var n: nat :| n < c.nodes && row in RowsAt(c, n);
      CommitMember(RowsAt(c, n), x);
      assert x in AsCommits(RowsAt(c, n));
    }
    if n: nat :| n < c.nodes && x in AsCommits(RowsAt(c, n)) {
      CommitMember(RowsAt(c, n), x);
      var row :| row in RowsAt(c, n) && ToCommit(row) == x;
      RowIsSomewhere(c, row);
    }
  }

  // ------------------------------------------------- the merged set is the union

  lemma {:induction false} FindsBelowMember(c: Config, r: nat, i: nat, x: nat)
    requires c.nodes > 0 && c.cap > 0 && r >= 1
    ensures x in FindsBelow(c, r, i) <==> exists n: nat :: n < i && x in Finds(c, r, n)
  {
    hide Finds;
    if i > 0 {
      FindsBelowMember(c, r, i - 1, x);
      assert FindsBelow(c, r, i) == FindsBelow(c, r, i - 1) + Finds(c, r, i - 1);
    }
  }

  // Commit t makes x a new member in round r.
  predicate Adds(c: Config, r: nat, t: Commit, x: nat)
    requires r >= 1
  {
    var g, k := c.CommitGraph(), (r - 1) / 2;
    if IsOdd(r) then x == t.pid < c.np && Tagged(DeltaU(g, k), c.nu, t.uid) && x !in NaiveP(g, k)
    else x == t.uid < c.nu && Tagged(DeltaP(g, k), c.np, t.pid) && x !in NaiveU(g, k)
  }

  lemma ScanMember(cs: seq<Commit>, g: Graph, tagged: set<nat>, x: nat)
    ensures x in ProjectsOf(cs, g, tagged) <==>
      exists t :: t in cs && x == t.pid < g.np && Tagged(tagged, g.nu, t.uid)
    ensures x in UsersOf(cs, g, tagged) <==>
      exists t :: t in cs && x == t.uid < g.nu && Tagged(tagged, g.np, t.pid)
  {
    hide Tagged;
  }

  lemma FindsMember(c: Config, r: nat, n: nat, x: nat)
    requires c.nodes > 0 && c.cap > 0 && r >= 1
    ensures x in Finds(c, r, n) <==> exists t :: t in AsCommits(RowsAt(c, n)) && Adds(c, r, t, x)
  {
    var k, g := (r - 1) / 2, c.CommitGraph();
    ScanMember(AsCommits(RowsAt(c, n)), g, if IsOdd(r) then DeltaU(g, k) else DeltaP(g, k), x);
    hide AsCommits, RowsAt, NaiveP, NaiveU, DeltaP, DeltaU, Tagged, ProjectsOf, UsersOf, IsOdd;
  }

  lemma MergedMember(c: Config, r: nat, x: nat)
    requires c.nodes > 0 && c.cap > 0 && r >= 1
    ensures x in Merged(c, r) <==> exists t :: t in c.CommitGraph().commits && Adds(c, r, t, x)
  {
    hide Naive, NaiveP, NaiveU, DeltaP, DeltaU, AsCommits, Seed;
    RoundParity(r);
    if IsOdd(r) {
      ProjectDeltaIsSemiNaive(c.CommitGraph(), r / 2);
    } else {
      UserDeltaIsSemiNaive(c.CommitGraph(), (r - 1) / 2);
    }
  }

  // The union of what the nodes find by themselves is the naive search's delta.
  lemma UnionOfFindings(c: Config, r: nat)
    requires c.nodes > 0 && c.cap > 0 && r >= 1
    ensures FindsBelow(c, r, c.nodes) == Merged(c, r)
  {
    hide Finds, Merged, FindsBelow, Adds, AsCommits, RowsAt;
    forall x: nat ensures x in FindsBelow(c, r, c.nodes) <==> x in Merged(c, r) {
      FindsBelowMember(c, r, c.nodes, x);
      MergedMember(c, r, x);
      if n: nat :| n < c.nodes && x in Finds(c, r, n) {
        FindsMember(c, r, n, x);
        var t :| t in AsCommits(RowsAt(c, n)) && Adds(c, r, t, x);
        CommitIsSomewhere(c, t);
      }
      if t :| t in c.CommitGraph().commits && Adds(c, r, t, x) {
        CommitIsSomewhere(c, t);
        var n: nat :| n < c.nodes && t in AsCommits(RowsAt(c, n));
        FindsMember(c, r, n, x);
      }
    }
  }

  lemma FindsAreMerged(c: Config, r: nat, n: nat)
    requires n < c.nodes && c.cap > 0 && r >= 1
    ensures Finds(c, r, n) <= Merged(c, r)
  {
    hide Finds, Merged, FindsBelow;
    UnionOfFindings(c, r);
    forall x | x in Finds(c, r, n) ensures x in Merged(c, r) {
      FindsBelowMember(c, r, c.nodes, x);
    }
  }

  // ----------------------------------------------------- reading back what is sent

  lemma MergedInRange(c: Config, r: nat)
    requires c.Valid()
    ensures forall x | x in Merged(c, r) :: x < SizeOf(c, r)
  {
    InRange(c.CommitGraph(), r / 2);
    InRange(c.CommitGraph(), r / 2 + 1);
    hide Naive;
  }

  lemma SeedReadsBack(c: Config)
    requires c.Valid()
    ensures Members([c.linus], c.nu) == Merged(c, 0)
  {
    var rows: seq<int32> := [c.linus];
    assert rows[0] in rows;
    assert forall v | v in rows :: v == c.linus;
  }

  // Reading a published set gives exactly the set, and an empty frame means
  // the empty set.
  lemma RowsReadBack(c: Config, r: nat, n: nat)
    requires c.Valid() && n < c.nodes
    ensures Members(RightRows(c, r, n), SizeOf(c, r)) == RightSet(c, r, n)
    ensures |RightRows(c, r, n)| == 0 ==> RightSet(c, r, n) == {}
  {
    if r == 0 {
      SeedReadsBack(c);
    } else {
      MergedInRange(c, r);
      FindsAreMerged(c, r, n);
      hide Finds, Merged;
      SmallMembersReadBack(RightSet(c, r, n), SizeOf(c, r));
    }
  }

  // ------------------------------------------------------- reading by segments

  lemma MembersOfBoth(a: seq<int32>, b: seq<int32>, size: nat)
    ensures Members(a + b, size) == Members(a, size) + Members(b, size)
  {
  }

  lemma SlicesJoin<T>(xs: seq<T>, lo: nat, hi: nat)
    requires lo <= hi
    ensures Slice(xs, 0, lo) + Slice(xs, lo, hi) == Slice(xs, 0, hi)
  {
  }

  lemma PartNone(c: Config, r: nat, n: nat)
    requires c.Valid()
    ensures PartSet(c, r, n, 0) == {}
  {
    hide RightRows;
  }

  lemma PartOfRows(rows: seq<int32>, cap: nat, size: nat, s: nat)
    ensures Members(Slice(rows, 0, (s + 1) * cap), size)
      == Members(Slice(rows, 0, s * cap), size) + Members(Segment(rows, s, cap), size)
  {
    var lo := s * cap;
    assert (s + 1) * cap == lo + cap;
    hide Slice, Members;
    SlicesJoin(rows, lo, lo + cap);
    MembersOfBoth(Slice(rows, 0, lo), Slice(rows, lo, lo + cap), size);
  }

  lemma PartNext(c: Config, r: nat, n: nat, s: nat)
    requires c.Valid()
    ensures PartSet(c, r, n, s + 1)
      == PartSet(c, r, n, s) + Members(Segment(RightRows(c, r, n), s, c.cap), SizeOf(c, r))
  {
    hide RightRows;
    PartOfRows(RightRows(c, r, n), c.cap, SizeOf(c, r), s);
  }

  // All segments together hold the set.
  lemma PartAll(c: Config, r: nat, n: nat, s: nat)
    requires c.Valid() && n < c.nodes && DeltaSegments(c, r, n) <= s
    ensures PartSet(c, r, n, s) == RightSet(c, r, n)
  {
    RowsReadBack(c, r, n);
    var rows := RightRows(c, r, n);
    hide RightRows, RightSet, Members;
    FitsItsCount(|rows|, c.cap);
    Scale(DeltaSegments(c, r, n), s, c.cap);
    assert Slice(rows, 0, s * c.cap) == rows;
  }

  // A segment that is read while a further one exists continues the reading.
  lemma ReadsOn(c: Config, l: Local, r: nat, w: nat, s: nat, start: set<nat>, size: nat)
    requires c.Valid() && w < c.nodes && Reading(c, l, r, w, s, start) && size == SizeOf(c, r)
    ensures var l' := l.(cur := l.cur + MembersOf(ValueOf(c, DeltaSeg(r, w, s)), size));
      && (MoreAfter(c, l, s) ==> Reading(c, l', r, w, s + 1, start))
      && (!MoreAfter(c, l, s) ==> l'.cur == start + RightSet(c, r, w))
  {
    PartNext(c, r, w, s);
    if !MoreAfter(c, l, s) { PartAll(c, r, w, s + 1); }
    hide RightRows, RightSet, PartSet, Members, Segment, SegmentCount;
  }

  // The rows of a frame say whether there is anything to read.
  lemma ReadingStarts(c: Config, l: Local, r: nat, w: nat)
    requires c.Valid() && w < c.nodes
    ensures |RightRows(c, r, w)| > 0 ==> Reading(c, l.(rows := |RightRows(c, r, w)|), r, w, 0, l.cur)
    ensures |RightRows(c, r, w)| == 0 ==> RightSet(c, r, w) == {}
  {
    RowsReadBack(c, r, w);
    PartNone(c, r, w);
    SegmentsExist(c, r, w);
    hide RightRows, RightSet, PartSet, Members, DeltaSegments;
    assert l.cur + {} == l.cur;
  }

  // ----------------------------------------------------------- program steps

  lemma ScanParity(r: nat)
    requires r >= 1
    ensures IsOdd(r) ==> !IsOdd(r - 1)
    ensures !IsOdd(r) ==> IsOdd(r - 1)
  {
  }

  // A node's own graph differs from the whole one in its commits only.
  lemma ScanOfOwnRows(c: Config, n: nat, l: Local, r: nat, query: set<nat>)
    requires c.Valid() && n < c.nodes && 1 <= r <= c.Last()
    requires BeforeScan(c, l, r) && query == Merged(c, r - 1)
    ensures var l' := Compute(c, n, l, r, query, RowsAt(c, n));
      l'.cur == Finds(c, r, n) && AfterScan(c, n, l', r)
  {
    ScanParity(r);
    hide RowsAt, AsCommits, Naive, NaiveP, NaiveU, DeltaP, DeltaU;
    var g, g' := c.CommitGraph(), Graph(AsCommits(RowsAt(c, n)), l.np, l.nu, c.linus);
    assert ProjectsOf(g'.commits, g', query) == ProjectsOf(g'.commits, g, query);
    assert UsersOf(g'.commits, g', query) == UsersOf(g'.commits, g, query);
  }

  // The scan of round r from the right query finds the right set.
  lemma ScanIsRight(c: Config, n: nat, l: Local, r: nat, query: set<nat>)
    requires c.Valid() && n < c.nodes && 1 <= r <= c.Last()
    requires BeforeScan(c, l, r) && query == Merged(c, r - 1)
    ensures LocalOk(c, n, Compute(c, n, l, r, query, RowsAt(c, n)))
  {
    var l' := Compute(c, n, l, r, query, RowsAt(c, n));
    ScanOfOwnRows(c, n, l, r, query);
    assert l'.pc == if n == 0 && 1 < c.nodes then Collect(r, 1) else SendSeg(r, 0);
    hide Compute, BeforeScan, RowsAt, Merged, AfterScan;
    FoundIsOk(c, n, l', r);
  }

  lemma FoundIsOk(c: Config, n: nat, l: Local, r: nat)
    requires c.Valid() && n < c.nodes && 1 <= r <= c.Last()
    requires l.cur == Finds(c, r, n) && AfterScan(c, n, l, r)
    requires l.pc == if n == 0 && 1 < c.nodes then Collect(r, 1) else SendSeg(r, 0)
    ensures LocalOk(c, n, l)
  {
    hide Finds, AfterScan, Merged, DeltaSegments;
    SegmentsExist(c, r, n);
    if n == 0 {
      assert FindsBelow(c, r, 1) == FindsBelow(c, r, 0) + Finds(c, r, 0);
      if c.nodes == 1 { UnionOfFindings(c, r); }
      RightSetOfHub(c, r);
    } else {
      OwnFindings(c, r, n);
    }
  }

  lemma StartIsRight(c: Config, n: nat, l: Local, r: nat)
    requires c.Valid() && n < c.nodes && 1 <= r <= c.Last() + 1
    requires BeforeScan(c, l, r) && (!IsOdd(r) ==> l.cur == Merged(c, r - 1))
    ensures LocalOk(c, n, StartRound(c, n, l, r, RowsAt(c, n)))
  {
    if r <= c.Last() && !IsOdd(r) {
      ScanIsRight(c, n, l, r, l.cur);
    }
    hide Compute;
  }

  // Uniting with the merged set completes the round.
  lemma FinishIsRight(c: Config, n: nat, l: Local, r: nat)
    requires c.Valid() && n < c.nodes && 1 <= r <= c.Last()
    requires AfterScan(c, n, l, r) && l.cur == Merged(c, r)
    ensures LocalOk(c, n, FinishRound(c, n, l, r, RowsAt(c, n)))
  {
    var l' := if IsOdd(r) then l.(pSet := l.pSet + l.cur) else l.(uSet := l.uSet + l.cur);
    hide BeforeScan, AfterScan, StartRound, Merged, LocalOk, RowsAt;
    UnionCompletes(c, n, l, r);
    RoundParity(r);
    StartIsRight(c, n, l', r + 1);
  }

  lemma UnionCompletes(c: Config, n: nat, l: Local, r: nat)
    requires c.Valid() && n < c.nodes && 1 <= r <= c.Last()
    requires AfterScan(c, n, l, r) && l.cur == Merged(c, r)
    ensures BeforeScan(c, if IsOdd(r) then l.(pSet := l.pSet + l.cur) else l.(uSet := l.uSet + l.cur), r + 1)
  {
    hide Finds, Naive, NaiveP, NaiveU, AsCommits, Seed;
    var k := (r - 1) / 2;
    FindsAreMerged(c, r, n);
    Monotone(c.CommitGraph(), k, k + 1);
    RoundParity(r);
    if IsOdd(r) {
      GrowsBy(NaiveP(c.CommitGraph(), k), NaiveP(c.CommitGraph(), k + 1), Finds(c, r, n));
    } else {
      GrowsBy(NaiveU(c.CommitGraph(), k), NaiveU(c.CommitGraph(), k + 1), Finds(c, r, n));
    }
  }

  lemma RoundParity(r: nat)
    requires r >= 1
    ensures IsOdd(r) ==> !IsOdd(r + 1) && !IsOdd(r - 1) && r / 2 == (r - 1) / 2 == (r + 1 - 1) / 2
    ensures !IsOdd(r) ==> IsOdd(r + 1) && IsOdd(r - 1) && r / 2 == (r - 1) / 2 + 1 == (r + 1 - 1) / 2
  {
  }

  lemma GrowsBy(a: set<nat>, b: set<nat>, part: set<nat>)
    requires a <= b && part <= b - a
    ensures a + part + (b - a) == b
  {
  }

  // A set that a node offers is published as its right rows.
  lemma OffersRightRows(c: Config, n: nat, l: Local, r: nat)
    requires c.Valid() && n < c.nodes && Offering(c, n, l, r)
    ensures OutRows(c, l, r) == RightRows(c, r, n)
  {
    hide RightSet, NaiveP, NaiveU, Finds;
  }

  // Every put carries the right value, and the program goes on rightly.
  lemma PutIsRight(c: Config, n: nat, l: Local)
    requires c.Valid() && n < c.nodes && LocalOk(c, n, l) && NextOp(c, n, l).DoPut?
    ensures NextOp(c, n, l).val == ValueOf(c, NextOp(c, n, l).id)
    ensures LocalOk(c, n, AfterPut(c, n, l, RowsAt(c, n)))
  {
    hide Finds, Merged, NaiveP, NaiveU, RowsAt, Config.CommitGraph, StartRound, FinishRound, BeforeScan, RightRows,
      OutRows,
      RightSet, Segment, SegmentCount;
    match l.pc
    case InPut(f, s) => if f == 2 && s == c.Segments(2) { SegmentsExist(c, 0, 0); }
    case SendSeg(r, s) => OffersRightRows(c, n, l, r);
    case SendFrame(r) =>
      OffersRightRows(c, n, l, r);
      if n == 0 && r == 0 {
        FirstRoundIsNext(c, l);
        StartIsRight(c, n, l, 1);
      } else if n == 0 {
        OfferOfHub(c, l, r);
        FinishIsRight(c, n, l, r);
      }
  }

  lemma OfferOfHub(c: Config, l: Local, r: nat)
    requires c.Valid() && Offering(c, 0, l, r) && r > 0
    ensures l.cur == Merged(c, r) && r <= c.Last() && AfterScan(c, 0, l, r)
  {
    hide AfterScan, Merged;
  }

  lemma SegmentsExist(c: Config, r: nat, n: nat)
    requires c.Valid()
    ensures DeltaSegments(c, r, n) > 0
  {
    hide RightRows;
  }

  lemma FirstRoundIsNext(c: Config, l: Local)
    requires Untouched(c, l) && l.np == c.np && l.nu == c.nu
    ensures BeforeScan(c, l, 1)
  {
  }

  lemma RightSetOfHub(c: Config, r: nat)
    requires c.Valid()
    ensures RightSet(c, r, 0) == Merged(c, r)
  {
    hide Merged;
  }

  lemma OwnFindings(c: Config, r: nat, n: nat)
    requires c.Valid() && r >= 1 && n >= 1
    ensures RightSet(c, r, n) == Finds(c, r, n)
  {
    hide Finds;
  }

  // The conditions on the sets do not depend on the rest of the local state.
  lemma SameSets(c: Config, l: Local, l': Local, r: nat, n: nat)
    requires r >= 1 && c.nodes > 0 && c.cap > 0
    requires l'.np == l.np && l'.nu == l.nu && l'.pSet == l.pSet && l'.uSet == l.uSet
    ensures BeforeScan(c, l, r) <==> BeforeScan(c, l', r)
    ensures AfterScan(c, n, l, r) <==> AfterScan(c, n, l', r)
  {
    hide NaiveP, NaiveU, Finds;
  }

  lemma SizesInRound(c: Config, n: nat, l: Local, r: nat)
    requires c.Valid() && r >= 1
    ensures AfterScan(c, n, l, r) ==> SetSize(l, r) == SizeOf(c, r)
    ensures BeforeScan(c, l, r) && IsOdd(r) ==> l.nu == SizeOf(c, r - 1)
  {
    hide NaiveP, NaiveU, Finds;
  }

  // What a read of a segment adds.
  function Gained(c: Config, l: Local, r: nat, w: nat, s: nat): Local
    requires c.Valid()
  {
    l.(cur := l.cur + MembersOf(ValueOf(c, DeltaSeg(r, w, s)), SizeOf(c, r)))
  }

  lemma ReadingAnywhere(c: Config, l: Local, r: nat, w: nat, s: nat, start: set<nat>, pc: PC)
    requires c.Valid()
    ensures Reading(c, l.(pc := pc), r, w, s, start) <==> Reading(c, l, r, w, s, start)
  {
    hide RightRows, PartSet;
  }

  // The cases of AfterRead for the right value.
  lemma AfterBase(c: Config, n: nat, l: Local, r: nat, local: seq<CommitRow>)
    requires c.Valid() && r >= 1 && l.pc == Base(r)
    ensures var rows := |RightRows(c, r - 1, 0)|;
      AfterRead(c, n, l, ValueOf(c, NextOp(c, n, l).id), local)
        == if rows > 0 then l.(cur := {}, rows := rows, pc := BaseSeg(r, 0)) else Compute(c, n, l, r, {}, local)
  {
    hide RightRows, Compute;
  }

  lemma AfterBaseSeg(c: Config, n: nat, l: Local, r: nat, s: nat, local: seq<CommitRow>)
    requires c.Valid() && r >= 1 && l.pc == BaseSeg(r, s) && l.nu == SizeOf(c, r - 1)
    ensures var l' := Gained(c, l, r - 1, 0, s);
      AfterRead(c, n, l, ValueOf(c, NextOp(c, n, l).id), local)
        == if MoreAfter(c, l, s) then l'.(pc := BaseSeg(r, s + 1)) else Compute(c, n, l', r, l'.cur, local)
  {
    hide ValueOf, Compute, MembersOf, MoreAfter, SizeOf;
  }

  lemma AfterCollect(c: Config, n: nat, l: Local, r: nat, i: nat, local: seq<CommitRow>)
    requires c.Valid() && l.pc == Collect(r, i)
    ensures var rows := |RightRows(c, r, i)|;
      AfterRead(c, n, l, ValueOf(c, NextOp(c, n, l).id), local)
        == if rows > 0 then l.(rows := rows, pc := CollectSeg(r, i, 0)) else NextCollect(c, l, r, i + 1)
  {
    hide RightRows, NextCollect;
  }

  lemma AfterCollectSeg(c: Config, n: nat, l: Local, r: nat, i: nat, s: nat, local: seq<CommitRow>)
    requires c.Valid() && l.pc == CollectSeg(r, i, s) && SetSize(l, r) == SizeOf(c, r)
    ensures var l' := Gained(c, l, r, i, s);
      AfterRead(c, n, l, ValueOf(c, NextOp(c, n, l).id), local)
        == if MoreAfter(c, l, s) then l'.(pc := CollectSeg(r, i, s + 1)) else NextCollect(c, l', r, i + 1)
  {
    hide ValueOf, MembersOf, MoreAfter, SizeOf, SetSize, NextCollect;
  }

  lemma AfterAwait(c: Config, n: nat, l: Local, r: nat, local: seq<CommitRow>)
    requires c.Valid() && l.pc == Await(r)
    ensures var rows := |RightRows(c, r, 0)|;
      AfterRead(c, n, l, ValueOf(c, NextOp(c, n, l).id), local)
        == if rows > 0 then l.(rows := rows, pc := AwaitSeg(r, 0)) else FinishRound(c, n, l, r, local)
  {
    hide RightRows, FinishRound;
  }

  lemma AfterAwaitSeg(c: Config, n: nat, l: Local, r: nat, s: nat, local: seq<CommitRow>)
    requires c.Valid() && l.pc == AwaitSeg(r, s) && SetSize(l, r) == SizeOf(c, r)
    ensures var l' := Gained(c, l, r, 0, s);
      AfterRead(c, n, l, ValueOf(c, NextOp(c, n, l).id), local)
        == if MoreAfter(c, l, s) then l'.(pc := AwaitSeg(r, s + 1)) else FinishRound(c, n, l', r, local)
  {
    hide ValueOf, MembersOf, MoreAfter, SizeOf, SetSize, FinishRound;
  }

  lemma AtBase(c: Config, n: nat, l: Local, r: nat)
    requires c.Valid() && LocalOk(c, n, l)
    ensures l.pc == Base(r) ==> 1 <= r <= c.Last() && IsOdd(r) && BeforeScan(c, l, r)
    ensures forall s :: l.pc == BaseSeg(r, s) ==>
      1 <= r <= c.Last() && IsOdd(r) && BeforeScan(c, l, r) && Reading(c, l, r - 1, 0, s, {})
  {
    hide BeforeScan, IsOdd, Reading, RightRows;
  }

  lemma IsAtBaseSeg(c: Config, n: nat, l: Local, r: nat, s: nat)
    requires c.Valid() && l.pc == BaseSeg(r, s)
    requires 1 <= r <= c.Last() && IsOdd(r) && BeforeScan(c, l, r) && Reading(c, l, r - 1, 0, s, {})
    ensures LocalOk(c, n, l)
  {
    hide BeforeScan, IsOdd, Reading;
  }

  lemma BaseIsRight(c: Config, n: nat, l: Local, r: nat)
    requires c.Valid() && n < c.nodes && LocalOk(c, n, l) && l.pc == Base(r)
    ensures LocalOk(c, n, AfterRead(c, n, l, ValueOf(c, NextOp(c, n, l).id), RowsAt(c, n)))
  {
    hide LocalOk, Compute, RightRows, RightSet, RowsAt, Reading, BeforeScan, AfterScan, Merged, AfterRead, ValueOf,
      NextOp, IsOdd, Config.Last;
    AtBase(c, n, l, r);
    var rows := |RightRows(c, r - 1, 0)|;
    AfterBase(c, n, l, r, RowsAt(c, n));
    RightSetOfHub(c, r - 1);
    ReadingStarts(c, l.(cur := {}), r - 1, 0);
    if rows > 0 {
      var l' := l.(cur := {}, rows := rows, pc := BaseSeg(r, 0));
      ReadingAnywhere(c, l.(cur := {}, rows := rows), r - 1, 0, 0, {}, BaseSeg(r, 0));
      SameSets(c, l, l', r, n);
      IsAtBaseSeg(c, n, l', r, 0);
    } else {
      ScanIsRight(c, n, l, r, {});
    }
  }

  lemma BaseSegIsRight(c: Config, n: nat, l: Local, r: nat, s: nat)
    requires c.Valid() && n < c.nodes && LocalOk(c, n, l) && l.pc == BaseSeg(r, s)
    ensures LocalOk(c, n, AfterRead(c, n, l, ValueOf(c, NextOp(c, n, l).id), RowsAt(c, n)))
  {
    hide LocalOk, Compute, RightSet, RowsAt, Reading, BeforeScan, AfterScan, Merged, AfterRead, ValueOf, NextOp,
      MoreAfter, MembersOf, IsOdd, SizeOf, Config.Last;
    AtBase(c, n, l, r);
    SizesInRound(c, n, l, r);
    var l' := Gained(c, l, r - 1, 0, s);
    AfterBaseSeg(c, n, l, r, s, RowsAt(c, n));
    ReadsOn(c, l, r - 1, 0, s, {}, SizeOf(c, r - 1));
    RightSetOfHub(c, r - 1);
    if MoreAfter(c, l, s) {
      var next := l'.(pc := BaseSeg(r, s + 1));
      SameSets(c, l, next, r, n);
      ReadingAnywhere(c, l', r - 1, 0, s + 1, {}, BaseSeg(r, s + 1));
      IsAtBaseSeg(c, n, next, r, s + 1);
    } else {
      assert {} + Merged(c, r - 1) == Merged(c, r - 1);
      SameSets(c, l, l', r, n);
      ScanIsRight(c, n, l', r, l'.cur);
    }
  }

  lemma AtCollect(c: Config, n: nat, l: Local, r: nat, i: nat)
    requires c.Valid() && LocalOk(c, n, l) && l.pc == Collect(r, i)
    ensures n == 0 && 1 <= r <= c.Last() && 1 <= i < c.nodes && AfterScan(c, 0, l, r) && l.cur == FindsBelow(c, r, i)
  {
    hide AfterScan, FindsBelow;
  }

  lemma IsAtCollectSeg(c: Config, l: Local, r: nat, i: nat, s: nat)
    requires c.Valid() && l.pc == CollectSeg(r, i, s)
    requires 1 <= r <= c.Last() && 1 <= i < c.nodes && AfterScan(c, 0, l, r)
    requires Reading(c, l, r, i, s, FindsBelow(c, r, i))
    ensures LocalOk(c, 0, l)
  {
    hide AfterScan, FindsBelow, Reading;
  }

  lemma CollectIsRight(c: Config, n: nat, l: Local, r: nat, i: nat)
    requires c.Valid() && n < c.nodes && LocalOk(c, n, l) && l.pc == Collect(r, i)
    ensures LocalOk(c, n, AfterRead(c, n, l, ValueOf(c, NextOp(c, n, l).id), RowsAt(c, n)))
  {
    hide LocalOk, RightRows, RightSet, RowsAt, Reading, AfterScan, FindsBelow, Finds, AfterRead, ValueOf, NextOp,
      NextCollect, IsOdd, Config.Last;
    AtCollect(c, n, l, r, i);
    var rows := |RightRows(c, r, i)|;
    AfterCollect(c, n, l, r, i, RowsAt(c, n));
    ReadingStarts(c, l, r, i);
    if rows > 0 {
      var l' := l.(rows := rows, pc := CollectSeg(r, i, 0));
      ReadingAnywhere(c, l.(rows := rows), r, i, 0, l.cur, CollectSeg(r, i, 0));
      SameSets(c, l, l', r, n);
      IsAtCollectSeg(c, l', r, i, 0);
    } else {
      OwnFindings(c, r, i);
      CollectedIsRight(c, l, r, i);
      assert l.(cur := l.cur + Finds(c, r, i)) == l;
    }
  }

  lemma CollectSegIsRight(c: Config, n: nat, l: Local, r: nat, i: nat, s: nat)
    requires c.Valid() && n < c.nodes && LocalOk(c, n, l) && l.pc == CollectSeg(r, i, s)
    ensures LocalOk(c, n, AfterRead(c, n, l, ValueOf(c, NextOp(c, n, l).id), RowsAt(c, n)))
  {
    var l' := Gained(c, l, r, i, s);
    SizesInRound(c, n, l, r);
    AfterCollectSeg(c, n, l, r, i, s, RowsAt(c, n));
    var l0 := l.(cur := FindsBelow(c, r, i));
    ReadsOn(c, l, r, i, s, FindsBelow(c, r, i), SizeOf(c, r));
    OwnFindings(c, r, i);
    SameSets(c, l, l0, r, n);
    SameSets(c, l, l'.(pc := CollectSeg(r, i, s + 1)), r, n);
    ReadingAnywhere(c, l', r, i, s + 1, FindsBelow(c, r, i), CollectSeg(r, i, s + 1));
    hide RightSet, RowsAt, Reading, AfterScan, FindsBelow, Finds, AfterRead, ValueOf, NextOp, MoreAfter, MembersOf,
      NextCollect;
    if !MoreAfter(c, l, s) {
      CollectedIsRight(c, l0, r, i);
      assert l' == l0.(cur := l0.cur + Finds(c, r, i));
    }
  }

  lemma AtAwait(c: Config, n: nat, l: Local, r: nat)
    requires c.Valid() && n < c.nodes && LocalOk(c, n, l) && l.pc == Await(r)
    ensures n != 0 && 1 <= r <= c.Last() && AfterScan(c, n, l, r) && l.cur == Finds(c, r, n)
  {
    hide AfterScan, Finds, RightRows;
  }

  lemma IsAtAwaitSeg(c: Config, n: nat, l: Local, r: nat, s: nat)
    requires c.Valid() && l.pc == AwaitSeg(r, s)
    requires n != 0 && 1 <= r <= c.Last() && AfterScan(c, n, l, r) && Reading(c, l, r, 0, s, Finds(c, r, n))
    ensures LocalOk(c, n, l)
  {
    hide AfterScan, Finds, Reading;
  }

  lemma AwaitIsRight(c: Config, n: nat, l: Local, r: nat)
    requires c.Valid() && n < c.nodes && LocalOk(c, n, l) && l.pc == Await(r)
    ensures LocalOk(c, n, AfterRead(c, n, l, ValueOf(c, NextOp(c, n, l).id), RowsAt(c, n)))
  {
    hide LocalOk, RightRows, RightSet, RowsAt, Reading, AfterScan, Finds, AfterRead, ValueOf, NextOp, FinishRound,
      Merged, IsOdd, Config.Last;
    AtAwait(c, n, l, r);
    var rows := |RightRows(c, r, 0)|;
    AfterAwait(c, n, l, r, RowsAt(c, n));
    RightSetOfHub(c, r);
    ReadingStarts(c, l, r, 0);
    if rows > 0 {
      var l' := l.(rows := rows, pc := AwaitSeg(r, 0));
      ReadingAnywhere(c, l.(rows := rows), r, 0, 0, l.cur, AwaitSeg(r, 0));
      SameSets(c, l, l', r, n);
      IsAtAwaitSeg(c, n, l', r, 0);
    } else {
      FindsAreMerged(c, r, n);
      assert Finds(c, r, n) == {} == Merged(c, r);
      FinishIsRight(c, n, l, r);
    }
  }

  lemma AwaitSegIsRight(c: Config, n: nat, l: Local, r: nat, s: nat)
    requires c.Valid() && n < c.nodes && LocalOk(c, n, l) && l.pc == AwaitSeg(r, s)
    ensures LocalOk(c, n, AfterRead(c, n, l, ValueOf(c, NextOp(c, n, l).id), RowsAt(c, n)))
  {
    var l' := Gained(c, l, r, 0, s);
    SizesInRound(c, n, l, r);
    AfterAwaitSeg(c, n, l, r, s, RowsAt(c, n));
    ReadsOn(c, l, r, 0, s, Finds(c, r, n), SizeOf(c, r));
    RightSetOfHub(c, r);
    FindsAreMerged(c, r, n);
    SameSets(c, l, l', r, n);
    SameSets(c, l, l'.(pc := AwaitSeg(r, s + 1)), r, n);
    ReadingAnywhere(c, l', r, 0, s + 1, Finds(c, r, n), AwaitSeg(r, s + 1));
    hide RightSet, RowsAt, Reading, AfterScan, Finds, AfterRead, ValueOf, NextOp, MoreAfter, MembersOf, FinishRound,
      Merged;
    assert Finds(c, r, n) + Merged(c, r) == Merged(c, r);
    if !MoreAfter(c, l, s) { FinishIsRight(c, n, l', r); }
  }

  // If a read returns the right value, the program goes on rightly.
  lemma ReadIsRight(c: Config, n: nat, l: Local)
    requires c.Valid() && n < c.nodes && LocalOk(c, n, l) && NextOp(c, n, l).DoRead?
    ensures LocalOk(c, n, AfterRead(c, n, l, ValueOf(c, NextOp(c, n, l).id), RowsAt(c, n)))
  {
    match l.pc
    case InWait(f) =>
      if f == 2 {
        FirstRoundIsNext(c, l);
        StartIsRight(c, n, l, 1);
      }
      hide StartRound, RowsAt;
    case Base(r) => BaseIsRight(c, n, l, r);
    case BaseSeg(r, s) => BaseSegIsRight(c, n, l, r, s);
    case Collect(r, i) => CollectIsRight(c, n, l, r, i);
    case CollectSeg(r, i, s) => CollectSegIsRight(c, n, l, r, i, s);
    case Await(r) => AwaitIsRight(c, n, l, r);
    case AwaitSeg(r, s) => AwaitSegIsRight(c, n, l, r, s);
  }

  // Adding node i's findings leaves the right union.
  lemma CollectedIsRight(c: Config, l: Local, r: nat, i: nat)
    requires c.Valid() && 1 <= r <= c.Last() && 1 <= i < c.nodes
    requires AfterScan(c, 0, l, r) && l.cur == FindsBelow(c, r, i)
    ensures var l' := l.(cur := l.cur + Finds(c, r, i)); LocalOk(c, 0, NextCollect(c, l', r, i + 1))
  {
    hide Finds, Merged, FindsBelow, NaiveP, NaiveU, BeforeScan, Config.CommitGraph;
    FindsBelowNext(c, r, i);
    UnionOfFindings(c, r);
    SegmentsExist(c, r, 0);
  }

  lemma FindsBelowNext(c: Config, r: nat, i: nat)
    requires c.nodes > 0 && c.cap > 0 && r >= 1
    ensures FindsBelow(c, r, i + 1) == FindsBelow(c, r, i) + Finds(c, r, i)
  {
    hide Finds;
  }
}
