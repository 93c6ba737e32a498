// When, exactly, a get of the Linus application can fail its assertion: if
// there is a third node and a merged set takes more than one segment.

module LinusFailures {
  import opened Segments
  import opened Protocol
  import opened StepEffects
  import opened TagSets
  import opened LinusModel
  import opened LinusLocal
  import opened LinusSystem
  import opened LinusTheorems
  import opened LinusSafety
  import opened LinusStandstill
  import opened LinusHeldBack
  import opened LinusLargeSets
  import opened LinusSteps

  // ------------------------------------------------------- node 0 publishes the set

  // Node 0 moves on, and node n notices nothing but new keys at node 0.
  ghost predicate Unaware(c: Config, s0: Sys, s: Sys, n: nat) {
    && s.net.nodes == s0.net.nodes && s.LocalOf(c, n) == s0.LocalOf(c, n)
    && s.net.AppOf(n) == s0.net.AppOf(n) && s.net.Replies(n, 0) == s0.net.Replies(n, 0)
    && s.net.Link(n, 0) == s0.net.Link(n, 0) && s.net.Link(0, n) == s0.net.Link(0, n)
    && s.net.Link(n, 1) == s0.net.Link(n, 1) && s.net.Store(1) == s0.net.Store(1)
    && s0.net.Store(0).Keys <= s.net.Store(0).Keys
  }

  // Node 0 is at a put, and nothing is on its link to n.
  ghost predicate AtPut(c: Config, e: Execution, n: nat)
    requires c.Valid()
  {
    && IsExecution(c, e) && e.states != [] && 1 < n < c.nodes == Last(e).net.nodes
    && Last(e).net.AppOf(0).Running? && OpOf(c, Last(e), 0).DoPut? && Last(e).net.Link(0, n) == []
  }

  // One put of node 0; it is still on the link if its home is n.
  lemma HubPuts(c: Config, e: Execution, n: nat) returns (e': Execution)
    requires c.Valid() && AtPut(c, e, n)
    ensures IsExecution(c, e') && e'.states != [] && Last(e').net.AppOf(0).Running?
    ensures var op, s, s' := OpOf(c, Last(e), 0), Last(e), Last(e');
      if HomeOf(c, op.id) == n then
        s'.net.Link(0, n) == [Put(KeyOf(c, op.id), op.val)] && Unaware(c, s, s'.(net := s'.net.Pop(0, n)), n)
      else Unaware(c, s, s', n)
    ensures var id := OpOf(c, Last(e), 0).id; HomeOf(c, id) == 0 ==> id in Last(e').net.Store(0)
    ensures GoesOn(c, 0, Last(e).LocalOf(c, 0), PlaceOf(c, Last(e'), 0))
  {
    hide IsExecution, NextOp, Do, GoesOn, HomeOf, NodeRight, AllRight, Apply;
    PutMoves(c, e);
    var op := OpOf(c, Last(e), 0);
    HomesAreNodes(c, op.id);
    PutEffect(Last(e).net, 0, KeyOf(c, op.id), op.val);
    e' := StepsOn(c, e, Act(0));
  }

  lemma PutMoves(c: Config, e: Execution)
    requires c.Valid() && IsExecution(c, e) && e.states != [] && Last(e).net.nodes == c.nodes
    requires Last(e).net.AppOf(0).Running? && OpOf(c, Last(e), 0).DoPut?
    ensures CanDo(c, Last(e), Act(0)) && GoesOn(c, 0, Last(e).LocalOf(c, 0), LocalAfter(c, Last(e), 0).pc)
  {
    hide IsExecution, NextOp, Do, GoesOn, HomeOf, AllRight, Apply, LocalOk, HasSegments, LocalAfter;
    var s := Last(e);
    assert c.nodes > 0;
    InvariantHolds(c, e, |e.states| - 1);
    RightNow(c, e, 0);
    HomesAreNodes(c, OpOf(c, s, 0).id);
    assert CanDo(c, s, Act(0));
    ProgramMoves(c, s, 0);
  }

  lemma RightNow(c: Config, e: Execution, n: nat)
    requires c.Valid() && e.states != [] && AllRight(c, e, |e.states| - 1) && n < c.nodes
    ensures LocalOk(c, n, Last(e).LocalOf(c, n))
  {
    assert NodeRight(c, Last(e), n);
    hide LocalOk;
  }

  // One put of node 0 that is handled at once if its home is n.
  lemma HubSends(c: Config, e: Execution, n: nat) returns (e': Execution)
    requires c.Valid() && AtPut(c, e, n)
    ensures IsExecution(c, e') && e'.states != [] && Last(e').net.AppOf(0).Running?
    ensures Unaware(c, Last(e), Last(e'), n)
    ensures var id := OpOf(c, Last(e), 0).id; HomeOf(c, id) == 0 ==> id in Last(e').net.Store(0)
    ensures GoesOn(c, 0, Last(e).LocalOf(c, 0), PlaceOf(c, Last(e'), 0))
  {
    hide IsExecution, NextOp, Do, GoesOn, HomeOf;
    e' := HubPuts(c, e, n);
    if HomeOf(c, OpOf(c, Last(e), 0).id) == n {
      StoreEffect(Last(e').net, 0, n);
      e' := StepsOn(c, e', Deliver(0, n));
    }
  }

  // Node 0 puts the segments from s on, and then the frame.
  lemma HubPublishes(c: Config, e0: Execution, r: nat, s: nat, n: nat) returns (e: Execution)
    requires c.Valid() && IsExecution(c, e0) && e0.states != [] && 1 < n < c.nodes == Last(e0).net.nodes
    requires Last(e0).net.AppOf(0).Running? && Last(e0).net.Link(0, n) == []
    requires PlaceOf(c, Last(e0), 0) == SendSeg(r, s)
    ensures IsExecution(c, e) && e.states != [] && Unaware(c, Last(e0), Last(e), n)
    ensures DeltaFrame(r, 0) in Last(e).net.Store(0)
    decreases DeltaSegments(c, r, 0) - s
  {
    InvariantHolds(c, e0, |e0.states| - 1);
    hide IsExecution, DeltaSegments, Segment, OutRows, AllRight, HomeOf;
    SegmentIsPut(c, Last(e0).LocalOf(c, 0), r, s);
    var e1 := HubSends(c, e0, n);
    if s + 1 < DeltaSegments(c, r, 0) {
      e := HubPublishes(c, e1, r, s + 1, n);
    } else {
      FrameIsPut(c, Last(e1).LocalOf(c, 0), r);
      e := HubSends(c, e1, n);
    }
  }

  lemma SegmentIsPut(c: Config, l: Local, r: nat, s: nat)
    requires c.Valid() && l.pc == SendSeg(r, s)
    ensures NextOp(c, 0, l).DoPut?
  {
    hide OutRows, Segment;
  }

  lemma FrameIsPut(c: Config, l: Local, r: nat)
    requires c.Valid() && l.pc == SendFrame(r)
    ensures NextOp(c, 0, l).DoPut? && NextOp(c, 0, l).id == DeltaFrame(r, 0) && HomeOf(c, DeltaFrame(r, 0)) == 0
  {
    hide OutRows;
  }

  // ------------------------------------------------------------- node n reads it

  // Node n is about to ask for a set whose frame and first segment are there.
  ghost predicate CanTake(c: Config, e: Execution, r: nat, n: nat)
    requires c.Valid()
  {
    && IsExecution(c, e) && e.states != [] && 1 < n < c.nodes == Last(e).net.nodes
    && PlaceOf(c, Last(e), n) == Await(r) && Last(e).net.AppOf(n).Running?
    && Last(e).net.Link(n, 0) == [] && Last(e).net.Link(0, n) == [] && Last(e).net.Replies(n, 0) == []
    && Last(e).net.Link(n, 1) == []
    && DeltaFrame(r, 0) in Last(e).net.Store(0) && DeltaSeg(r, 0, 0) in Last(e).net.Store(0)
  }

  // Node n gets the frame and its first segment, and asks node 1 for the second.
  lemma NodeTakes(c: Config, e0: Execution, r: nat, n: nat) returns (e: Execution)
    requires c.Valid() && CanTake(c, e0, r, n) && DeltaSegments(c, r, 0) > 1
    ensures IsExecution(c, e) && e.states != [] && Last(e).net.Store(1) == Last(e0).net.Store(1)
    ensures Last(e).net.Link(n, 1) == [Get(KeyOf(c, DeltaSeg(r, 0, 1)))]
  {
    hide IsExecution, RightRows, AfterRead, Segment, OutRows, MembersOf;
    OnNodeOne(c.nodes);
    var e1, rows := GetsFromHub(c, e0, n);
    AfterAwait(c, n, Last(e0).LocalOf(c, n), r, rows);
    assert PlaceOf(c, Last(e1), n) == AwaitSeg(r, 0);
    var e2;
    e2, rows := GetsFromHub(c, e1, n);
    SecondComesNext(c, n, Last(e1).LocalOf(c, n), r, rows);
    e := Asks(c, e2, n);
  }

  lemma SecondComesNext(c: Config, n: nat, l: Local, r: nat, rows: seq<CommitRow>)
    requires c.Valid() && l.pc == AwaitSeg(r, 0) && l.rows == |RightRows(c, r, 0)| && DeltaSegments(c, r, 0) > 1
    ensures AfterRead(c, n, l, ValueOf(c, NextOp(c, n, l).id), rows).pc == AwaitSeg(r, 1)
  {
    hide RightRows, MembersOf, Segment;
    assert MoreAfter(c, l, 0);
  }

  // ------------------------------------------------------------------- exactly

  // The first merged set that needs a second segment makes some run fail.
  lemma FailingRun(c: Config, r: nat) returns (e: Execution)
    requires c.Valid() && FirstLargeRound(c, r) && c.nodes > 2
    ensures IsExecution(c, e) && e.states != [] && !NoAssertionFails(c, Last(e))
  {
    hide IsExecution, HeldBack, FirstLargeRound, DeltaSegments, NoAssertionFails, Open, CanTake;
    var e0 := StandOpen(c, r);
    if HeldBack(c, e0, r) {
      AllStandOpen(c, e0, r);
      FirstIsStored(c, e0, r);
      SecondIsNotStored(c, e0, r);
      e := FailsFromOpen(c, e0, r);
    } else {
      e := e0;
    }
  }

  lemma FailsFromOpen(c: Config, e0: Execution, r: nat) returns (e: Execution)
    requires c.Valid() && FirstLargeRound(c, r) && c.nodes > 2 && IsExecution(c, e0) && e0.states != []
    requires Open(c, Last(e0), r) && DeltaSeg(r, 0, 0) in Last(e0).net.Store(0)
    requires DeltaSeg(r, 0, 1) !in Last(e0).net.Store(1)
    ensures IsExecution(c, e) && e.states != [] && !NoAssertionFails(c, Last(e))
  {
    hide IsExecution, DeltaSegments, SmallBefore;
    var e1 := HubPublishes(c, e0, r, 1, 2);
    assert PlaceOf(c, Last(e0), 2) == Await(r);
    assert PlaceOf(c, Last(e1), 2) == Await(r);
    assert CanTake(c, e1, r, 2);
    e := NodeTakes(c, e1, r, 2);
    assert GetFails(Last(e).net, 2, 1);
  }

  // No run fails an assertion.
  ghost predicate NeverFails(c: Config)
    requires c.Valid()
  {
    forall e: Execution, t: nat | IsExecution(c, e) && t < |e.states| :: NoAssertionFails(c, e.states[t])
  }

  lemma {:induction false} FindFirstLarge(c: Config, r: nat) returns (q: nat)
    requires c.Valid() && 1 <= r <= c.Last() && DeltaSegments(c, r, 0) != 1
    ensures FirstLargeRound(c, q)
  {
    hide DeltaSegments;
    if SmallBefore(c, r) {
      q := r;
      SegmentsExist(c, r, 0);
    } else {
      var p: nat :| 1 <= p < r && DeltaSegments(c, p, 0) != 1;
      q := FindFirstLarge(c, p);
    }
  }

  // For every configuration and all commits: no run fails an assertion exactly
  // when there are at most two nodes or each merged set takes one segment.
  lemma GetsNeverFailExactly(c: Config)
    requires c.Valid()
    ensures NeverFails(c) <==> c.nodes <= 2 || MergedSmall(c)
  {
    hide NoAssertionFails, IsExecution, Config.Valid, DeltaSegments, FirstLargeRound;
    if GetsAreSafe(c) {
      forall e: Execution, t: nat | IsExecution(c, e) && t < |e.states| ensures NoAssertionFails(c, e.states[t]) {
        NothingFails(c, e, t);
      }
    } else {
      var r: nat :| 1 <= r <= c.Last() && DeltaSegments(c, r, 0) != 1;
      r := FindFirstLarge(c, r);
      var e := FailingRun(c, r);
      assert !NoAssertionFails(c, e.states[|e.states| - 1]);
    }
  }

  // Whatever the commits are, no run fails an assertion.
  ghost predicate NeverFailsForAny(c: Config) {
    forall commits: seq<CommitRow> | c.(commits := commits).Valid() :: NeverFails(c.(commits := commits))
  }

  lemma FailsForSome(c0: Config)
    requires c0.Valid() && c0.degrees > 0 && c0.nodes > 2 && !SetsFit(c0)
    ensures !NeverFailsForAny(c0)
  {
    var r := if c0.np > c0.cap then 1 else 2;
    var c := SpreadIsValid(c0, r);
    hide OnlyFor, Spread, NeverFails, DeltaSegments, Config.Valid;
    SpreadMerged(c, r);
    GetsNeverFailExactly(c);
    assert !MergedSmall(c);
    assert c == c0.(commits := c.commits);
  }

  // No run over any commits fails an assertion exactly when there is no stage,
  // or there are at most two nodes, or the sets fit one segment each.
  lemma GetsNeverFailForAnyCommits(c: Config)
    requires c.Valid()
    ensures NeverFailsForAny(c) <==> c.degrees == 0 || c.nodes <= 2 || SetsFit(c)
  {
    hide NeverFails, Config.Valid, DeltaSegments;
    if c.degrees == 0 || c.nodes <= 2 || SetsFit(c) {
      forall commits: seq<CommitRow> | c.(commits := commits).Valid() ensures NeverFails(c.(commits := commits)) {
        var c' := c.(commits := commits);
        if SetsFit(c') { SetsThatFitMerge(c'); }
        GetsNeverFailExactly(c');
      }
    } else {
      FailsForSome(c);
    }
  }
}
