// When the Linus application blocks for ever: node 0 asks another node for a
// segment, and the answer stands behind that node's own question.

module LinusBlocking {
  import opened Segments
  import opened Protocol
  import opened StepEffects
  import opened TagSets
  import opened LinusModel
  import opened LinusLocal
  import opened LinusSystem
  import opened LinusTheorems
  import opened LinusSafety
  import opened LinusProgress
  import opened LinusStandstill
  import opened LinusLargeSets
  import opened LinusSteps

  // ---------------------------------------------------- blocked for ever

  // Node 0 asks node 1, whose answer stands behind its own question to node 0.
  ghost predicate Blocked(c: Config, s: Sys)
    requires c.Valid()
  {
    && s.net.nodes == c.nodes
    && (forall n: nat | n < c.nodes :: s.net.AppOf(n).Asking? && s.net.Replies(n, s.net.AppOf(n).key.home) == [])
    && (forall i: nat, j: nat | s.net.Link(i, j) != [] ::
          j == 0 && s.net.Link(i, 0)[0].IsRequest() && s.net.Link(i, 0)[0].key.id !in s.net.Store(0))
  }

  lemma BlockedIsStuck(c: Config, s: Sys)
    requires c.Valid() && Blocked(c, s)
    ensures Stuck(c, s)
  {
    forall st ensures !CanDo(c, s, st) {
      hide NextOp, HomeOf;
    }
  }

  // The set that node 0 is about to read is stored, with all its segments.
  lemma SetIsStored(c: Config, e: Execution, t: nat, i: nat, x: nat)
    requires c.Valid() && AtRest(c, e, |e.steps|, true) && e.states != [] && 1 <= t <= c.Last() && i < c.nodes
    requires PlaceOf(c, Last(e), 0) == (if i == 0 then Base(t) else Collect(t, i)) && AllWaitFor(c, Last(e), t)
    requires x < SegmentsAt(c, t, i)
    ensures SegmentAt(t, i, x) in Last(e).net.Store(NodeOf(x, c.nodes))
    ensures FrameAt(t, i) in Last(e).net.Store(0)
  {
    hide AllWaitFor, Still, HubReadsAtHome, AllRight, CanDo, Do, PutDone, ValidId, HomeOf, SegmentsAt, SegmentAt,
      FrameAt;
    assert |e.states| == |e.steps| + 1;
    hide AtRest, IsExecution;
    var seg, frame := SegmentAt(t, i, x), FrameAt(t, i);
    if i != 0 { WaitsAt(c, Last(e), t, i); }
    SetIsPut(c, PlaceOf(c, Last(e), i), t, i, x);
    DoneIsStored(c, e, |e.steps|, true, seg);
    DoneIsStored(c, e, |e.steps|, true, frame);
  }

  lemma WaitsAt(c: Config, s: Sys, t: nat, i: nat)
    requires c.Valid() && AllWaitFor(c, s, t) && 0 < i < c.nodes
    ensures PlaceOf(c, s, i) == Await(t)
  {
    hide Waiting, HomeOf;
  }

  lemma SetIsPut(c: Config, pc: PC, t: nat, i: nat, x: nat)
    requires c.Valid() && 1 <= t <= c.Last() && i < c.nodes && x < SegmentsAt(c, t, i)
    requires pc == if i == 0 then Base(t) else Await(t)
    ensures ValidId(c, SegmentAt(t, i, x)) && ValidId(c, FrameAt(t, i))
    ensures WriterOf(SegmentAt(t, i, x)) == WriterOf(FrameAt(t, i)) == i
    ensures HomeOf(c, SegmentAt(t, i, x)) == NodeOf(x, c.nodes) && HomeOf(c, FrameAt(t, i)) == 0
    ensures PutDone(pc, SegmentAt(t, i, x)) && PutDone(pc, FrameAt(t, i))
  {
    hide DeltaSegments;
  }

  lemma SegmentHome(c: Config, r: nat, w: nat, x: nat)
    requires c.Valid()
    ensures HomeOf(c, DeltaSeg(r, w, x)) == NodeOf(x, c.nodes) && NodeOf(0, c.nodes) == 0
  {
  }

  // Where node 0 reads segment s of that set.
  function ReadingAt(t: nat, i: nat, s: nat): PC {
    if i == 0 then BaseSeg(t, s) else CollectSeg(t, i, s)
  }

  function RowsAtFrame(c: Config, t: nat, i: nat): nat
    requires c.Valid()
  {
    if i == 0 then |RightRows(c, Before(t), 0)| else |RightRows(c, t, i)|
  }

  // Node 0 reads the frame and its first segment, and then asks node 1 for the
  // second: the answer stands behind node 1's own question.
  lemma BlockedRun(c: Config, t: nat, i: nat) returns (e: Execution)
    requires c.Valid() && c.nodes > 1 && ReadsAt(c, t, i) && SmallEarlier(c, t, i) && SegmentsAt(c, t, i) > 1
    ensures IsExecution(c, e) && e.states != [] && Stuck(c, Last(e)) && PlaceOf(c, Last(e), 0) != Done
  {
    hide IsExecution, SmallEarlier, SegmentsAt, AtRest, AllWaitFor, RowsAtFrame;
    var e0 := StandAtReading(c, t, i);
    ReadersAreHere(c, t, i);
    var e1 := TakesFrame(c, e0, t, i);
    var e2 := TakesSegment(c, e0, e1, t, i);
    e := AskedForMore(c, e0, e2, t, i);
    BlockedIsStuck(c, Last(e));
    hide Stuck, Blocked;
  }

  lemma ReadersAreHere(c: Config, t: nat, i: nat)
    requires c.nodes > 0 && ReadsAt(c, t, i)
    ensures i < c.nodes
  {
  }

  // Node 0 continues alone from s0.
  ghost predicate HubMoved(c: Config, s0: Sys, s: Sys, pc: PC) {
    s.net == s0.net && SameLocals(c, s0, s, 0) && PlaceOf(c, s, 0) == pc
  }

  lemma FrameIsTaken(c: Config, l: Local, t: nat, i: nat, rows: seq<CommitRow>)
    requires c.Valid() && t >= 1 && SegmentsAt(c, t, i) > 1
    requires l.pc == if i == 0 then Base(t) else Collect(t, i)
    ensures var op := NextOp(c, 0, l);
      op.DoRead? && op.id == FrameAt(t, i) && HomeOf(c, op.id) == 0
    ensures var l' := AfterRead(c, 0, l, ValueOf(c, NextOp(c, 0, l).id), rows);
      l'.pc == ReadingAt(t, i, 0) && l'.rows == RowsAtFrame(c, t, i)
  {
    hide RightRows, AfterRead, Segment;
    if i == 0 { AfterBase(c, 0, l, t, rows); } else { AfterCollect(c, 0, l, t, i, rows); }
  }

  lemma FirstIsTaken(c: Config, l: Local, t: nat, i: nat, rows: seq<CommitRow>)
    requires c.Valid() && t >= 1 && SegmentsAt(c, t, i) > 1
    requires l.pc == ReadingAt(t, i, 0) && l.rows == RowsAtFrame(c, t, i)
    ensures var op := NextOp(c, 0, l);
      op.DoRead? && op.id == SegmentAt(t, i, 0) && HomeOf(c, op.id) == 0
    ensures AfterRead(c, 0, l, ValueOf(c, NextOp(c, 0, l).id), rows).pc == ReadingAt(t, i, 1)
  {
    hide RightRows, Segment, MembersOf, SetSize;
    assert MoreAfter(c, l, 0);
  }

  lemma TakesFrame(c: Config, e: Execution, t: nat, i: nat) returns (e': Execution)
    requires c.Valid() && AtRest(c, e, |e.steps|, true) && e.states != [] && 1 <= t <= c.Last() && i < c.nodes
    requires PlaceOf(c, Last(e), 0) == (if i == 0 then Base(t) else Collect(t, i)) && AllWaitFor(c, Last(e), t)
    requires c.nodes > 1 && SegmentsAt(c, t, i) > 1
    ensures IsExecution(c, e') && e'.states != [] && HubMoved(c, Last(e), Last(e'), ReadingAt(t, i, 0))
    ensures Last(e').LocalOf(c, 0).rows == RowsAtFrame(c, t, i)
  {
    SetIsStored(c, e, t, i, 0);
    hide Still, HubReadsAtHome, AfterRead, NextOp, SegmentsAt, AllRight, IsExecution, Waiting, HomeOf, RowsAtFrame;
    FrameIsTaken(c, Last(e).LocalOf(c, 0), t, i, []);
    var rows;
    e', rows := ReadsAtHome(c, e, 0);
    FrameIsTaken(c, Last(e).LocalOf(c, 0), t, i, rows);
  }

  lemma TakesSegment(c: Config, e0: Execution, e: Execution, t: nat, i: nat) returns (e': Execution)
    requires c.Valid() && AtRest(c, e0, |e0.steps|, true) && e0.states != [] && 1 <= t <= c.Last() && i < c.nodes
    requires PlaceOf(c, Last(e0), 0) == (if i == 0 then Base(t) else Collect(t, i)) && AllWaitFor(c, Last(e0), t)
    requires c.nodes > 1 && SegmentsAt(c, t, i) > 1
    requires IsExecution(c, e) && e.states != [] && HubMoved(c, Last(e0), Last(e), ReadingAt(t, i, 0))
    requires Last(e).LocalOf(c, 0).rows == RowsAtFrame(c, t, i)
    ensures IsExecution(c, e') && e'.states != [] && HubMoved(c, Last(e0), Last(e'), ReadingAt(t, i, 1))
  {
    SetIsStored(c, e0, t, i, 0);
    SegmentHome(c, t, i, 0);
    hide Still, HubReadsAtHome, AfterRead, NextOp, SegmentsAt, AllRight, IsExecution, Waiting, HomeOf, RowsAtFrame;
    FirstIsTaken(c, Last(e).LocalOf(c, 0), t, i, []);
    var rows;
    e', rows := ReadsAtHome(c, e, 0);
    FirstIsTaken(c, Last(e).LocalOf(c, 0), t, i, rows);
  }

  lemma SecondIsAsked(c: Config, l: Local, t: nat, i: nat)
    requires c.Valid() && t >= 1 && l.pc == ReadingAt(t, i, 1) && c.nodes > 1
    ensures var op := NextOp(c, 0, l);
      op == DoRead(SegmentAt(t, i, 1), false) && HomeOf(c, op.id) == 1 && NodeOf(1, c.nodes) == 1
  {
    OnNodeOne(c.nodes);
    hide OutRows, Segment;
  }

  lemma AskedForMore(c: Config, e0: Execution, e: Execution, t: nat, i: nat) returns (e': Execution)
    requires c.Valid() && AtRest(c, e0, |e0.steps|, true) && e0.states != [] && 1 <= t <= c.Last() && i < c.nodes
    requires PlaceOf(c, Last(e0), 0) == (if i == 0 then Base(t) else Collect(t, i)) && AllWaitFor(c, Last(e0), t)
    requires c.nodes > 1 && SegmentsAt(c, t, i) > 1
    requires IsExecution(c, e) && e.states != [] && HubMoved(c, Last(e0), Last(e), ReadingAt(t, i, 1))
    ensures IsExecution(c, e') && e'.states != [] && Blocked(c, Last(e'))
    ensures PlaceOf(c, Last(e'), 0) == ReadingAt(t, i, 1)
  {
    SetIsStored(c, e0, t, i, 1);
    hide AtRest, NextOp, SegmentsAt, IsExecution, Waiting, HomeOf, NodeOf;
    SecondIsAsked(c, Last(e).LocalOf(c, 0), t, i);
    QuietAround(c, Last(e0), t);
    hide AllWaitFor;
    var e1 := Asks(c, e, 0);
    e' := NodeOneAnswers(c, e1, SegmentAt(t, i, 1));
    hide OnlyBetween, Last;
    Together(Last(e0).net, Last(e1).net, Last(e').net, 0, 1);
    IsBlocked(c, Last(e0), Last(e'), t);
  }

  lemma QuietAround(c: Config, s: Sys, t: nat)
    requires c.Valid() && AllWaitFor(c, s, t)
    ensures s.net.nodes == c.nodes && s.net.AppOf(0).Running? && s.net.Link(0, 1) == [] && s.net.Replies(0, 1) == []
  {
    hide Waiting;
  }

  // Node 1 answers node 0's question, behind what it has sent before.
  lemma NodeOneAnswers(c: Config, e: Execution, id: Id) returns (e': Execution)
    requires c.Valid() && IsExecution(c, e) && e.states != [] && c.nodes > 1 && Last(e).net.nodes == c.nodes
    requires var net := Last(e).net;
      net.Link(0, 1) == [Get(Key(id, 1))] && id in net.Store(1)
    ensures IsExecution(c, e') && e'.states != [] && forall x: nat :: Last(e').LocalOf(c, x) == Last(e).LocalOf(c, x)
    ensures var net, net' := Last(e).net, Last(e').net;
      && OnlyBetween(net, net', 0, 1) && net'.AppOf(0) == net.AppOf(0) && net'.Replies(0, 1) == net.Replies(0, 1)
      && net'.Link(0, 1) == [] && net.Link(1, 0) <= net'.Link(1, 0)
  {
    hide IsExecution, Do;
    AnswerEffect(Last(e).net, 0, 1);
    e' := StepsOn(c, e, Deliver(0, 1));
    hide Apply;
  }

  lemma IsBlocked(c: Config, s0: Sys, s: Sys, r: nat)
    requires c.Valid() && AllWaitFor(c, s0, r) && OnlyBetween(s0.net, s.net, 0, 1) && c.nodes > 1
    requires s.net.AppOf(0).Asking? && s.net.AppOf(0).key.home == 1 && s.net.Replies(0, 1) == []
    requires s.net.Link(0, 1) == [] && s0.net.Link(1, 0) <= s.net.Link(1, 0)
    ensures Blocked(c, s)
  {
    hide HomeOf, OutRows, Segment;
    forall n: nat | n < c.nodes
      ensures s.net.AppOf(n).Asking? && s.net.Replies(n, s.net.AppOf(n).key.home) == []
    {
      if n != 0 { assert Waiting(c, s0, n); }
    }
    forall i: nat, j: nat | s.net.Link(i, j) != []
      ensures j == 0 && s.net.Link(i, 0)[0].IsRequest() && s.net.Link(i, 0)[0].key.id !in s.net.Store(0)
    {
      if j == 0 && 0 < i < c.nodes {
        assert Waiting(c, s0, i) && s0.net.Link(i, 0)[0] == s.net.Link(i, 0)[0];
      }
    }
  }

  // ------------------------------------------------------------------- exactly

  // No run blocks before all nodes are done.
  ghost predicate NeverBlocks(c: Config)
    requires c.Valid()
  {
    forall e: Execution, t: nat, n: nat | IsExecution(c, e) && t < |e.states| && n < c.nodes ::
      PlaceOf(c, e.states[t], n) != Done ==> !Stuck(c, e.states[t])
  }

  lemma BlocksAtLargeSet(c: Config)
    requires c.Valid() && c.nodes > 1 && !HubReadsSmall(c)
    ensures !NeverBlocks(c)
  {
    var t, i := SomeLarge(c);
    hide SmallEarlier, ReadsAt;
    t, i := FirstLarge(c, t, i);
    SegmentsAreThere(c, t, i);
    hide SegmentsAt, IsExecution;
    var e := BlockedRun(c, t, i);
    hide Stuck;
    assert PlaceOf(c, e.states[|e.states| - 1], 0) != Done && Stuck(c, e.states[|e.states| - 1]);
  }

  lemma SomeLarge(c: Config) returns (t: nat, i: nat)
    requires c.Valid() && !HubReadsSmall(c)
    ensures ReadsAt(c, t, i) && SegmentsAt(c, t, i) != 1
  {
    hide DeltaSegments;
    var r: nat, n: nat :| ReadsFrame(c, 0, DeltaFrame(r, n)) && DeltaSegments(c, r, n) != 1;
    t, i := if n == 0 then r + 1 else r, n;
  }

  lemma SegmentsAreThere(c: Config, t: nat, i: nat)
    requires c.Valid()
    ensures SegmentsAt(c, t, i) >= 1
  {
    SegmentsExist(c, Before(t), 0);
    SegmentsExist(c, t, i);
    hide DeltaSegments;
  }

  // For every configuration and all commits: no run blocks exactly when there
  // is one node or every set that node 0 reads takes one segment.
  lemma RunsFinishExactly(c: Config)
    requires c.Valid()
    ensures NeverBlocks(c) <==> c.nodes == 1 || HubReadsSmall(c)
  {
    assert c.nodes > 0;
    hide Stuck, IsExecution, Config.Valid, HubReadsSmall;
    if c.nodes == 1 || HubReadsSmall(c) {
      forall e: Execution, t: nat, n: nat | IsExecution(c, e) && t < |e.states| && n < c.nodes
        ensures PlaceOf(c, e.states[t], n) != Done ==> !Stuck(c, e.states[t])
      {
        if PlaceOf(c, e.states[t], n) != Done {
          NeverStuck(c, e, t, n);
          NotStuck(c, e.states[t]);
        }
      }
    } else {
      hide NeverBlocks;
      BlocksAtLargeSet(c);
    }
  }

  // ------------------------------------------------------- whatever the commits

  ghost predicate NeverBlocksForAny(c: Config) {
    forall commits: seq<CommitRow> | c.(commits := commits).Valid() :: NeverBlocks(c.(commits := commits))
  }

  // A node other than 0 cannot hold two segments of commits, and node 0 reads
  // back no set of users that exceeds one.
  predicate TooManyNodes(c: Config) {
    c.nodes + 2 > MAX_SEGMENTS && (c.nu <= c.cap || c.degrees == 1)
  }

  lemma HubNeverReadsLarge(c: Config)
    requires c.Valid() && (SetsFit(c) || c.degrees == 0 || TooManyNodes(c))
    ensures HubReadsSmall(c)
  {
    hide DeltaSegments;
    forall r: nat, n: nat | ReadsFrame(c, 0, DeltaFrame(r, n)) ensures DeltaSegments(c, r, n) == 1 {
      if SetsFit(c) || r == 0 {
        SmallSetsTakeOneSegment(c, r, n);
      } else if n != 0 {
        OneRowSegmentOneSetSegment(c, r, n);
      } else {
        UsersFit(c, r);
      }
    }
  }

  lemma UsersFit(c: Config, r: nat)
    requires c.Valid() && r >= 1 && !IsOdd(r) && c.nu <= c.cap
    ensures DeltaSegments(c, r, 0) == 1
  {
    AscendingIsShort(RightSet(c, r, 0), 0, c.nu);
    hide RightSet, Ascending;
    OneSegment(|RightRows(c, r, 0)|, c.cap);
  }

  // Node 1 finds more than a segment, if it can hold two segments of commits.
  lemma BlocksAtFindings(c0: Config)
    requires c0.Valid() && c0.degrees > 0 && 1 < c0.nodes && c0.nodes + 2 <= MAX_SEGMENTS && !SetsFit(c0)
    ensures !NeverBlocksForAny(c0)
  {
    var r := if c0.np > c0.cap then 1 else 2;
    var c := HeapIsValid(c0, r);
    hide OnlyFor, Heap, DeltaSegments, Config.Valid, NeverBlocks;
    HeapFound(c, r);
    assert ReadsFrame(c, 0, DeltaFrame(r, 1));
    BlocksAtLargeSet(c);
    assert c == c0.(commits := c.commits);
  }

  // Or the users that node 0 has merged and reads back do not fit.
  lemma BlocksAtUsers(c0: Config)
    requires c0.Valid() && c0.degrees > 1 && 1 < c0.nodes && c0.nu > c0.cap
    ensures !NeverBlocksForAny(c0)
  {
    var c := SpreadIsValid(c0, 2);
    hide OnlyFor, Spread, DeltaSegments, Config.Valid, NeverBlocks;
    SpreadMerged(c, 2);
    assert ReadsFrame(c, 0, DeltaFrame(2, 0));
    BlocksAtLargeSet(c);
    assert c == c0.(commits := c.commits);
  }

  // No run over any commits blocks exactly when there is one node, or no stage,
  // or the sets fit one segment each, or there are that many nodes.
  lemma RunsFinishForAnyCommits(c: Config)
    requires c.Valid()
    ensures NeverBlocksForAny(c) <==> c.nodes == 1 || c.degrees == 0 || SetsFit(c) || TooManyNodes(c)
  {
    assert c.nodes > 0;
    hide NeverBlocks, Config.Valid, HubReadsSmall;
    if c.nodes == 1 || c.degrees == 0 || SetsFit(c) || TooManyNodes(c) {
      forall commits: seq<CommitRow> | c.(commits := commits).Valid() ensures NeverBlocks(c.(commits := commits)) {
        var c' := c.(commits := commits);
        if c.nodes != 1 { HubNeverReadsLarge(c'); }
        RunsFinishExactly(c');
      }
    } else if c.nodes + 2 <= MAX_SEGMENTS {
      BlocksAtFindings(c);
    } else {
      BlocksAtUsers(c);
    }
  }
}
