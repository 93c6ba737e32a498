// Runs of the Linus application in which some programs are held back until
// nothing else can move. If node 0 alone is held back, before it reads a set in
// some round, all other nodes wait for the set that node 0 has still to publish
// in that round.

module LinusStandstill {
  import opened Segments
  import opened Protocol
  import opened LinusModel
  import opened LinusSystem
  import opened LinusTheorems
  import opened LinusSafety
  import opened LinusTermination
  import opened LinusProgress

  function Last(e: Execution): Sys
    requires e.states != []
  {
    e.states[|e.states| - 1]
  }

  ghost function Continue(c: Config, e: Execution, st: SysStep): Execution
    requires c.Valid() && IsExecution(c, e) && CanDo(c, Last(e), st)
  {
    Execution(e.states + [Do(c, Last(e), st)], e.steps + [st])
  }

  lemma ContinueIsExecution(c: Config, e: Execution, st: SysStep)
    requires c.Valid() && IsExecution(c, e) && CanDo(c, Last(e), st)
    ensures IsExecution(c, Continue(c, e, st)) && Last(Continue(c, e, st)) == Do(c, Last(e), st)
  {
    hide Do, CanDo, InitialSys;
    var e' := Continue(c, e, st);
    forall t | 0 <= t < |e'.steps|
      ensures CanDo(c, e'.states[t], e'.steps[t]) && e'.states[t + 1] == Do(c, e'.states[t], e'.steps[t])
    {
      if t < |e.steps| {
        assert e'.states[t] == e.states[t] && e'.steps[t] == e.steps[t] && e'.states[t + 1] == e.states[t + 1];
      }
    }
  }

  lemma FirstExecution(c: Config) returns (e: Execution)
    requires c.Valid()
    ensures IsExecution(c, e) && e.steps == []
  {
    e := Execution([Sys(Net(c.nodes, map[], map[], map[], map[]), map[])], []);
  }

  // An operation of node 0: reading the key, or putting it.
  datatype Stop = Stop(id: Id, reading: bool)

  predicate AtStop(c: Config, s: Sys, stop: Stop)
    requires c.Valid()
  {
    var op := OpOf(c, s, 0);
    op != Halt && op.id == stop.id && op.DoRead? == stop.reading
  }

  // Node 0 is held back at the stop, and every other node before it asks for the
  // merged set of the given round; there is no set to ask for in round 0.
  datatype Hold = Hold(stop: Stop, round: nat)

  predicate Held(c: Config, s: Sys, st: SysStep, hold: Hold)
    requires c.Valid()
  {
    && st.Act?
    && if st.n == 0 then AtStop(c, s, hold.stop) else PlaceOf(c, s, st.n) == Await(hold.round)
  }

  ghost predicate Pauses(c: Config, e: Execution, hold: Hold)
    requires c.Valid()
  {
    IsExecution(c, e) && forall t | 0 <= t < |e.steps| :: !Held(c, e.states[t], e.steps[t], hold)
  }

  // Nothing can move but what is held back.
  ghost predicate OnlyHeld(c: Config, s: Sys, hold: Hold)
    requires c.Valid()
  {
    forall st | CanDo(c, s, st) :: Held(c, s, st, hold)
  }

  lemma ContinuePauses(c: Config, e: Execution, st: SysStep, hold: Hold)
    requires c.Valid() && Pauses(c, e, hold) && CanDo(c, Last(e), st) && !Held(c, Last(e), st, hold)
    ensures Pauses(c, Continue(c, e, st), hold)
  {
    hide Held, Do, CanDo, InitialSys;
    assert |e.states| == |e.steps| + 1;
    ContinueIsExecution(c, e, st);
    hide IsExecution;
    var e' := Continue(c, e, st);
    forall t | 0 <= t < |e'.steps| ensures !Held(c, e'.states[t], e'.steps[t], hold) {
      if t < |e.steps| { assert e'.states[t] == e.states[t] && e'.steps[t] == e.steps[t]; }
    }
  }

  // Every run can be continued, without a held step, until nothing else moves.
  lemma RunToStop(c: Config, e: Execution, hold: Hold) returns (e': Execution)
    requires c.Valid() && Pauses(c, e, hold)
    ensures Pauses(c, e', hold) && OnlyHeld(c, Last(e'), hold)
    decreases Work(c, Last(e), c.nodes)
  {
    var s, t := Last(e), |e.steps|;
    InvariantHolds(c, e, t);
    NetIsSound(c, e, t);
    hide CanDo, Held, Work, Inv, NodeRight, IsExecution, Do;
    if OnlyHeld(c, s, hold) {
      e' := e;
    } else {
      var st :| CanDo(c, s, st) && !Held(c, s, st, hold);
      ContinuePauses(c, e, st, hold);
      LastOfContinue(c, e, st);
      WorkIsNatural(c, s, c.nodes);
      EveryStepUsesUp(c, s, st);
      e' := RunToStop(c, Continue(c, e, st), hold);
    }
  }

  lemma LastOfContinue(c: Config, e: Execution, st: SysStep)
    requires c.Valid() && IsExecution(c, e) && CanDo(c, Last(e), st)
    ensures Last(Continue(c, e, st)) == Do(c, Last(e), st)
  {
  }

  // Node 0 does not pass its stop.
  lemma NotWritten(c: Config, e: Execution, hold: Hold)
    requires c.Valid() && Pauses(c, e, hold) && AllRight(c, e, |e.steps|) && !hold.stop.reading
    requires ValidId(c, hold.stop.id) && WriterOf(hold.stop.id) == 0
    ensures !PutDone(PlaceOf(c, Last(e), 0), hold.stop.id)
  {
    hide LocalOk, NextOp, PutDone, ValidId, NodeRight;
    if PutDone(PlaceOf(c, Last(e), 0), hold.stop.id) {
      var a := WrittenBefore(c, e, |e.steps|, hold.stop.id);
    }
  }

  lemma NotSeen(c: Config, e: Execution, hold: Hold)
    requires c.Valid() && Pauses(c, e, hold) && AllRight(c, e, |e.steps|) && hold.stop.reading
    requires ReadsFrame(c, 0, hold.stop.id)
    ensures !Seen(0, PlaceOf(c, Last(e), 0), hold.stop.id)
  {
    hide LocalOk, NextOp, Seen, ReadsFrame, NodeRight;
    if Seen(0, PlaceOf(c, Last(e), 0), hold.stop.id) {
      var a := SeenBefore(c, e, |e.steps|, 0, hold.stop.id);
    }
  }

  // ------------------------------------------------------------ before the stop

  // The set that node 0 is reading takes one segment.
  predicate ReadsSmallAt(c: Config, pc: PC)
    requires c.Valid()
  {
    && (pc.CollectSeg? ==> DeltaSegments(c, pc.r, pc.i) == 1)
    && (pc.BaseSeg? ==> DeltaSegments(c, Before(pc.r), 0) == 1)
  }

  lemma SmallReadsAreAtHome(c: Config, s: Sys)
    requires c.Valid() && Placed(c, 0, PlaceOf(c, s, 0)) && ReadsSmallAt(c, PlaceOf(c, s, 0))
    ensures HubReadsAtHome(c, s)
  {
    hide DeltaSegments, OutRows, Segment;
  }

  lemma OnlyHubIsHeld(c: Config, e: Execution, stop: Stop)
    requires c.Valid() && Pauses(c, e, Hold(stop, 0)) && OnlyHeld(c, Last(e), Hold(stop, 0))
    requires AllRight(c, e, |e.steps|)
    ensures Still(c, Last(e), AtStop(c, Last(e), stop))
  {
    var s := Last(e);
    hide AtStop, CanDo, IsExecution, AllRight, NodeRight;
    forall st | CanDo(c, s, st) ensures AtStop(c, s, stop) && st == Act(0) {
      assert Held(c, s, st, Hold(stop, 0));
      ActsOnNodes(c, s, st);
      if st.n != 0 { RightPlaces(c, e, |e.steps|, st.n); }
    }
  }

  lemma ActsOnNodes(c: Config, s: Sys, st: SysStep)
    requires c.Valid() && CanDo(c, s, st) && st.Act?
    ensures st.n < c.nodes
  {
  }

  lemma RestState(c: Config, e: Execution, stop: Stop)
    requires c.Valid() && Pauses(c, e, Hold(stop, 0)) && OnlyHeld(c, Last(e), Hold(stop, 0))
    requires ReadsSmallAt(c, PlaceOf(c, Last(e), 0)) && PlaceOf(c, Last(e), 0) != Done
    ensures AtRest(c, e, |e.steps|, true) && AtStop(c, Last(e), stop)
  {
    var t := |e.steps|;
    InvariantHolds(c, e, t);
    RightPlaces(c, e, t, 0);
    hide AtStop, CanDo, IsExecution, AllRight, HubReadsAtHome, ReadsSmallAt, Still;
    OnlyHubIsHeld(c, e, stop);
    SmallReadsAreAtHome(c, Last(e));
    var held := AtStop(c, Last(e), stop);
    assert AtRest(c, e, t, held);
    HubDoesNotWait(c, e, t, held);
  }

  // ------------------------------------------------------------- all others wait

  // All others wait for the merged set of round r; nothing is on any other link.
  ghost predicate AllWaitFor(c: Config, s: Sys, r: nat)
    requires c.Valid()
  {
    && s.net.nodes == c.nodes && s.net.AppOf(0).Running?
    && (forall n: nat | 0 < n < c.nodes ::
          && PlaceOf(c, s, n) == Await(r) && Waiting(c, s, n)
          && s.net.Link(n, 0) == [WaitAndGet(KeyOf(c, DeltaFrame(r, 0)))])
    && (forall i: nat, j: nat | j != 0 || i == 0 || i >= c.nodes :: s.net.Link(i, j) == [])
    && (forall m: nat :: s.net.Replies(0, m) == [])
  }

  lemma AllOthersWait(c: Config, e: Execution, r: nat)
    requires c.Valid() && AtRest(c, e, |e.steps|, true) && 1 <= r <= c.Last()
    requires var pc := PlaceOf(c, Last(e), 0);
      (pc.SendSeg? || pc.Collect? || pc.Base?) && pc.r == r
    ensures AllWaitFor(c, Last(e), r)
  {
    var s, t := Last(e), |e.steps|;
    NetIsSound(c, e, t);
    HubIsRunning(c, e, t, true);
    hide AllRight, IsExecution, Still, HubReadsAtHome, NextOp, Waiting, Inv;
    forall n: nat | 0 < n < c.nodes
      ensures PlaceOf(c, s, n) == Await(r) && Waiting(c, s, n)
      ensures s.net.Link(n, 0) == [WaitAndGet(KeyOf(c, DeltaFrame(r, 0)))]
    {
      OthersWaitForRound(c, e, t, r, n);
    }
    forall i: nat, j: nat | j != 0 || i == 0 || i >= c.nodes ensures s.net.Link(i, j) == [] {
      if s.net.Link(i, j) != [] { HeadIsRequest(c, e, t, true, i, j); }
    }
    forall m: nat ensures s.net.Replies(0, m) == [] { NoReplies(s.net, m); }
  }

  lemma NoReplies<I(!new), V(!new)>(net: Net<I, V>, m: nat)
    requires Inv(net) && net.AppOf(0).Running?
    ensures net.Replies(0, m) == []
  {
    assert PairInv(net, 0, m);
  }

  // ------------------------------------------------ held back before it reads

  // What node 0 reads in round t: its own merged users of the round before, at
  // the place 0, and then the set of each other node i.
  function FrameAt(t: nat, i: nat): Id {
    if i == 0 then DeltaFrame(Before(t), 0) else DeltaFrame(t, i)
  }

  function SegmentAt(t: nat, i: nat, s: nat): Id {
    if i == 0 then DeltaSeg(Before(t), 0, s) else DeltaSeg(t, i, s)
  }

  function SegmentsAt(c: Config, t: nat, i: nat): nat
    requires c.Valid()
  {
    if i == 0 then DeltaSegments(c, Before(t), 0) else DeltaSegments(c, t, i)
  }

  predicate ReadsAt(c: Config, t: nat, i: nat) {
    t >= 1 && ReadsFrame(c, 0, FrameAt(t, i))
  }

  predicate Earlier(q: nat, j: nat, t: nat, i: nat) {
    q < t || (q == t && j < i)
  }

  ghost predicate SmallEarlier(c: Config, t: nat, i: nat)
    requires c.Valid()
  {
    forall q: nat, j: nat | Earlier(q, j, t, i) && ReadsAt(c, q, j) :: SegmentsAt(c, q, j) == 1
  }

  // The first set that node 0 reads and that takes more than one segment.
  lemma FirstLarge(c: Config, t: nat, i: nat) returns (t': nat, i': nat)
    requires c.Valid() && ReadsAt(c, t, i) && SegmentsAt(c, t, i) != 1
    ensures ReadsAt(c, t', i') && SegmentsAt(c, t', i') != 1 && SmallEarlier(c, t', i')
    decreases t, i
  {
    hide ReadsAt, SegmentsAt;
    if SmallEarlier(c, t, i) {
      t', i' := t, i;
    } else {
      var q: nat, j: nat :| Earlier(q, j, t, i) && ReadsAt(c, q, j) && SegmentsAt(c, q, j) != 1;
      t', i' := FirstLarge(c, q, j);
    }
  }

  // Held back before it reads the set at i in round t.
  lemma StandAtReading(c: Config, t: nat, i: nat) returns (e: Execution)
    requires c.Valid() && ReadsAt(c, t, i) && SmallEarlier(c, t, i)
    ensures IsExecution(c, e) && e.states != [] && AtRest(c, e, |e.steps|, true) && 1 <= t <= c.Last()
    ensures PlaceOf(c, Last(e), 0) == (if i == 0 then Base(t) else Collect(t, i)) && AllWaitFor(c, Last(e), t)
  {
    var id := FrameAt(t, i);
    e := FirstExecution(c);
    hide Still, IsExecution, Work, CanDo, SmallEarlier;
    var hold := Hold(Stop(id, true), 0);
    e := RunToStop(c, e, hold);
    var s, m := Last(e), |e.steps|;
    InvariantHolds(c, e, m);
    RightPlaces(c, e, m, 0);
    hide AllRight, AtRest, AllWaitFor, Seen;
    NotSeen(c, e, hold);
    SmallUntilRead(c, PlaceOf(c, s, 0), t, i);
    RestState(c, e, Stop(id, true));
    StoppedAtRead(c, s.LocalOf(c, 0), t, i);
    AllOthersWait(c, e, t);
  }

  lemma SmallUntilRead(c: Config, pc: PC, t: nat, i: nat)
    requires c.Valid() && Placed(c, 0, pc) && ReadsAt(c, t, i) && !Seen(0, pc, FrameAt(t, i)) && SmallEarlier(c, t, i)
    ensures ReadsSmallAt(c, pc) && pc != Done
  {
    hide DeltaSegments;
    if pc.CollectSeg? {
      assert Earlier(pc.r, pc.i, t, i) && ReadsAt(c, pc.r, pc.i);
      assert SegmentsAt(c, pc.r, pc.i) == 1;
    } else if pc.BaseSeg? {
      assert Earlier(pc.r, 0, t, i) && ReadsAt(c, pc.r, 0);
      assert SegmentsAt(c, pc.r, 0) == 1;
    }
  }

  lemma StoppedAtRead(c: Config, l: Local, t: nat, i: nat)
    requires c.Valid() && ReadsAt(c, t, i) && Placed(c, 0, l.pc)
    requires NextOp(c, 0, l).DoRead? && NextOp(c, 0, l).id == FrameAt(t, i)
    ensures l.pc == (if i == 0 then Base(t) else Collect(t, i)) && 1 <= t <= c.Last() && i < c.nodes
  {
    hide OutRows, Segment;
  }
}
