// Runs of the Linus application in which node 0 is held back before it puts the
// second segment of a merged set, and all other nodes before they ask for that
// set, until nothing else can move: unless an assertion fails, all nodes get
// there and nothing is on any link.

module LinusHeldBack {
  import opened Segments
  import opened Protocol
  import opened Runs
  import opened LinusModel
  import opened LinusSystem
  import opened LinusTheorems
  import opened LinusSafety
  import opened LinusProgress
  import opened LinusStandstill

  // The merged sets of earlier rounds take one segment each.
  ghost predicate SmallBefore(c: Config, r: nat)
    requires c.Valid()
  {
    forall q: nat | 1 <= q < r :: DeltaSegments(c, q, 0) == 1
  }

  // The first round whose merged set needs a second segment.
  ghost predicate FirstLargeRound(c: Config, r: nat)
    requires c.Valid()
  {
    1 <= r <= c.Last() && SmallBefore(c, r) && DeltaSegments(c, r, 0) > 1
  }

  function HoldAt(r: nat): Hold {
    Hold(Stop(DeltaSeg(r, 0, 1), false), r)
  }

  // Nothing can move but what is held back, and no assertion fails.
  ghost predicate HeldBack(c: Config, e: Execution, r: nat)
    requires c.Valid()
  {
    && FirstLargeRound(c, r) && Pauses(c, e, HoldAt(r)) && OnlyHeld(c, Last(e), HoldAt(r))
    && AllRight(c, e, |e.steps|) && NoAssertionFails(c, Last(e))
  }

  lemma HeldBackMeans(c: Config, e: Execution, r: nat)
    requires c.Valid() && HeldBack(c, e, r)
    ensures IsExecution(c, e) && |e.states| == |e.steps| + 1 && AllRight(c, e, |e.steps|) && c.nodes > 0
    ensures NoAssertionFails(c, Last(e)) && OnlyHeld(c, Last(e), HoldAt(r)) && Pauses(c, e, HoldAt(r))
    ensures FirstLargeRound(c, r)
  {
    hide NoAssertionFails, OnlyHeld, AllRight, FirstLargeRound;
  }

  // ------------------------------------------------------------------ no question

  // A node that is held back has not asked.
  lemma {:induction false} HeldHasNotAsked(c: Config, e: Execution, t: nat, n: nat, hold: Hold)
    requires c.Valid() && Pauses(c, e, hold) && AllRight(c, e, |e.steps|) && t < |e.states| && 0 < n < c.nodes
    requires PlaceOf(c, e.states[t], n) == Await(hold.round)
    ensures e.states[t].net.AppOf(n).Running?
  {
    hide NodeRight, CanDo, Do, NextOp, InitialSys;
    if t == 0 {
      NobodyAsksAtFirst(c, e.states[0], n);
    } else {
      var s, st := e.states[t - 1], e.steps[t - 1];
      assert NodeRight(c, s, n) && CanDo(c, s, st) && !Held(c, s, st, hold) && e.states[t] == Do(c, s, st);
      hide IsExecution, AllRight, Pauses;
      StaysUnasked(c, s, st, n, hold);
      if PlaceOf(c, s, n) == Await(hold.round) { HeldHasNotAsked(c, e, t - 1, n, hold); }
    }
  }

  lemma NobodyAsksAtFirst(c: Config, s: Sys, n: nat)
    requires InitialSys(c, s)
    ensures s.net.AppOf(n).Running?
  {
  }

  lemma StaysUnasked(c: Config, s: Sys, st: SysStep, n: nat, hold: Hold)
    requires c.Valid() && CanDo(c, s, st) && !Held(c, s, st, hold) && 0 < n < c.nodes && NodeRight(c, s, n)
    requires PlaceOf(c, Do(c, s, st), n) == Await(hold.round)
    ensures Do(c, s, st).net.AppOf(n).Running?
      || (PlaceOf(c, s, n) == Await(hold.round) && Do(c, s, st).net.AppOf(n) == s.net.AppOf(n))
  {
    LocalsAfter(c, s, st, n);
    StepIsProtocolStep(c, s, st);
    hide NodeRight, CanDo, Do, Apply, LocalAfter, NextOp;
    if st == Act(n) { OwnStep(c, s, n); } else { OtherStep(c, s, st, n); }
  }

  lemma OwnStep(c: Config, s: Sys, n: nat)
    requires c.Valid() && n < c.nodes && NodeRight(c, s, n) && CanDo(c, s, Act(n))
    ensures var app := Apply(s.net, NetStep(c, s, n)).AppOf(n);
      app.Running? || LocalAfter(c, s, n) == s.LocalOf(c, n)
  {
    OwnAppAfter(c, s, n);
    hide LocalOk, HasSegments, NextOp;
  }

  lemma OtherStep(c: Config, s: Sys, st: SysStep, n: nat)
    requires c.Valid() && CanDo(c, s, st) && st != Act(n)
    ensures Apply(s.net, ToStep(c, s, st)).AppOf(n) == s.net.AppOf(n)
  {
    StepIsProtocolStep(c, s, st);
    OtherAppAfter(s.net, ToStep(c, s, st), n);
    hide NextOp;
  }

  // Whatever is on a link is headed by a wait for a frame that node 0 has not
  // put yet.
  lemma HeadIsWait(c: Config, e: Execution, r: nat, i: nat, j: nat)
    requires c.Valid() && HeldBack(c, e, r) && Last(e).net.Link(i, j) != []
    ensures j == 0 && 0 < i < c.nodes && Last(e).net.Link(i, 0)[0].IsRequest()
    ensures WaitsForFrame(c, Last(e), i) && Last(e).net.AppOf(i).Asking?
  {
    hide HeldBack, OnlyHeld, NoAssertionFails, CanDo, NextOp, AllRight, IsExecution, Pauses, FirstLargeRound, Inv,
      NodesOnly, HomeOf;
    HeldBackMeans(c, e, r);
    NetIsSound(c, e, |e.steps|);
    CannotBeHandled(c, Last(e), i, j, HoldAt(r));
    RequestIsProgrammed(c, e, |e.steps|, i, j);
    InputsAreNotRead(c, i, Last(e).LocalOf(c, i));
    FramesAreAtHub(c, OpOf(c, Last(e), i).id);
  }

  // A message that cannot be handled is a request, and not a get: it would fail.
  lemma CannotBeHandled(c: Config, s: Sys, i: nat, j: nat, hold: Hold)
    requires c.Valid() && OnlyHeld(c, s, hold) && NoAssertionFails(c, s) && NodesOnly(s.net) && s.net.Link(i, j) != []
    ensures var m := s.net.Link(i, j)[0];
      m.IsRequest() && !m.Get? && m.key.id !in s.net.Store(j)
  {
    hide NextOp, HomeOf, HasSegments;
    assert i < s.net.nodes && j < s.net.nodes && i != j;
    assert !CanDo(c, s, Deliver(i, j)) && !GetFails(s.net, i, j);
  }

  // The program of n is at a frame that node 0 does not have.
  ghost predicate WaitsForFrame(c: Config, s: Sys, n: nat)
    requires c.Valid()
  {
    var op := OpOf(c, s, n);
    op.DoRead? && (op.id.InFrame? || op.id.DeltaFrame?) && op.id !in s.net.Store(0)
  }

  predicate IsHeld(c: Config, s: Sys, n: nat, r: nat)
    requires c.Valid()
  {
    Held(c, s, Act(n), HoldAt(r))
  }

  // ----------------------------------------------------------- programs at rest

  // A program that is not held back waits for a frame, or it is node 0's and
  // its answer stands behind such a question.
  lemma RestingProgram(c: Config, e: Execution, r: nat, n: nat)
    requires c.Valid() && HeldBack(c, e, r) && n < c.nodes && PlaceOf(c, Last(e), n) != Done
    requires !IsHeld(c, Last(e), n, r)
    ensures WaitsForFrame(c, Last(e), n) || (n == 0 && HubAsksBehind(c, Last(e)))
  {
    hide HeldBack, NodeRight, NextOp, HomeOf, AllRight, IsExecution, OnlyHeld, Inv, CanDo, IsHeld, NoAssertionFails,
      Pauses, FirstLargeRound, NodesOnly, WaitsForFrame, LocalOk;
    HeldBackMeans(c, e, r);
    NetIsSound(c, e, |e.steps|);
    CannotMove(c, e, r, n);
    var s := Last(e);
    if s.net.AppOf(n).Running? {
      MovesUnlessItReads(c, s, n);
      MissingIsFrame(c, e, r, n);
    } else {
      NoReplyAtRest(c, s, n);
      QuestionIsOnLink(s.net, n);
      var h := s.net.AppOf(n).key.home;
      if s.net.Link(n, h) != [] { HeadIsWait(c, e, r, n, h); } else { HeadIsWait(c, e, r, h, n); }
    }
  }

  lemma CannotMove(c: Config, e: Execution, r: nat, n: nat)
    requires c.Valid() && HeldBack(c, e, r) && n < c.nodes && PlaceOf(c, Last(e), n) != Done
    requires !IsHeld(c, Last(e), n, r)
    ensures !CanDo(c, Last(e), Act(n)) && AsksAsProgrammed(c, Last(e), n)
    ensures OpOf(c, Last(e), n) != Halt && HomeOf(c, OpOf(c, Last(e), n).id) < c.nodes
  {
    var s := Last(e);
    assert NodeRight(c, s, n);
    hide LocalOk, HasSegments, NextOp, HomeOf, AllRight, IsExecution, NoAssertionFails, Pauses, FirstLargeRound, CanDo;
    RightOpsHaveHomes(c, n, s.LocalOf(c, n));
  }

  // Node 0 has asked a node that waits itself.
  ghost predicate HubAsksBehind(c: Config, s: Sys)
    requires c.Valid()
  {
    var app, op := s.net.AppOf(0), OpOf(c, s, 0);
    && app.Asking? && op.DoRead? && app.key == KeyOf(c, op.id) && 0 < app.key.home < c.nodes
    && WaitsForFrame(c, s, app.key.home) && s.net.AppOf(app.key.home).Asking?
  }

  lemma QuestionIsOnLink<I(!new), V(!new)>(net: Net<I, V>, n: nat)
    requires Inv(net) && n < net.nodes && net.AppOf(n).Asking? && !Enabled(net, TakeReply(n))
    ensures var h := net.AppOf(n).key.home; net.Link(n, h) != [] || net.Link(h, n) != []
  {
    assert PairInv(net, n, net.AppOf(n).key.home);
  }

  // No get of a segment finds nothing, since no assertion fails.
  lemma MissingIsFrame(c: Config, e: Execution, r: nat, n: nat)
    requires c.Valid() && HeldBack(c, e, r) && n < c.nodes
    requires var op := OpOf(c, Last(e), n);
      op.DoRead? && HomeOf(c, op.id) == n && op.id !in Last(e).net.Store(n)
    ensures WaitsForFrame(c, Last(e), n)
  {
    var l := Last(e).LocalOf(c, n);
    assert OpOf(c, Last(e), n).wait;
    InputsAreNotRead(c, n, l);
    FramesAreAtHub(c, OpOf(c, Last(e), n).id);
    hide HeldBack, NextOp, HomeOf;
    if OpOf(c, Last(e), n).id.DeltaSeg? { WaitsAreForFrames(c, n, l); }
  }

  // --------------------------------------------------------- where the nodes are

  lemma HubHasNotPut(c: Config, e: Execution, r: nat)
    requires c.Valid() && HeldBack(c, e, r)
    ensures var pc := PlaceOf(c, Last(e), 0);
      Placed(c, 0, pc) && !PutDone(pc, DeltaSeg(r, 0, 1)) && !PutDone(pc, DeltaFrame(r, 0))
  {
    hide HeldBack, DeltaSegments, OnlyHeld, NoAssertionFails, AllRight, Pauses, SmallBefore, IsExecution;
    HeldBackMeans(c, e, r);
    assert ValidId(c, DeltaSeg(r, 0, 1)) && WriterOf(DeltaSeg(r, 0, 1)) == 0;
    RightPlaces(c, e, |e.steps|, 0);
    NotWritten(c, e, HoldAt(r));
  }

  // What node 0 has put under a frame's name is there.
  lemma MissingIsNotPut(c: Config, e: Execution, r: nat, n: nat)
    requires c.Valid() && HeldBack(c, e, r) && n < c.nodes && WaitsForFrame(c, Last(e), n)
    ensures var id := OpOf(c, Last(e), n).id;
      ValidId(c, id) && ReadsFrame(c, n, id) && (WriterOf(id) == 0 ==> !PutDone(PlaceOf(c, Last(e), 0), id))
    ensures Placed(c, n, PlaceOf(c, Last(e), n))
  {
    hide HeldBack, OnlyHeld, NoAssertionFails, AllRight, IsExecution, NextOp, ValidId, PutDone, Placed, HomeOf,
      ReadsFrame, FirstLargeRound, Pauses;
    HeldBackMeans(c, e, r);
    var s, id := Last(e), OpOf(c, Last(e), n).id;
    RightPlaces(c, e, |e.steps|, n);
    FrameIsRead(c, n, s.LocalOf(c, n));
    FramesAreAtHub(c, id);
    if WriterOf(id) == 0 && PutDone(PlaceOf(c, s, 0), id) { PutHasCome(c, e, |e.steps|, id); }
  }

  // The place of a node that waits for what node 0, at the place hub, has not
  // put: an input, or a merged set of a round before r.
  predicate WaitsEarly(pc: PC, hub: PC, r: nat) {
    match pc
    case InWait(f) => f < 3 && !PutDone(hub, InFrame(f))
    case Base(x) => 1 <= x <= r && !PutDone(hub, DeltaFrame(x - 1, 0))
    case Await(x) => 1 <= x < r && !PutDone(hub, DeltaFrame(x, 0))
    case _ => false
  }

  // A node other than 0 waits for such a thing, unless it is held back.
  lemma OtherNode(c: Config, e: Execution, r: nat, n: nat)
    requires c.Valid() && HeldBack(c, e, r) && 0 < n < c.nodes
    ensures IsHeld(c, Last(e), n, r) ==> PlaceOf(c, Last(e), n) == Await(r) && Last(e).net.AppOf(n).Running?
    ensures !IsHeld(c, Last(e), n, r) ==> WaitsEarly(PlaceOf(c, Last(e), n), PlaceOf(c, Last(e), 0), r)
  {
    hide HeldBack, NextOp, IsExecution, AllRight, OnlyHeld, NoAssertionFails, Pauses, FirstLargeRound, WaitsForFrame,
      ValidId, ReadsFrame;
    HeldBackMeans(c, e, r);
    if IsHeld(c, Last(e), n, r) {
      HeldHasNotAsked(c, e, |e.steps|, n, HoldAt(r));
    } else {
      HubHasNotPut(c, e, r);
      HasNotSeen(c, e, r, n);
      RestingProgram(c, e, r, n);
      OtherWaits(c, e, r, n);
    }
  }

  lemma OtherWaits(c: Config, e: Execution, r: nat, n: nat)
    requires c.Valid() && HeldBack(c, e, r) && 0 < n < c.nodes && WaitsForFrame(c, Last(e), n)
    requires !IsHeld(c, Last(e), n, r) && !Seen(n, PlaceOf(c, Last(e), n), DeltaFrame(r, 0))
    ensures WaitsEarly(PlaceOf(c, Last(e), n), PlaceOf(c, Last(e), 0), r)
  {
    var l := Last(e).LocalOf(c, n);
    hide HeldBack, NextOp, PutDone, DeltaSegments;
    MissingIsNotPut(c, e, r, n);
    NodeWaitsAt(c, n, l);
  }

  lemma HasNotSeen(c: Config, e: Execution, r: nat, n: nat)
    requires c.Valid() && HeldBack(c, e, r) && 0 < n < c.nodes && !PutDone(PlaceOf(c, Last(e), 0), DeltaFrame(r, 0))
    ensures !Seen(n, PlaceOf(c, Last(e), n), DeltaFrame(r, 0))
  {
    hide HeldBack, OnlyHeld, NoAssertionFails, AllRight, IsExecution, PutDone, DeltaSegments, SmallBefore, Pauses, Seen;
    HeldBackMeans(c, e, r);
    if Seen(n, PlaceOf(c, Last(e), n), DeltaFrame(r, 0)) { SeenIsDone(c, e, |e.steps|, n, DeltaFrame(r, 0)); }
  }

  // Node 0 does not wait for a frame: its writer has put it, and it has come.
  lemma HubWaitsForNone(c: Config, e: Execution, r: nat)
    requires c.Valid() && HeldBack(c, e, r)
    ensures !WaitsForFrame(c, Last(e), 0)
  {
    var s := Last(e);
    if WaitsForFrame(c, s, 0) {
      assert c.nodes > 0;
      HubHasNotPut(c, e, r);
      MissingIsNotPut(c, e, r, 0);
      HubWaitsInMerge(c, s.LocalOf(c, 0));
      var q, i := PlaceOf(c, s, 0).r, PlaceOf(c, s, 0).i;
      OtherNode(c, e, r, i);
      PutIsPast(c, e, r, q, i);
      FramesAreAtHub(c, DeltaFrame(q, i));
      hide HeldBack, NextOp, PutDone;
      NoPutsLeft(c, e, r, i);
      FrameHasCome(c, e, r, DeltaFrame(q, i));
    }
  }

  lemma PutIsPast(c: Config, e: Execution, r: nat, q: nat, i: nat)
    requires c.Valid() && e.states != []
    requires PlaceOf(c, Last(e), 0) == Collect(q, i) && !PutDone(Collect(q, i), DeltaFrame(r, 0))
    requires IsHeld(c, Last(e), i, r) ==> PlaceOf(c, Last(e), i) == Await(r)
    requires !IsHeld(c, Last(e), i, r) ==> WaitsEarly(PlaceOf(c, Last(e), i), PlaceOf(c, Last(e), 0), r)
    ensures PutDone(PlaceOf(c, Last(e), i), DeltaFrame(q, i))
  {
    hide IsHeld;
  }

  lemma NoPutsLeft(c: Config, e: Execution, r: nat, i: nat)
    requires c.Valid() && HeldBack(c, e, r)
    ensures Puts(Last(e).net.Link(i, 0)) == []
  {
    hide HeldBack, Inv, IsExecution, AllRight, OnlyHeld, NoAssertionFails, Pauses, FirstLargeRound, NodesOnly,
      WaitsForFrame;
    HeldBackMeans(c, e, r);
    if Last(e).net.Link(i, 0) != [] {
      HeadIsWait(c, e, r, i, 0);
      NetIsSound(c, e, |e.steps|);
      NoPutsBehind(Last(e).net, i, 0);
    }
  }

  lemma NoPutsBehind<I(!new), V(!new)>(net: Net<I, V>, i: nat, j: nat)
    requires Inv(net) && net.Link(i, j) != [] && net.Link(i, j)[0].IsRequest()
    ensures Puts(net.Link(i, j)) == []
  {
    assert PairInv(net, i, j);
    NoPuts(net.Link(i, j));
  }

  lemma FrameHasCome(c: Config, e: Execution, r: nat, id: Id)
    requires c.Valid() && HeldBack(c, e, r) && ValidId(c, id) && WriterOf(id) < c.nodes && HomeOf(c, id) == 0
    requires PutDone(PlaceOf(c, Last(e), WriterOf(id)), id) && Puts(Last(e).net.Link(WriterOf(id), 0)) == []
    ensures id in Last(e).net.Store(0)
  {
    hide OnlyHeld, NoAssertionFails, AllRight, PutDone, ValidId, HomeOf, Puts, FirstLargeRound;
    PutHasCome(c, e, |e.steps|, id);
  }

  // Nor is its answer behind a question: a node that has asked waits for a set
  // of an earlier round, and until then node 0 reads at home.
  lemma HubAsksNobody(c: Config, e: Execution, r: nat)
    requires c.Valid() && HeldBack(c, e, r)
    ensures !HubAsksBehind(c, Last(e))
  {
    var s := Last(e);
    if HubAsksBehind(c, s) {
      var h, l := s.net.AppOf(0).key.home, s.LocalOf(c, 0);
      HubHasNotPut(c, e, r);
      OtherNode(c, e, r, h);
      InputsAreNotRead(c, 0, l);
      FramesAreAtHub(c, OpOf(c, s, 0).id);
      assert OpOf(c, s, 0).id.DeltaSeg?;
      EarlyReadsAreAtHome(c, l, s.LocalOf(c, h), r);
    }
    hide *;
  }

  lemma EarlyReadsAreAtHome(c: Config, l: Local, other: Local, r: nat)
    requires c.Valid() && FirstLargeRound(c, r) && Placed(c, 0, l.pc) && NextOp(c, 0, l).DoRead?
    requires NextOp(c, 0, l).id.DeltaSeg?
    requires WaitsEarly(other.pc, l.pc, r)
    ensures HomeOf(c, NextOp(c, 0, l).id) == 0
  {
    hide OutRows, Segment, DeltaSegments;
    match l.pc {
      case BaseSeg(q, s) => OwnSetsAreSmall(c, q - 1, 0);
      case CollectSeg(q, i, s) => OwnSetsAreSmall(c, q, i);
      case _ =>
    }
  }

  // ------------------------------------------------------------- the open stand

  // Node 0 is about to put the second segment, all others are about to ask for
  // the frame, and nothing is on the way.
  ghost predicate Open(c: Config, s: Sys, r: nat)
    requires c.Valid()
  {
    && s.net.nodes == c.nodes && PlaceOf(c, s, 0) == SendSeg(r, 1)
    && (forall n: nat | 0 < n < c.nodes :: PlaceOf(c, s, n) == Await(r))
    && (forall n: nat | n < c.nodes :: s.net.AppOf(n).Running?)
    && (forall i: nat, j: nat :: s.net.Link(i, j) == [])
    && (forall n: nat, m: nat | n < c.nodes :: s.net.Replies(n, m) == [])
  }

  lemma HubIsAtStop(c: Config, e: Execution, r: nat)
    requires c.Valid() && HeldBack(c, e, r)
    ensures PlaceOf(c, Last(e), 0) == SendSeg(r, 1) && Last(e).net.AppOf(0).Running?
  {
    var s := Last(e);
    assert c.nodes > 0 && NodeRight(c, s, 0);
    HubHasNotPut(c, e, r);
    hide HeldBack, NextOp, NodeRight;
    if !IsHeld(c, s, 0, r) {
      RestingProgram(c, e, r, 0);
      HubWaitsForNone(c, e, r);
      HubAsksNobody(c, e, r);
    }
    StoppedAtSend(c, s.LocalOf(c, 0), r);
    RunsAtPut(c, s);
  }

  lemma StoppedAtSend(c: Config, l: Local, r: nat)
    requires c.Valid() && NextOp(c, 0, l).DoPut? && NextOp(c, 0, l).id == DeltaSeg(r, 0, 1)
    ensures l.pc == SendSeg(r, 1)
  {
    hide OutRows, Segment, DeltaSegments;
  }

  lemma RunsAtPut(c: Config, s: Sys)
    requires c.Valid() && NodeRight(c, s, 0) && OpOf(c, s, 0).DoPut?
    ensures s.net.AppOf(0).Running?
  {
    hide LocalOk, HasSegments, NextOp;
  }

  lemma OthersAreHeld(c: Config, e: Execution, r: nat, n: nat)
    requires c.Valid() && HeldBack(c, e, r) && 0 < n < c.nodes
    ensures PlaceOf(c, Last(e), n) == Await(r) && Last(e).net.AppOf(n).Running?
  {
    HubIsAtStop(c, e, r);
    OtherNode(c, e, r, n);
    hide HeldBack, IsHeld;
  }

  lemma AllStandOpen(c: Config, e: Execution, r: nat)
    requires c.Valid() && HeldBack(c, e, r)
    ensures Open(c, Last(e), r)
  {
    hide HeldBack, Inv, NextOp, IsExecution, AllRight, OnlyHeld, NoAssertionFails, Pauses, FirstLargeRound, NodesOnly,
      WaitsForFrame;
    HeldBackMeans(c, e, r);
    var s := Last(e);
    NetIsSound(c, e, |e.steps|);
    HubIsAtStop(c, e, r);
    forall n: nat | 0 < n < c.nodes ensures PlaceOf(c, s, n) == Await(r) && s.net.AppOf(n).Running? {
      OthersAreHeld(c, e, r, n);
    }
    forall i: nat, j: nat ensures s.net.Link(i, j) == [] {
      if s.net.Link(i, j) != [] {
        HeadIsWait(c, e, r, i, j);
        OthersAreHeld(c, e, r, i);
      }
    }
    forall n: nat, m: nat | n < c.nodes ensures s.net.Replies(n, m) == [] { QueueIsEmpty(s.net, n, m); }
  }

  lemma QueueIsEmpty<I(!new), V(!new)>(net: Net<I, V>, n: nat, m: nat)
    requires Inv(net) && net.AppOf(n).Running?
    ensures net.Replies(n, m) == []
  {
    assert PairInv(net, n, m);
  }

  // Of the merged set the first segment is stored, and the second is not.
  lemma FirstIsStored(c: Config, e: Execution, r: nat)
    requires c.Valid() && HeldBack(c, e, r)
    ensures DeltaSeg(r, 0, 0) in Last(e).net.Store(0)
  {
    var first := DeltaSeg(r, 0, 0);
    assert ValidId(c, first) && HomeOf(c, first) == 0 && c.nodes > 0;
    assert |e.states| == |e.steps| + 1;
    HubIsAtStop(c, e, r);
    hide OnlyHeld, NoAssertionFails, AllRight, DeltaSegments, SmallBefore, IsExecution, HomeOf, ValidId;
    PutHasCome(c, e, |e.steps|, first);
  }

  lemma SecondIsNotStored(c: Config, e: Execution, r: nat)
    requires c.Valid() && HeldBack(c, e, r)
    ensures DeltaSeg(r, 0, 1) !in Last(e).net.Store(1)
  {
    var second := DeltaSeg(r, 0, 1);
    assert |e.states| == |e.steps| + 1;
    HubHasNotPut(c, e, r);
    hide OnlyHeld, NoAssertionFails, AllRight, DeltaSegments, SmallBefore, IsExecution, PutDone;
    if second in Last(e).net.Store(1) { StoredIsRight(c, e, |e.steps|, 1, second); }
  }

  lemma StandOpen(c: Config, r: nat) returns (e: Execution)
    requires c.Valid() && FirstLargeRound(c, r)
    ensures IsExecution(c, e) && e.states != [] && (HeldBack(c, e, r) || !NoAssertionFails(c, Last(e)))
  {
    e := FirstExecution(c);
    hide OnlyHeld, IsExecution, CanDo, FirstLargeRound, NoAssertionFails;
    e := RunToStop(c, e, HoldAt(r));
    InvariantHolds(c, e, |e.steps|);
  }
}
