// The Linus application runs to its end if there is one node, or if every set
// that node 0 reads takes one segment: then node 0 never asks anybody.

module LinusProgress {
  import opened Segments
  import opened Search
  import opened Protocol
  import opened Runs
  import opened Publishing
  import opened LinusModel
  import opened LinusSystem
  import opened LinusTheorems
  import opened LinusSafety

  // Nothing can move, except node 0's program when it is held back.
  ghost predicate Still(c: Config, s: Sys, held: bool)
    requires c.Valid()
  {
    forall st | CanDo(c, s, st) :: held && st == Act(0)
  }

  predicate HubReadsAtHome(c: Config, s: Sys)
    requires c.Valid()
  {
    var op := OpOf(c, s, 0); op.DoRead? ==> HomeOf(c, op.id) == 0
  }

  // A state of a run in which nothing moves and node 0 asks nobody.
  ghost predicate AtRest(c: Config, e: Execution, t: nat, held: bool)
    requires c.Valid()
  {
    IsExecution(c, e) && AllRight(c, e, t) && HubReadsAtHome(c, e.states[t]) && Still(c, e.states[t], held)
  }

  // What a program has seen was put, segments included.
  lemma SeenIsDone(c: Config, e: Execution, t: nat, n: nat, frame: Id)
    requires c.Valid() && IsExecution(c, e) && AllRight(c, e, t) && n < c.nodes
    requires ReadsFrame(c, n, frame) && Seen(n, PlaceOf(c, e.states[t], n), frame)
    ensures ValidId(c, frame) && WriterOf(frame) < c.nodes && PutDone(PlaceOf(c, e.states[t], WriterOf(frame)), frame)
  {
    hide LocalOk, PutDone, ValidId, NextOp, Do, HasSegments, ReadsFrame, Seen, Reads;
    var a := SeenBefore(c, e, t, n, frame);
    assert AllRight(c, e, a);
    var v := ReadGives(c, e, a, n);
    ReadValueIsRight(c, e, a, n, v);
    DoneStays(c, e, a, t, frame);
  }

  lemma ReadGives(c: Config, e: Execution, a: nat, n: nat) returns (v: Val)
    requires c.Valid() && IsExecution(c, e) && a < |e.steps| && e.steps[a] == Act(n)
    requires OpOf(c, e.states[a], n).DoRead? && !NetStep(c, e.states[a], n).Ask?
    ensures Reads(c, e.states[a], n, v)
  {
    hide NextOp, Do, HomeOf;
    var s := e.states[a];
    assert CanDo(c, s, e.steps[a]);
    if s.net.AppOf(n).Asking? {
      v := s.net.Replies(n, s.net.AppOf(n).key.home)[0];
    } else {
      v := s.net.Store(n)[OpOf(c, s, n).id];
    }
  }

  // ------------------------------------------------------------- links at rest

  lemma HubIsRunning(c: Config, e: Execution, t: nat, held: bool)
    requires c.Valid() && AtRest(c, e, t, held)
    ensures e.states[t].net.AppOf(0).Running?
  {
    hide Still, NextOp, LocalOk, HasSegments;
    assert NodeRight(c, e.states[t], 0);
  }

  // The head of a link at rest is a request that cannot be answered.
  lemma HeadIsBlocked(c: Config, e: Execution, t: nat, held: bool, i: nat, j: nat)
    requires c.Valid() && AtRest(c, e, t, held) && e.states[t].net.Link(i, j) != []
    ensures 0 < i < c.nodes && j < c.nodes && i != j && e.states[t].net.Link(i, j)[0].IsRequest()
    ensures var s, m := e.states[t], e.states[t].net.Link(i, j)[0];
      m.key.id !in s.net.Store(j) && OpOf(c, s, i).DoRead? && m.key == KeyOf(c, OpOf(c, s, i).id) && m.key.home == j
  {
    var s := e.states[t];
    NetIsSound(c, e, t);
    HubIsRunning(c, e, t, held);
    assert i < c.nodes && j < c.nodes && i != j;
    assert !CanDo(c, s, Deliver(i, j));
    assert s.net.Link(i, j)[0].IsRequest();
    hide Still, CanDo, NextOp, AllRight, IsExecution;
    RequestIsProgrammed(c, e, t, i, j);
  }

  lemma HubLinkIsEmpty(c: Config, e: Execution, t: nat, held: bool, j: nat)
    requires c.Valid() && AtRest(c, e, t, held)
    ensures e.states[t].net.Link(0, j) == []
  {
    assert t < |e.states|;
    hide AtRest;
    if e.states[t].net.Link(0, j) != [] { HeadIsBlocked(c, e, t, held, 0, j); }
  }

  // A put of w to its home h has arrived if no put is on that link.
  lemma PutHasCome(c: Config, e: Execution, t: nat, id: Id)
    requires c.Valid() && IsExecution(c, e) && AllRight(c, e, t) && ValidId(c, id) && WriterOf(id) < c.nodes
    requires PutDone(PlaceOf(c, e.states[t], WriterOf(id)), id)
    requires WriterOf(id) != HomeOf(c, id) ==> Puts(e.states[t].net.Link(WriterOf(id), HomeOf(c, id))) == []
    ensures id in e.states[t].net.Store(HomeOf(c, id))
  {
    var w, h, r := WriterOf(id), HomeOf(c, id), RunOf(c, e);
    RunOfIsRun(c, e);
    hide ValidId, PutDone, NextOp, IsRun, Puts, RunOf, LocalOk, NodeRight, HomeOf, WriterOf;
    var a := WrittenBefore(c, e, t, id);
    WrittenStepIsPut(c, e, t, a, id);
    if w == h {
      LocalPutIsStored(r, a, t);
    } else {
      RemotePutIsIssued(r, a, t);
      PutsAreFifo(r, t, w, h);
      HandledIsStored(r, t, w, h, Put(r.steps[a].key, r.steps[a].val));
    }
  }

  lemma WrittenStepIsPut(c: Config, e: Execution, t: nat, a: nat, id: Id)
    requires c.Valid() && IsExecution(c, e) && AllRight(c, e, t) && a < t && Writes(c, e, a, id)
    ensures RunOf(c, e).steps[a] == PutOp(WriterOf(id), KeyOf(c, id), ValueOf(c, id))
  {
    assert AllRight(c, e, a);
    WriteIsRight(c, e, a, id);
    hide *;
  }

  // A segment that another node reads has come to its home: node 0 wrote it.
  lemma SegmentHasCome(c: Config, e: Execution, t: nat, held: bool, n: nat)
    requires c.Valid() && AtRest(c, e, t, held) && 0 < n < c.nodes
    requires OpOf(c, e.states[t], n).DoRead? && OpOf(c, e.states[t], n).id.DeltaSeg?
    ensures var id := OpOf(c, e.states[t], n).id; id in e.states[t].net.Store(HomeOf(c, id))
  {
    var l, id := e.states[t].LocalOf(c, n), OpOf(c, e.states[t], n).id;
    hide Still, NextOp, HubReadsAtHome, Seen, ReadsFrame, HomeOf, DeltaSegments, Placed, NodeRight;
    RightPlaces(c, e, t, n);
    WaitsAreForFrames(c, n, l);
    GetsFollowTheFrame(c, n, l);
    SegmentsReadAt(c, n, l);
    SeenIsDone(c, e, t, n, DeltaFrame(id.round, id.node));
    HubLinkIsEmpty(c, e, t, held, HomeOf(c, id));
    hide AllRight, IsExecution, ValidId;
    PutHasCome(c, e, t, id);
  }

  // Only node 0 reads what other nodes have published.
  lemma SegmentsReadAt(c: Config, n: nat, l: Local)
    requires c.Valid() && Placed(c, n, l.pc) && NextOp(c, n, l).DoRead? && NextOp(c, n, l).id.DeltaSeg?
    ensures var id := NextOp(c, n, l).id;
      id.node != 0 ==> n == 0 && l.pc == CollectSeg(id.round, id.node, id.s)
  {
    hide OutRows, Segment, DeltaSegments;
  }

  lemma FramesAreAtHub(c: Config, id: Id)
    requires c.Valid()
    ensures id.InFrame? || id.DeltaFrame? ==> HomeOf(c, id) == 0
  {
  }

  // So whatever is on a link at rest is a request to node 0.
  lemma HeadIsRequest(c: Config, e: Execution, t: nat, held: bool, i: nat, j: nat)
    requires c.Valid() && AtRest(c, e, t, held) && e.states[t].net.Link(i, j) != []
    ensures j == 0 && 0 < i < c.nodes && e.states[t].net.Link(i, 0)[0].IsRequest()
    ensures e.states[t].net.Link(i, 0)[0].key.id !in e.states[t].net.Store(0)
  {
    HeadIsBlocked(c, e, t, held, i, j);
    var s := e.states[t];
    var id := OpOf(c, s, i).id;
    InputsAreNotRead(c, i, s.LocalOf(c, i));
    FramesAreAtHub(c, id);
    hide AtRest, NextOp, HomeOf;
    if id.DeltaSeg? { SegmentHasCome(c, e, t, held, i); }
  }

  lemma SecondIsCounted<I, V>(out: seq<Msg<I, V>>)
    requires |out| > 1 && out[0].IsRequest()
    ensures out[1].IsRequest() ==> Requests(out) > 1
    ensures out[1].Reply? ==> ReplyCount(out) > 0
  {
    CountedIsPresent(out, 1);
    CountedIsPresent(out[1..], 0);
    assert Requests(out) == 1 + Requests(out[1..]);
  }

  lemma OnlyTheRequest<I, V>(out: seq<Msg<I, V>>, m: nat, app: App<I>, back: seq<Msg<I, V>>, queue: seq<V>)
    requires PairOk(app, m, out, back, queue) && ReplyCount(out) == 0 && out != [] && out[0].IsRequest()
    ensures out == [out[0]] && Puts(out) == []
  {
    NoPuts(out);
    if |out| > 1 { SecondIsCounted(out); }
  }

  // Node 0 asks nobody, so no reply is on its way to it.
  lemma LinkAtRest(c: Config, e: Execution, t: nat, held: bool, i: nat)
    requires c.Valid() && AtRest(c, e, t, held) && i < c.nodes
    ensures var link := e.states[t].net.Link(i, 0);
      link == [] || (i != 0 && link == [link[0]] && link[0].IsRequest())
    ensures Puts(e.states[t].net.Link(i, 0)) == []
  {
    var net := e.states[t].net;
    if net.Link(i, 0) != [] {
      HeadIsRequest(c, e, t, held, i, 0);
      NetIsSound(c, e, t);
      HubIsRunning(c, e, t, held);
      assert PairInv(net, i, 0) && PairInv(net, 0, i);
      hide AtRest, Inv;
      OnlyTheRequest(net.Link(i, 0), 0, net.AppOf(i), net.Link(0, i), net.Replies(i, 0));
    }
  }

  // Whatever was put has arrived.
  lemma DoneIsStored(c: Config, e: Execution, t: nat, held: bool, id: Id)
    requires c.Valid() && AtRest(c, e, t, held)
    requires ValidId(c, id) && WriterOf(id) < c.nodes && PutDone(PlaceOf(c, e.states[t], WriterOf(id)), id)
    ensures id in e.states[t].net.Store(HomeOf(c, id))
  {
    var w, h := WriterOf(id), HomeOf(c, id);
    hide ValidId, PutDone, WriterOf, HomeOf, AllRight, Still, HubReadsAtHome, IsExecution;
    if w != h {
      if h == 0 {
        LinkAtRest(c, e, t, held, w);
      } else if e.states[t].net.Link(w, h) != [] {
        HeadIsRequest(c, e, t, held, w, h);
      }
    }
    PutHasCome(c, e, t, id);
  }

  // ----------------------------------------------------------- programs at rest

  // A program that is not done, and not held back, waits for what node 0 does
  // not have.
  ghost predicate Waiting(c: Config, s: Sys, n: nat)
    requires c.Valid()
  {
    var op := OpOf(c, s, n);
    && op.DoRead? && HomeOf(c, op.id) == 0 && op.id !in s.net.Store(0)
    && (n != 0 ==>
          && s.net.AppOf(n) == Asking(KeyOf(c, op.id)) && s.net.Link(0, n) == [] && s.net.Replies(n, 0) == []
          && |s.net.Link(n, 0)| == 1 && s.net.Link(n, 0)[0].IsRequest() && s.net.Link(n, 0)[0].key == KeyOf(c, op.id))
  }

  lemma ProgramAtRest(c: Config, e: Execution, t: nat, held: bool, n: nat)
    requires c.Valid() && AtRest(c, e, t, held) && n < c.nodes && PlaceOf(c, e.states[t], n) != Done
    requires !(held && n == 0)
    ensures Waiting(c, e.states[t], n)
  {
    var s := e.states[t];
    var op := OpOf(c, s, n);
    assert NodeRight(c, s, n);
    assert !CanDo(c, s, Act(n));
    NetIsSound(c, e, t);
    RightOpsHaveHomes(c, n, s.LocalOf(c, n));
    InputsAreNotReadIf(c, n, s.LocalOf(c, n));
    FramesAreAtHub(c, op.id);
    hide LocalOk, HasSegments, NextOp, HomeOf, AllRight, IsExecution, Still, Inv, CanDo;
    if s.net.AppOf(n).Running? {
      MovesUnlessItReads(c, s, n);
      if n != 0 && op.id.DeltaSeg? { SegmentHasCome(c, e, t, held, n); }
    } else {
      HubIsRunning(c, e, t, held);
      NoReplyAtRest(c, s, n);
      QuestionAtRest(c, e, t, held, n);
    }
  }

  // A running thread can only be waiting for a key of its own store.
  lemma MovesUnlessItReads(c: Config, s: Sys, n: nat)
    requires c.Valid() && n < c.nodes == s.net.nodes && s.net.AppOf(n).Running? && OpOf(c, s, n) != Halt
    requires HomeOf(c, OpOf(c, s, n).id) < c.nodes && !CanDo(c, s, Act(n))
    ensures var op := OpOf(c, s, n); op.DoRead? && HomeOf(c, op.id) == n && op.id !in s.net.Store(n)
  {
    hide NextOp, HomeOf;
  }

  lemma NoReplyAtRest(c: Config, s: Sys, n: nat)
    requires c.Valid() && n < c.nodes && s.net.AppOf(n).Asking? && OpOf(c, s, n).DoRead? && !CanDo(c, s, Act(n))
    ensures !Enabled(s.net, TakeReply(n))
  {
    hide NextOp, HomeOf;
  }

  // A question that has no reply is on its link, and so it is for node 0.
  lemma QuestionAtRest(c: Config, e: Execution, t: nat, held: bool, n: nat)
    requires c.Valid() && AtRest(c, e, t, held) && 0 < n < c.nodes
    requires e.states[t].net.AppOf(n).Asking? && OpOf(c, e.states[t], n) != Halt
    requires !Enabled(e.states[t].net, TakeReply(n))
    ensures var net := e.states[t].net;
      && net.AppOf(n).key.home == 0 && net.Link(0, n) == [] && net.Replies(n, 0) == []
      && |net.Link(n, 0)| == 1 && net.Link(n, 0)[0].IsRequest() && net.Link(n, 0)[0].key == net.AppOf(n).key
      && net.AppOf(n).key.id !in net.Store(0)
  {
    var net := e.states[t].net;
    var h := net.AppOf(n).key.home;
    NetIsSound(c, e, t);
    hide AtRest, NextOp;
    assert PairInv(net, n, h);
    assert net.Replies(n, h) == [];
    if net.Link(h, n) != [] { HeadIsRequest(c, e, t, held, h, n); }
    assert net.Link(n, h) != [];
    HeadIsRequest(c, e, t, held, n, h);
    LinkAtRest(c, e, t, held, n);
  }

  lemma RightOpsHaveHomes(c: Config, n: nat, l: Local)
    requires c.Valid() && LocalOk(c, n, l)
    ensures var op := NextOp(c, n, l); op != Halt ==> HomeOf(c, op.id) < c.nodes
    ensures NextOp(c, n, l) == Halt ==> l.pc == Done
  {
    hide LocalOk, OutRows, Segment;
  }

  lemma InputsAreNotReadIf(c: Config, n: nat, l: Local)
    requires c.Valid()
    ensures NextOp(c, n, l).DoRead? ==> !NextOp(c, n, l).id.InSeg?
  {
    hide OutRows, Segment;
  }

  // At rest nobody waits for what has been put; so it is for a frame.
  lemma WaitsForMissing(c: Config, e: Execution, t: nat, held: bool, n: nat)
    requires c.Valid() && AtRest(c, e, t, held) && n < c.nodes && Waiting(c, e.states[t], n)
    ensures var id := OpOf(c, e.states[t], n).id;
      && ValidId(c, id) && ReadsFrame(c, n, id) && WriterOf(id) < c.nodes
      && !PutDone(PlaceOf(c, e.states[t], WriterOf(id)), id)
  {
    var s := e.states[t];
    var id := OpOf(c, s, n).id;
    RightPlaces(c, e, t, n);
    FrameIsRead(c, n, s.LocalOf(c, n));
    hide LocalOk, NextOp, Still, HasSegments, IsExecution, Placed, HomeOf;
    if id.DeltaSeg? {
      WaitsAreForFrames(c, n, s.LocalOf(c, n));
      GetsFollowTheFrame(c, n, s.LocalOf(c, n));
      SeenIsDone(c, e, t, n, DeltaFrame(id.round, id.node));
      DoneIsStored(c, e, t, held, id);
    } else {
      hide PutDone, Seen;
      InputsAreNotRead(c, n, s.LocalOf(c, n));
      ReadersAreNodes(c, n, id);
      if PutDone(PlaceOf(c, s, WriterOf(id)), id) { DoneIsStored(c, e, t, held, id); }
    }
  }

  lemma ReadersAreNodes(c: Config, n: nat, id: Id)
    requires c.Valid() && ReadsFrame(c, n, id)
    ensures WriterOf(id) < c.nodes
  {
  }

  lemma InputsAreNotRead(c: Config, n: nat, l: Local)
    requires c.Valid() && NextOp(c, n, l).DoRead?
    ensures !NextOp(c, n, l).id.InSeg?
  {
    InputsAreNotReadIf(c, n, l);
  }

  // ------------------------------------------------------------ who waits for whom

  lemma RightPlaces(c: Config, e: Execution, t: nat, n: nat)
    requires c.Valid() && AllRight(c, e, t) && n < c.nodes
    ensures Placed(c, n, PlaceOf(c, e.states[t], n))
  {
    assert NodeRight(c, e.states[t], n);
    OkIsPlaced(c, n, e.states[t].LocalOf(c, n));
    hide LocalOk, Placed, HasSegments, AsksAsProgrammed;
  }

  // Node 0 never waits at rest: the node it would wait for would wait for it.
  lemma HubDoesNotWait(c: Config, e: Execution, t: nat, held: bool)
    requires c.Valid() && AtRest(c, e, t, held)
    ensures held || PlaceOf(c, e.states[t], 0) == Done
  {
    var s := e.states[t];
    if !held && PlaceOf(c, s, 0) != Done {
      assert c.nodes > 0;
      ProgramAtRest(c, e, t, held, 0);
      WaitsForMissing(c, e, t, held, 0);
      var id := OpOf(c, s, 0).id;
      RightPlaces(c, e, t, 0);
      HubWaitsInMerge(c, s.LocalOf(c, 0));
      var r, i := PlaceOf(c, s, 0).r, PlaceOf(c, s, 0).i;
      hide AtRest, Waiting, NextOp;
      if PlaceOf(c, s, i) != Done {
        ProgramAtRest(c, e, t, held, i);
        WaitsForMissing(c, e, t, held, i);
        RightPlaces(c, e, t, i);
        NodeWaitsAt(c, i, s.LocalOf(c, i));
      }
    }
  }

  lemma HubWaitsInMerge(c: Config, l: Local)
    requires c.Valid() && Placed(c, 0, l.pc) && NextOp(c, 0, l).DoRead? && ReadsFrame(c, 0, NextOp(c, 0, l).id)
    requires WriterOf(NextOp(c, 0, l).id) == 0 ==> !PutDone(l.pc, NextOp(c, 0, l).id)
    ensures l.pc.Collect? && NextOp(c, 0, l).id == DeltaFrame(l.pc.r, l.pc.i) && 0 < l.pc.i < c.nodes
  {
    hide OutRows, Segment;
  }

  // Another node waits for node 0 only.
  lemma NodeWaitsAt(c: Config, n: nat, l: Local)
    requires c.Valid() && n != 0 && Placed(c, n, l.pc) && NextOp(c, n, l).DoRead?
    requires ReadsFrame(c, n, NextOp(c, n, l).id)
    ensures match l.pc
      case InWait(f) => NextOp(c, n, l).id == InFrame(f)
      case Base(r) => NextOp(c, n, l).id == DeltaFrame(Before(r), 0)
      case Await(r) => NextOp(c, n, l).id == DeltaFrame(r, 0)
      case _ => false
  {
    hide OutRows, Segment;
  }

  lemma AllDoneWhenHubIs(c: Config, e: Execution, t: nat, held: bool, n: nat)
    requires c.Valid() && AtRest(c, e, t, held) && n < c.nodes && PlaceOf(c, e.states[t], 0) == Done
    ensures PlaceOf(c, e.states[t], n) == Done
  {
    if PlaceOf(c, e.states[t], n) != Done {
      ProgramAtRest(c, e, t, held, n);
      WaitsForMissing(c, e, t, held, n);
    }
  }

  // If node 0 is held back before it has published round r, all others wait
  // for that.
  lemma OthersWaitForRound(c: Config, e: Execution, t: nat, r: nat, n: nat)
    requires c.Valid() && AtRest(c, e, t, true) && 0 < n < c.nodes && 1 <= r <= c.Last()
    requires var pc := PlaceOf(c, e.states[t], 0);
      !pc.InPut? && !PutDone(pc, DeltaFrame(r, 0)) && forall q: nat | q < r :: PutDone(pc, DeltaFrame(q, 0))
    ensures PlaceOf(c, e.states[t], n) == Await(r) && Waiting(c, e.states[t], n)
    ensures e.states[t].net.Link(n, 0) == [WaitAndGet(KeyOf(c, DeltaFrame(r, 0)))]
  {
    var s := e.states[t];
    var pc := PlaceOf(c, s, n);
    hide AllRight, IsExecution, Still, HubReadsAtHome, NextOp, ValidId, CanDo;
    if Seen(n, pc, DeltaFrame(r, 0)) { SeenIsDone(c, e, t, n, DeltaFrame(r, 0)); }
    assert pc != Done;
    ProgramAtRest(c, e, t, true, n);
    WaitsForMissing(c, e, t, true, n);
    RightPlaces(c, e, t, n);
    NodeWaitsAt(c, n, s.LocalOf(c, n));
    hide PutDone, Seen;
    RequestIsProgrammed(c, e, t, n, 0);
  }

  // ------------------------------------------------------------------- progress

  ghost predicate Stuck(c: Config, s: Sys)
    requires c.Valid()
  {
    forall st :: !CanDo(c, s, st)
  }

  // Every set that node 0 reads takes one segment: those of the other nodes, and
  // the merged users that it reads back itself.
  ghost predicate HubReadsSmall(c: Config)
    requires c.Valid()
  {
    forall r: nat, n: nat | ReadsFrame(c, 0, DeltaFrame(r, n)) :: DeltaSegments(c, r, n) == 1
  }

  lemma SetsThatFitAreSmall(c: Config)
    requires c.Valid() && SetsFit(c)
    ensures HubReadsSmall(c)
  {
    hide DeltaSegments;
    forall r: nat, n: nat | ReadsFrame(c, 0, DeltaFrame(r, n)) ensures DeltaSegments(c, r, n) == 1 {
      SmallSetsTakeOneSegment(c, r, n);
    }
  }

  lemma HubStaysHome(c: Config, s: Sys)
    requires c.Valid() && (c.nodes == 1 || HubReadsSmall(c)) && Placed(c, 0, PlaceOf(c, s, 0))
    ensures HubReadsAtHome(c, s)
  {
    var l := s.LocalOf(c, 0);
    hide NextOp, Placed, DeltaSegments, ReadsFrame, Seen, Config.Valid;
    if OpOf(c, s, 0).DoRead? {
      FrameIsRead(c, 0, l);
      InputsAreNotRead(c, 0, l);
      FramesAreAtHub(c, OpOf(c, s, 0).id);
      if OpOf(c, s, 0).id.DeltaSeg? {
        WaitsAreForFrames(c, 0, l);
        GetsFollowTheFrame(c, 0, l);
        SmallIsAtHub(c, OpOf(c, s, 0).id);
      }
    }
  }

  lemma SmallIsAtHub(c: Config, id: Id)
    requires c.Valid() && id.DeltaSeg? && ValidId(c, id)
    requires c.nodes == 1 || DeltaSegments(c, id.round, id.node) == 1
    ensures HomeOf(c, id) == 0
  {
    hide DeltaSegments;
  }

  // With one node, or if every set that node 0 reads takes one segment, every
  // reachable state in which some node is not done allows a further step.
  lemma NeverStuck(c: Config, e: Execution, t: nat, n: nat)
    requires c.Valid() && IsExecution(c, e) && t < |e.states| && n < c.nodes
    requires c.nodes == 1 || HubReadsSmall(c)
    requires e.states[t].LocalOf(c, n).pc != Done
    ensures exists st :: CanDo(c, e.states[t], st)
  {
    InvariantHolds(c, e, t);
    RightPlaces(c, e, t, 0);
    HubStaysHome(c, e.states[t]);
    hide CanDo, AllRight, IsExecution, HubReadsAtHome, HubReadsSmall, Placed;
    if forall st :: !CanDo(c, e.states[t], st) {
      assert AtRest(c, e, t, false);
      HubDoesNotWait(c, e, t, false);
      AllDoneWhenHubIs(c, e, t, false, n);
    }
  }

  // A run that cannot be continued has finished, with the naive search's sets
  // on every node.
  lemma CompletedRunIsRight(c: Config, e: Execution, n: nat)
    requires c.Valid() && IsExecution(c, e) && n < c.nodes && (c.nodes == 1 || HubReadsSmall(c))
    requires Stuck(c, e.states[|e.steps|])
    ensures var l := e.states[|e.steps|].LocalOf(c, n);
      && l.pc == Done
      && l.pSet == NaiveP(c.CommitGraph(), c.degrees) && l.uSet == NaiveU(c.CommitGraph(), c.degrees)
  {
    hide CanDo, Stuck, HubReadsSmall;
    if e.states[|e.steps|].LocalOf(c, n).pc != Done {
      NeverStuck(c, e, |e.steps|, n);
      NotStuck(c, e.states[|e.steps|]);
    }
    EveryNodeSearchesNaively(c, e, |e.steps|, n);
  }

  lemma NotStuck(c: Config, s: Sys)
    requires c.Valid() && exists st :: CanDo(c, s, st)
    ensures !Stuck(c, s)
  {
  }
}
