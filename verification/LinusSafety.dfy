// When the assertions of the store and of the network layer hold in every run
// of the Linus application: if there are at most two nodes, or if each merged
// set takes one segment.

module LinusSafety {
  import opened Arith
  import opened Segments
  import opened Protocol
  import opened Runs
  import opened Publishing
  import opened TagSets
  import opened LinusModel
  import opened LinusLocal
  import opened LinusSystem
  import opened LinusTheorems

  predicate SetsFit(c: Config) {
    c.np <= c.cap && c.nu <= c.cap
  }

  // The merged set of each round takes one segment.
  ghost predicate MergedSmall(c: Config)
    requires c.Valid()
  {
    forall r: nat | 1 <= r <= c.Last() :: DeltaSegments(c, r, 0) == 1
  }

  ghost predicate GetsAreSafe(c: Config)
    requires c.Valid()
  {
    c.nodes <= 2 || MergedSmall(c)
  }

  lemma {:induction false} AscendingIsShort(s: set<nat>, lo: nat, hi: nat)
    requires lo <= hi
    ensures |Ascending(s, lo, hi)| <= hi - lo
    decreases hi - lo
  {
    if lo < hi { AscendingIsShort(s, lo + 1, hi); }
  }

  lemma OneSegment(size: nat, cap: nat)
    requires cap > 0 && size <= cap
    ensures SegmentCount(size, cap) == 1
  {
    if size > 0 { assert (size - 1) / cap == 0; }
  }

  lemma SmallSetsTakeOneSegment(c: Config, r: nat, n: nat)
    requires c.Valid() && (SetsFit(c) || r == 0)
    ensures DeltaSegments(c, r, n) == 1
  {
    if r > 0 { AscendingIsShort(RightSet(c, r, n), 0, SizeOf(c, r)); }
    hide RightSet, Ascending;
    OneSegment(|RightRows(c, r, n)|, c.cap);
  }

  lemma SetsThatFitMerge(c: Config)
    requires c.Valid() && SetsFit(c)
    ensures MergedSmall(c)
  {
    hide DeltaSegments;
    forall r: nat | 1 <= r <= c.Last() ensures DeltaSegments(c, r, 0) == 1 { SmallSetsTakeOneSegment(c, r, 0); }
  }

  lemma {:induction false} AscendingGrows(a: set<nat>, b: set<nat>, lo: nat, hi: nat)
    requires a <= b
    ensures |Ascending(a, lo, hi)| <= |Ascending(b, lo, hi)|
    decreases hi - lo
  {
    if lo < hi { AscendingGrows(a, b, lo + 1, hi); }
  }

  lemma FewerSegments(size: nat, more: nat, cap: nat)
    requires cap > 0 && size <= more && SegmentCount(more, cap) == 1
    ensures SegmentCount(size, cap) == 1
  {
    if more > 0 {
      DivisionIsUnique(more - 1, cap, (more - 1) / cap, (more - 1) % cap);
      OneSegment(size, cap);
    }
  }

  // What a node finds is part of the merged set, so it takes no more segments.
  lemma OwnSetsAreSmall(c: Config, r: nat, n: nat)
    requires c.Valid() && n < c.nodes && (r == 0 || DeltaSegments(c, r, 0) == 1)
    ensures DeltaSegments(c, r, n) == 1
  {
    if r == 0 {
      SmallSetsTakeOneSegment(c, r, n);
    } else if n != 0 {
      FindsAreMerged(c, r, n);
      hide Finds, Merged, SegmentCount;
      AscendingGrows(Finds(c, r, n), Merged(c, r), 0, SizeOf(c, r));
      hide Ascending;
      FewerSegments(|RightRows(c, r, n)|, |RightRows(c, r, 0)|, c.cap);
    }
  }

  // ------------------------------------------------------------ remote and local gets

  // Only segments are read without waiting, and only of a frame in hand.
  lemma GetsFollowTheFrame(c: Config, n: nat, l: Local)
    requires c.Valid() && n < c.nodes && Placed(c, n, l.pc) && NextOp(c, n, l).DoRead? && !NextOp(c, n, l).wait
    ensures var id := NextOp(c, n, l).id;
      && id.DeltaSeg? && ValidId(c, id)
      && ReadsFrame(c, n, DeltaFrame(id.round, id.node)) && Seen(n, l.pc, DeltaFrame(id.round, id.node))
  {
    hide OutRows, DeltaSegments, Segment, Config.Segments;
  }

  lemma SafelyPlaced(c: Config, w: nat, s: nat, n: nat, segments: nat)
    requires c.Valid() && w < c.nodes && n < c.nodes && s < segments
    requires c.nodes <= 2 || segments == 1
    ensures SafeHomes(w, 0, NodeOf(s, c.nodes), n)
  {
    assert NodeOf(s, c.nodes) < c.nodes;
  }

  lemma SegmentIsWithinReach(c: Config, e: Execution, t: nat, n: nat)
    requires c.Valid() && IsExecution(c, e) && t < |e.states| && AllRight(c, e, t) && n < c.nodes
    requires var op := OpOf(c, e.states[t], n); op.DoRead? && !op.wait
    requires GetsAreSafe(c)
    ensures !Misses(e.states[t].net, n, KeyOf(c, OpOf(c, e.states[t], n).id))
  {
    var id := OpOf(c, e.states[t], n).id;
    assert NodeRight(c, e.states[t], n);
    OkIsPlaced(c, n, e.states[t].LocalOf(c, n));
    GetsFollowTheFrame(c, n, e.states[t].LocalOf(c, n));
    hide LocalOk, Placed, NextOp, Do, HasSegments, AsksAsProgrammed, RunOf, NetStep, CanDo, Obtains, IsRun,
      PublishedBefore, Misses, ReadsFrame, Seen, DeltaSegments, SafeHomes, NodeOf;
    var frame := DeltaFrame(id.round, id.node);
    var q := SeenBefore(c, e, t, n, frame);
    assert AllRight(c, e, q);
    var a, b := FrameWasPublished(c, e, q, n, id);
    if c.nodes > 2 { OwnSetsAreSmall(c, id.round, id.node); }
    SafelyPlaced(c, id.node, id.s, n, DeltaSegments(c, id.round, id.node));
    SegmentIsFound(RunOf(c, e), id.node, KeyOf(c, id), KeyOf(c, frame), a, b, q, n, t);
  }

  // ---------------------------------------------------------- requests in flight

  // Segments are asked for by gets, and frames by waits.
  predicate AskedRightly(m: Msg<Id, Val>) {
    m.IsRequest() ==> (m.Get? <==> m.key.id.DeltaSeg?)
  }

  ghost predicate GetsAreForSegments(s: Sys) {
    forall i: nat, j: nat, x: nat | x < |s.net.Link(i, j)| :: AskedRightly(s.net.Link(i, j)[x])
  }

  lemma NewMessages<I, V>(net: Net<I, V>, st: Step<I, V>, i: nat, j: nat, x: nat)
    requires Enabled(net, st) && x < |Apply(net, st).Link(i, j)|
    ensures var m := Apply(net, st).Link(i, j)[x];
      m.IsRequest() ==> m in net.Link(i, j) || (st.Ask? && (m.Get? <==> !st.wait) && m.key == st.key)
  {
  }

  lemma DoKeepsGets(c: Config, s: Sys, st: SysStep)
    requires c.Valid() && CanDo(c, s, st) && GetsAreForSegments(s)
    ensures GetsAreForSegments(Do(c, s, st))
  {
    var net', step := Do(c, s, st).net, ToStep(c, s, st);
    StepIsProtocolStep(c, s, st);
    assert step.Ask? ==> (!step.wait <==> step.key.id.DeltaSeg?);
    hide Do, CanDo, ToStep, Apply, Enabled;
    forall i: nat, j: nat, x: nat | x < |net'.Link(i, j)| ensures AskedRightly(net'.Link(i, j)[x]) {
      NewMessages(s.net, step, i, j, x);
    }
  }

  lemma {:induction false} GetsHold(c: Config, e: Execution, t: nat)
    requires c.Valid() && IsExecution(c, e) && t < |e.states|
    ensures GetsAreForSegments(e.states[t])
  {
    if t > 0 {
      hide GetsAreForSegments, Do, CanDo;
      GetsHold(c, e, t - 1);
      DoKeepsGets(c, e.states[t - 1], e.steps[t - 1]);
    }
  }

  // What the protocol gives at every moment.
  lemma NetIsSound(c: Config, e: Execution, t: nat)
    requires c.Valid() && IsExecution(c, e) && t < |e.states|
    ensures Inv(e.states[t].net) && NodesOnly(e.states[t].net) && e.states[t].net.nodes == c.nodes
  {
    RunOfIsRun(c, e);
    InvAlways(RunOf(c, e), t);
    NodesOnlyAlways(RunOf(c, e), t);
    hide Inv, NodesOnly, RunOf, IsRun;
  }

  // The request at the head of a link is the one its sender's program is at.
  lemma RequestIsProgrammed(c: Config, e: Execution, t: nat, i: nat, j: nat)
    requires c.Valid() && IsExecution(c, e) && t < |e.states| && AllRight(c, e, t)
    requires e.states[t].net.Link(i, j) != [] && e.states[t].net.Link(i, j)[0].IsRequest()
    ensures i < c.nodes && Inv(e.states[t].net)
    ensures var s, m := e.states[t], e.states[t].net.Link(i, j)[0];
      && s.net.AppOf(i) == Asking(m.key) && OpOf(c, s, i).DoRead? && m.key == KeyOf(c, OpOf(c, s, i).id)
      && m.key.home == j && i != j
      && (m.Get? <==> m.key.id.DeltaSeg?)
  {
    var s := e.states[t];
    NetIsSound(c, e, t);
    GetsHold(c, e, t);
    assert PairInv(s.net, i, j) && AskedRightly(s.net.Link(i, j)[0]);
    CountedIsPresent(s.net.Link(i, j), 0);
    hide LocalOk, NextOp, HasSegments, Inv;
    assert NodeRight(c, s, i);
  }

  // -------------------------------------------------------------------- safety

  // What the program relies on without waiting for it.
  ghost predicate NoAssertionFails(c: Config, s: Sys)
    requires c.Valid()
  {
    // a remote get is handled only where its key is stored
    && (forall i: nat, j: nat :: !GetFails(s.net, i, j))
    // a local get finds its key
    && (forall n: nat | n < c.nodes ::
          var op := OpOf(c, s, n);
          op.DoRead? && !op.wait && HomeOf(c, op.id) == n ==> op.id in s.net.Store(n))
    // local_map finds every segment of the node's own rows
    && (forall n: nat | n < c.nodes ::
          var pc := PlaceOf(c, s, n); !pc.InPut? && !pc.InWait? ==> HasSegments(c, n, s.net.Store(n)))
    // a thread that may ask has an empty reply queue, one that asks at most one reply
    && (forall n: nat, m: nat :: |s.net.Replies(n, m)| <= if AsksHome(s.net.AppOf(n), m) then 1 else 0)
  }

  lemma GetFindsItsKey(c: Config, e: Execution, t: nat, i: nat, j: nat)
    requires c.Valid() && IsExecution(c, e) && t < |e.states| && AllRight(c, e, t) && GetsAreSafe(c)
    ensures !GetFails(e.states[t].net, i, j)
  {
    var s := e.states[t];
    if s.net.Link(i, j) != [] && s.net.Link(i, j)[0].Get? {
      RequestIsProgrammed(c, e, t, i, j);
      WaitsAreForFrames(c, i, s.LocalOf(c, i));
      hide NextOp, Placed, NodeRight;
      SegmentIsWithinReach(c, e, t, i);
    }
  }

  lemma WaitsAreForFrames(c: Config, n: nat, l: Local)
    requires c.Valid() && NextOp(c, n, l).DoRead? && NextOp(c, n, l).id.DeltaSeg?
    ensures !NextOp(c, n, l).wait
  {
    hide OutRows, Segment;
  }

  lemma OwnSegmentIsThere(c: Config, e: Execution, t: nat, n: nat)
    requires c.Valid() && IsExecution(c, e) && t < |e.states| && AllRight(c, e, t) && n < c.nodes && GetsAreSafe(c)
    requires var op := OpOf(c, e.states[t], n); op.DoRead? && !op.wait && HomeOf(c, op.id) == n
    ensures OpOf(c, e.states[t], n).id in e.states[t].net.Store(n)
  {
    assert NodeRight(c, e.states[t], n);
    SegmentIsWithinReach(c, e, t, n);
    hide NextOp, LocalOk, HasSegments;
  }

  // What holds for sets of any size: only the gets of segments are at stake.
  lemma TheRestHolds(c: Config, e: Execution, t: nat)
    requires c.Valid() && IsExecution(c, e) && t < |e.states|
    ensures var s := e.states[t];
      && (forall n: nat | n < c.nodes ::
            var pc := PlaceOf(c, s, n); !pc.InPut? && !pc.InWait? ==> HasSegments(c, n, s.net.Store(n)))
      && (forall n: nat, m: nat :: |s.net.Replies(n, m)| <= if AsksHome(s.net.AppOf(n), m) then 1 else 0)
  {
    var s := e.states[t];
    InvariantHolds(c, e, t);
    forall n: nat | n < c.nodes
      ensures var pc := PlaceOf(c, s, n); !pc.InPut? && !pc.InWait? ==> HasSegments(c, n, s.net.Store(n))
    {
      hide LocalOk, AsksAsProgrammed, HasSegments;
      assert NodeRight(c, s, n);
      if n == 0 && !PlaceOf(c, s, 0).InPut? { HubHasInputs(c, e, t); }
    }
    NetIsSound(c, e, t);
    hide AllRight, IsExecution, HasSegments;
    forall n: nat, m: nat ensures |s.net.Replies(n, m)| <= if AsksHome(s.net.AppOf(n), m) then 1 else 0 {
      assert PairInv(s.net, n, m);
    }
  }

  // With at most two nodes, or merged sets of at most one segment, no run of the
  // application fails an assertion of the store or of the network layer.
  lemma NothingFails(c: Config, e: Execution, t: nat)
    requires c.Valid() && IsExecution(c, e) && t < |e.states| && GetsAreSafe(c)
    ensures NoAssertionFails(c, e.states[t])
  {
    InvariantHolds(c, e, t);
    TheRestHolds(c, e, t);
    var s := e.states[t];
    hide AllRight, IsExecution, GetFails, NextOp, HasSegments, GetsAreSafe;
    forall i: nat, j: nat ensures !GetFails(s.net, i, j) { GetFindsItsKey(c, e, t, i, j); }
    forall n: nat | n < c.nodes
      ensures var op := OpOf(c, s, n);
        op.DoRead? && !op.wait && HomeOf(c, op.id) == n ==> op.id in s.net.Store(n)
    {
      var op := OpOf(c, s, n);
      if op.DoRead? && !op.wait && HomeOf(c, op.id) == n { OwnSegmentIsThere(c, e, t, n); }
    }
  }
}
