// The Linus application always stops: every step of every run uses up work.

module LinusTermination {
  import opened Arith
  import opened Protocol
  import opened TagSets
  import opened LinusModel
  import opened LinusSystem
  import opened LinusTheorems
  import opened LinusSafety

  function Weight<I, V>(link: seq<Msg<I, V>>): nat {
    if link == [] then 0 else (if link[0].IsRequest() then 2 else 1) + Weight(link[1..])
  }

  lemma {:induction false} WeightAppend<I, V>(link: seq<Msg<I, V>>, m: Msg<I, V>)
    ensures Weight(link + [m]) == Weight(link) + (if m.IsRequest() then 2 else 1)
  {
    if link != [] {
      WeightAppend(link[1..], m);
      assert (link + [m])[1..] == link[1..] + [m];
    }
  }

  // ------------------------------------------------- operations left to a program

  // No set has more segments than this.
  function MostSegments(c: Config): nat { c.np + c.nu + 2 }

  function MostInputs(c: Config): nat
    requires c.cap > 0
  {
    c.Segments(0) + c.Segments(1) + c.Segments(2)
  }

  lemma SegmentsAreBounded(c: Config, r: nat, n: nat)
    requires c.Valid()
    ensures DeltaSegments(c, r, n) <= MostSegments(c)
  {
    var rows := |RightRows(c, r, n)|;
    if r > 0 { AscendingIsShort(RightSet(c, r, n), 0, SizeOf(c, r)); }
    hide RightSet, Ascending;
    assert rows <= c.np + c.nu + 1;
    hide RightRows;
    if rows > 0 { QuotientIsSmall(rows - 1, c.cap); }
  }

  // What collecting the sets of the nodes from i on takes.
  function Lap(c: Config, i: nat): int {
    (c.nodes - i) * (MostSegments(c) + 2)
  }

  lemma LapShrinks(c: Config, i: nat)
    ensures Lap(c, i) == Lap(c, i + 1) + MostSegments(c) + 2
    ensures i <= c.nodes ==> Lap(c, i) >= 0
  {
  }

  function Publication(c: Config): nat { 2 * MostSegments(c) + 4 }

  function RoundsLeft(c: Config, r: nat): nat
    decreases c.Last() - r
  {
    if r >= c.Last() then 0
    else Publication(c) + c.nodes * (MostSegments(c) + 2) + MostSegments(c) + 3 + RoundsLeft(c, r + 1)
  }

  // An upper bound on the operations left to a program.
  function Left(c: Config, pc: PC): int
    requires c.cap > 0
  {
    var most := MostSegments(c);
    match pc
    case InPut(f, s) => RoundsLeft(c, 0) + Publication(c) + (3 - f) * (MostInputs(c) + 2) - s
    case InWait(f) => RoundsLeft(c, 0) + Publication(c) + 3 - f
    case Base(r) => RoundsLeft(c, r) + Publication(c) + Lap(c, 0) + most + 2
    case BaseSeg(r, s) => RoundsLeft(c, r) + Publication(c) + Lap(c, 0) + most + 1 - s
    case Collect(r, i) => RoundsLeft(c, r) + Publication(c) + Lap(c, i)
    case CollectSeg(r, i, s) => RoundsLeft(c, r) + Publication(c) + Lap(c, i) - 1 - s
    case SendSeg(r, s) => RoundsLeft(c, r) + 2 * most + 3 - s
    case SendFrame(r) => RoundsLeft(c, r) + most + 2
    case Await(r) => RoundsLeft(c, r) + most + 1
    case AwaitSeg(r, s) => RoundsLeft(c, r) + most - s
    case Done => 0
  }

  lemma InputLeft(c: Config, f: nat)
    requires c.cap > 0
    ensures (3 - f) * (MostInputs(c) + 2) == (3 - (f + 1)) * (MostInputs(c) + 2) + MostInputs(c) + 2
    ensures f < 3 ==> (3 - f) * (MostInputs(c) + 2) >= MostInputs(c) + 2
  {
  }

  lemma ScannedLeft(c: Config, n: nat, pc: PC, r: nat)
    requires c.Valid() && Scanned(c, n, pc, r)
    ensures Left(c, pc) <= RoundsLeft(c, r) + Publication(c) + Lap(c, 0)
  {
    hide RoundsLeft, Lap;
    LapShrinks(c, 0);
  }

  lemma BeginsLeft(c: Config, n: nat, pc: PC, r: nat)
    requires c.Valid() && r >= 1 && Begins(c, n, pc, r)
    ensures Left(c, pc) <= RoundsLeft(c, r - 1)
  {
    if r <= c.Last() {
      RoundStep(c, r - 1);
      if !IsOdd(r) { ScannedLeft(c, n, pc, r); }
    }
    hide RoundsLeft, Lap, Scanned, Publication;
  }

  lemma RoundStep(c: Config, r: nat)
    requires r < c.Last()
    ensures RoundsLeft(c, r) == Publication(c) + Lap(c, 0) + MostSegments(c) + 3 + RoundsLeft(c, r + 1)
  {
  }

  lemma LeftIsNatural(c: Config, n: nat, pc: PC)
    requires c.Valid() && n < c.nodes && Placed(c, n, pc)
    ensures Left(c, pc) >= 0
  {
    hide Lap, RoundsLeft, DeltaSegments, Config.Segments;
    LapShrinks(c, 0);
    match pc
    case InPut(f, s) => InputLeft(c, f);
    case BaseSeg(r, s) => SegmentsAreBounded(c, r - 1, 0);
    case Collect(r, i) => LapShrinks(c, i);
    case CollectSeg(r, i, s) =>
      SegmentsAreBounded(c, r, i);
      LapShrinks(c, i);
    case SendSeg(r, s) => SegmentsAreBounded(c, r, n);
    case AwaitSeg(r, s) => SegmentsAreBounded(c, r, 0);
    case _ =>
  }

  lemma PutUsesUp(c: Config, n: nat, l: Local, pc: PC)
    requires c.Valid() && n < c.nodes && Placed(c, n, l.pc) && GoesOn(c, n, l, pc)
    requires l.pc.InPut? || l.pc.SendSeg? || l.pc.SendFrame?
    ensures Left(c, pc) < Left(c, l.pc)
  {
    hide Lap, RoundsLeft, DeltaSegments, Config.Segments, Begins, Scanned, MoreAfter, IsOdd;
    match l.pc
    case InPut(f, s) => InputLeft(c, f);
    case SendSeg(r, s) => SegmentsAreBounded(c, r, n);
    case SendFrame(r) => if n == 0 { BeginsLeft(c, n, pc, r + 1); }
  }

  lemma ScanUsesUp(c: Config, n: nat, l: Local, pc: PC)
    requires c.Valid() && n < c.nodes && Placed(c, n, l.pc) && GoesOn(c, n, l, pc)
    requires l.pc.InWait? || l.pc.Base? || l.pc.BaseSeg?
    ensures Left(c, pc) < Left(c, l.pc)
  {
    hide Lap, RoundsLeft, DeltaSegments, Config.Segments, Begins, Scanned, MoreAfter, IsOdd;
    match l.pc
    case InWait(f) => if f == 2 { BeginsLeft(c, n, pc, 1); }
    case Base(r) => if pc != BaseSeg(r, 0) { ScannedLeft(c, n, pc, r); }
    case BaseSeg(r, s) =>
      SegmentsAreBounded(c, r - 1, 0);
      if pc != BaseSeg(r, s + 1) { ScannedLeft(c, n, pc, r); }
  }

  lemma MergeUsesUp(c: Config, n: nat, l: Local, pc: PC)
    requires c.Valid() && n < c.nodes && Placed(c, n, l.pc) && GoesOn(c, n, l, pc)
    requires l.pc.Collect? || l.pc.CollectSeg? || l.pc.Await? || l.pc.AwaitSeg?
    ensures Left(c, pc) < Left(c, l.pc)
  {
    hide Lap, RoundsLeft, DeltaSegments, Config.Segments, Begins, Scanned, MoreAfter, IsOdd;
    match l.pc
    case Collect(r, i) =>
      LapShrinks(c, i);
      LapShrinks(c, i + 1);
    case CollectSeg(r, i, s) =>
      SegmentsAreBounded(c, r, i);
      LapShrinks(c, i);
      LapShrinks(c, i + 1);
    case Await(r) => if pc != AwaitSeg(r, 0) { BeginsLeft(c, n, pc, r + 1); }
    case AwaitSeg(r, s) =>
      SegmentsAreBounded(c, r, 0);
      if pc != AwaitSeg(r, s + 1) { BeginsLeft(c, n, pc, r + 1); }
  }

  lemma GoingOnUsesUp(c: Config, n: nat, l: Local, pc: PC)
    requires c.Valid() && n < c.nodes && Placed(c, n, l.pc) && GoesOn(c, n, l, pc)
    ensures Left(c, pc) < Left(c, l.pc)
  {
    if l.pc.InPut? || l.pc.SendSeg? || l.pc.SendFrame? {
      PutUsesUp(c, n, l, pc);
    } else if l.pc.InWait? || l.pc.Base? || l.pc.BaseSeg? {
      ScanUsesUp(c, n, l, pc);
    } else if !l.pc.Done? {
      MergeUsesUp(c, n, l, pc);
    }
    hide Left, Placed;
  }

  // ----------------------------------------------------------- the whole system

  // The messages that n has sent to the first k nodes and that are not handled.
  function Row<I, V>(net: Net<I, V>, n: nat, k: nat): nat {
    if k == 0 then 0 else Row(net, n, k - 1) + Weight(net.Link(n, k - 1))
  }

  lemma {:induction false} RowChanges<I, V>(net: Net<I, V>, net': Net<I, V>, n: nat, m: nat, k: nat)
    requires forall j: nat | j < k && j != m :: net'.Link(n, j) == net.Link(n, j)
    ensures Row(net', n, k) - Row(net, n, k) == if m < k then Weight(net'.Link(n, m)) - Weight(net.Link(n, m)) else 0
  {
    hide Weight;
    if k > 0 { RowChanges(net, net', n, m, k - 1); }
  }

  // What is left to do for node n: its program, its question, and the messages
  // that it has sent.
  function NodeWork(c: Config, s: Sys, n: nat): int
    requires c.cap > 0
  {
    5 * Left(c, PlaceOf(c, s, n)) + (if s.net.AppOf(n).Running? then 3 else 0) + Row(s.net, n, c.nodes)
  }

  function Work(c: Config, s: Sys, k: nat): int
    requires c.cap > 0
  {
    if k == 0 then 0 else Work(c, s, k - 1) + NodeWork(c, s, k - 1)
  }

  lemma {:induction false} WorkIsNatural(c: Config, s: Sys, k: nat)
    requires c.Valid() && k <= c.nodes && forall n: nat | n < c.nodes :: NodeRight(c, s, n)
    ensures Work(c, s, k) >= 0
  {
    hide NodeRight, Left;
    if k > 0 {
      WorkIsNatural(c, s, k - 1);
      RightIsPlaced(c, s, k - 1);
      LeftIsNatural(c, k - 1, PlaceOf(c, s, k - 1));
    }
  }

  lemma RightIsPlaced(c: Config, s: Sys, n: nat)
    requires c.Valid() && NodeRight(c, s, n)
    ensures Placed(c, n, PlaceOf(c, s, n))
  {
    OkIsPlaced(c, n, s.LocalOf(c, n));
    hide LocalOk, Placed;
  }

  // Node n gets down by at least down, node m up by at most up, all others stay.
  lemma {:induction false} WorkChanges(c: Config, s: Sys, s': Sys, n: nat, m: nat, down: int, up: int, k: nat)
    requires c.cap > 0 && n < c.nodes && down > 0 && up >= 0 && n != m
    requires NodeWork(c, s', n) <= NodeWork(c, s, n) - down
    requires m < c.nodes ==> NodeWork(c, s', m) <= NodeWork(c, s, m) + up
    requires forall a: nat | a < c.nodes && a != n && a != m :: NodeWork(c, s', a) == NodeWork(c, s, a)
    requires k <= c.nodes
    ensures Work(c, s', k) <= Work(c, s, k) - (if n < k then down else 0) + (if m < k then up else 0)
  {
    hide NodeWork;
    if k > 0 { WorkChanges(c, s, s', n, m, down, up, k - 1); }
  }

  lemma DeliveryWeights<I, V>(net: Net<I, V>, i: nat, j: nat)
    requires Enabled(net, Handle(i, j))
    ensures var net' := Apply(net, Handle(i, j));
      && (forall n: nat :: net'.AppOf(n) == net.AppOf(n))
      && Weight(net'.Link(i, j)) + Weight(net'.Link(j, i)) < Weight(net.Link(i, j)) + Weight(net.Link(j, i))
      && Weight(net.Link(j, i)) <= Weight(net'.Link(j, i))
      && forall a: nat, b: nat | !(a == i && b == j) && !(a == j && b == i) :: net'.Link(a, b) == net.Link(a, b)
  {
    hide Weight;
    var m := net.Link(i, j)[0];
    var net' := Apply(net, Handle(i, j));
    assert net'.Link(i, j) == net.Link(i, j)[1..];
    assert Weight(net.Link(i, j)) == (if m.IsRequest() then 2 else 1) + Weight(net.Link(i, j)[1..]) by {
      HeadWeight(net.Link(i, j));
    }
    if m.IsRequest() {
      var reply: Msg<I, V> := Reply(net.Store(j)[m.key.id]);
      WeightAppend(net.Link(j, i), reply);
      assert net'.Link(j, i) == net.Link(j, i) + [reply];
    } else {
      assert net'.Link(j, i) == net.Link(j, i);
    }
  }

  lemma HeadWeight<I, V>(link: seq<Msg<I, V>>)
    requires link != []
    ensures Weight(link) == (if link[0].IsRequest() then 2 else 1) + Weight(link[1..])
  {
  }

  lemma DeliveryUsesUp(c: Config, s: Sys, i: nat, j: nat)
    requires c.Valid() && s.net.nodes == c.nodes && CanDo(c, s, Deliver(i, j))
    ensures Work(c, Do(c, s, Deliver(i, j)), c.nodes) < Work(c, s, c.nodes)
  {
    var s' := Do(c, s, Deliver(i, j));
    DeliveryWeights(s.net, i, j);
    assert i < c.nodes && j < c.nodes && i != j;
    assert s'.net == Apply(s.net, Handle(i, j)) && s'.locals == s.locals;
    hide Do, Apply, CanDo, Left, Weight;
    RowChanges(s.net, s'.net, i, j, c.nodes);
    RowChanges(s.net, s'.net, j, i, c.nodes);
    forall a: nat | a < c.nodes && a != i && a != j ensures NodeWork(c, s', a) == NodeWork(c, s, a) {
      RowChanges(s.net, s'.net, a, c.nodes, c.nodes);
    }
    var up := Weight(s'.net.Link(j, i)) - Weight(s.net.Link(j, i));
    hide Row;
    WorkChanges(c, s, s', i, j, up + 1, up, c.nodes);
  }

  // How an application step changes the thread and the links.
  lemma ActWeights<I, V>(net: Net<I, V>, st: Step<I, V>)
    requires Enabled(net, st) && !st.Handle?
    ensures var net' := Apply(net, st);
      && (forall a: nat | a != st.n :: net'.AppOf(a) == net.AppOf(a))
      && (forall a: nat, b: nat | a != st.n :: net'.Link(a, b) == net.Link(a, b))
    ensures var net' := Apply(net, st);
      && (st.PutOp? ==> net.AppOf(st.n).Running? && net'.AppOf(st.n).Running?)
      && (st.PutOp? ==> Weight(net'.Link(st.n, st.key.home)) <= Weight(net.Link(st.n, st.key.home)) + 1)
      && (st.Ask? ==> net.AppOf(st.n).Running? && net'.AppOf(st.n).Asking?)
      && (st.Ask? ==> Weight(net'.Link(st.n, st.key.home)) == Weight(net.Link(st.n, st.key.home)) + 2)
      && (forall b: nat | !((st.PutOp? || st.Ask?) && b == st.key.home) :: net'.Link(st.n, b) == net.Link(st.n, b))
  {
    if st.Ask? {
      WeightAppend(net.Link(st.n, st.key.home), if st.wait then WaitAndGet(st.key) else Get(st.key));
    } else if st.PutOp? {
      WeightAppend(net.Link(st.n, st.key.home), Put(st.key, st.val));
    }
    hide Weight;
  }

  lemma ActUsesUp(c: Config, s: Sys, n: nat)
    requires c.Valid() && CanDo(c, s, Act(n)) && NodeRight(c, s, n)
    ensures Work(c, Do(c, s, Act(n)), c.nodes) < Work(c, s, c.nodes)
  {
    var s', st, l := Do(c, s, Act(n)), NetStep(c, s, n), s.LocalOf(c, n);
    ProgramMoves(c, s, n);
    LocalsAfter(c, s, Act(n), n);
    if !st.Ask? { GoingOnUsesUp(c, n, l, LocalAfter(c, s, n).pc); }
    ActWeights(s.net, st);
    StepIsProtocolStep(c, s, Act(n));
    assert st.n == n;
    hide Do, Apply, CanDo, Left, Weight, NodeRight, Placed, GoesOn, LocalAfter, NextOp, Enabled;
    var m := if st.PutOp? || st.Ask? then st.key.home else c.nodes;
    RowChanges(s.net, s'.net, n, m, c.nodes);
    forall a: nat | a < c.nodes && a != n ensures NodeWork(c, s', a) == NodeWork(c, s, a) {
      LocalsAfter(c, s, Act(n), a);
      RowChanges(s.net, s'.net, a, c.nodes, c.nodes);
    }
    hide Row;
    WorkChanges(c, s, s', n, c.nodes, 1, 0, c.nodes);
  }

  lemma EveryStepUsesUp(c: Config, s: Sys, st: SysStep)
    requires c.Valid() && s.net.nodes == c.nodes && CanDo(c, s, st)
    requires forall n: nat | n < c.nodes :: NodeRight(c, s, n)
    ensures Work(c, Do(c, s, st), c.nodes) < Work(c, s, c.nodes)
  {
    match st
    case Act(n) => ActUsesUp(c, s, n);
    case Deliver(i, j) => DeliveryUsesUp(c, s, i, j);
  }

  // No run is longer than the work there is at the start, whatever the schedule.
  lemma {:induction false} RunsAreBounded(c: Config, e: Execution, t: nat)
    requires c.Valid() && IsExecution(c, e) && t < |e.states|
    ensures t + Work(c, e.states[t], c.nodes) <= Work(c, e.states[0], c.nodes)
    ensures t <= Work(c, e.states[0], c.nodes)
  {
    hide Work, Do, CanDo, NodeRight, Inv;
    InvariantHolds(c, e, t);
    if t > 0 {
      RunsAreBounded(c, e, t - 1);
      NetIsSound(c, e, t - 1);
      EveryStepUsesUp(c, e.states[t - 1], e.steps[t - 1]);
    }
    WorkIsNatural(c, e.states[t], c.nodes);
  }
}
