// All nodes of the Linus application running over the protocol, in any
// interleaving, and what the place of a program says about what it has put
// and what it has read.

module LinusSystem {
  import opened Protocol
  import opened Runs
  import opened Segments
  import opened TagSets
  import opened LinusModel
  import opened LinusLocal

  datatype Sys = Sys(net: Net<Id, Val>, locals: map<nat, Local>) {
    function LocalOf(c: Config, n: nat): Local {
      if n in locals then locals[n] else Start(c, n)
    }
  }

  // Act(n): the application thread of n takes its next step.
  // Deliver(i, j): the connection thread of j handles a message from i.
  datatype SysStep = Act(n: nat) | Deliver(i: nat, j: nat)

  // The rows that local_map finds on node n.
  function RowsIn(c: Config, n: nat, store: map<Id, Val>, upTo: nat): seq<CommitRow>
    requires c.nodes > 0
  {
    if upTo == 0 then []
    else
      var id := InSeg(2, upTo - 1);
      RowsIn(c, n, store, upTo - 1)
        + (if NodeOf(upTo - 1, c.nodes) == n && id in store && store[id].Commits? then store[id].rows else [])
  }

  function RowsHere(c: Config, s: Sys, n: nat): seq<CommitRow>
    requires c.nodes > 0 && c.cap > 0
  {
    RowsIn(c, n, s.net.Store(n), c.Segments(2))
  }

  function KeyOf(c: Config, id: Id): Key<Id>
    requires c.nodes > 0
  {
    Key(id, HomeOf(c, id))
  }

  function OpOf(c: Config, s: Sys, n: nat): Op
    requires c.Valid()
  {
    NextOp(c, n, s.LocalOf(c, n))
  }

  function NetStep(c: Config, s: Sys, n: nat): Step<Id, Val>
    requires c.Valid() && OpOf(c, s, n) != Halt
  {
    match OpOf(c, s, n)
    case DoPut(id, val) => PutOp(n, KeyOf(c, id), val)
    case DoRead(id, wait) =>
      if s.net.AppOf(n).Asking? then TakeReply(n)
      else if HomeOf(c, id) == n then ReadLocal(n, KeyOf(c, id))
      else Ask(n, KeyOf(c, id), wait)
  }

  ghost predicate CanDo(c: Config, s: Sys, st: SysStep)
    requires c.Valid()
  {
    match st
    case Act(n) => n < c.nodes && OpOf(c, s, n) != Halt && Enabled(s.net, NetStep(c, s, n))
    case Deliver(i, j) => Enabled(s.net, Handle(i, j))
  }

  // The step that the system's step is for the protocol.
  ghost function ToStep(c: Config, s: Sys, st: SysStep): Step<Id, Val>
    requires c.Valid() && CanDo(c, s, st)
  {
    match st
    case Act(n) => NetStep(c, s, n)
    case Deliver(i, j) => Handle(i, j)
  }

  function LocalAfter(c: Config, s: Sys, n: nat): Local
    requires c.Valid() && OpOf(c, s, n) != Halt && Enabled(s.net, NetStep(c, s, n))
  {
    var l, rows := s.LocalOf(c, n), RowsHere(c, s, n);
    match NetStep(c, s, n)
    case PutOp(_, _, _) => AfterPut(c, n, l, rows)
    case ReadLocal(_, key) => AfterRead(c, n, l, s.net.Store(n)[key.id], rows)
    case TakeReply(_) => AfterRead(c, n, l, s.net.Replies(n, s.net.AppOf(n).key.home)[0], rows)
    case _ => l
  }

  ghost function Do(c: Config, s: Sys, st: SysStep): Sys
    requires c.Valid() && CanDo(c, s, st)
  {
    match st
    case Act(n) => Sys(Apply(s.net, NetStep(c, s, n)), s.locals[n := LocalAfter(c, s, n)])
    case Deliver(i, j) => s.(net := Apply(s.net, Handle(i, j)))
  }

  predicate InitialSys(c: Config, s: Sys) {
    Initial(s.net) && s.net.nodes == c.nodes && s.locals == map[]
  }

  datatype Execution = Execution(states: seq<Sys>, steps: seq<SysStep>)

  ghost predicate IsExecution(c: Config, e: Execution)
    requires c.Valid()
  {
    && |e.states| == |e.steps| + 1
    && InitialSys(c, e.states[0])
    && forall t | 0 <= t < |e.steps| ::
         CanDo(c, e.states[t], e.steps[t]) && e.states[t + 1] == Do(c, e.states[t], e.steps[t])
  }

  // The run of the protocol below an execution.
  ghost function RunOf(c: Config, e: Execution): (r: Run<Id, Val>)
    requires c.Valid() && IsExecution(c, e)
    ensures |r.states| == |e.states| && |r.steps| == |e.steps|
    ensures forall t | 0 <= t < |e.states| :: r.states[t] == e.states[t].net
    ensures forall t | 0 <= t < |e.steps| :: r.steps[t] == ToStep(c, e.states[t], e.steps[t])
  {
    Run(seq(|e.states|, t requires 0 <= t < |e.states| => e.states[t].net),
      seq(|e.steps|, t requires 0 <= t < |e.steps| => ToStep(c, e.states[t], e.steps[t])))
  }

  lemma StepIsProtocolStep(c: Config, s: Sys, st: SysStep)
    requires c.Valid() && CanDo(c, s, st)
    ensures Enabled(s.net, ToStep(c, s, st)) && Do(c, s, st).net == Apply(s.net, ToStep(c, s, st))
  {
    hide Apply, LocalAfter;
  }

  lemma RunOfIsRun(c: Config, e: Execution)
    requires c.Valid() && IsExecution(c, e)
    ensures IsRun(RunOf(c, e))
  {
    var r := RunOf(c, e);
    hide RunOf;
    forall t | 0 <= t < |r.steps|
      ensures Enabled(r.states[t], r.steps[t]) && r.states[t + 1] == Apply(r.states[t], r.steps[t])
    {
      StepIsProtocolStep(c, e.states[t], e.steps[t]);
      hide Do, CanDo, ToStep, Apply, Enabled;
    }
  }

  // A step moves the program of nobody but the thread that acts.
  lemma LocalsAfter(c: Config, s: Sys, st: SysStep, n: nat)
    requires c.Valid() && CanDo(c, s, st)
    ensures Do(c, s, st).LocalOf(c, n) == if st == Act(n) then LocalAfter(c, s, n) else s.LocalOf(c, n)
  {
    hide LocalAfter, Apply;
  }

  // ------------------------------------------------- who puts and reads what

  function WriterOf(id: Id): nat {
    match id
    case InSeg(_, _) => 0
    case InFrame(_) => 0
    case DeltaSeg(_, n, _) => n
    case DeltaFrame(_, n) => n
  }

  predicate ValidId(c: Config, id: Id)
    requires c.Valid()
  {
    match id
    case InSeg(f, s) => f < 3 && s < c.Segments(f)
    case InFrame(f) => f < 3
    case DeltaSeg(r, n, s) => r <= c.Last() && n < c.nodes && (r == 0 ==> n == 0) && s < DeltaSegments(c, r, n)
    case DeltaFrame(r, n) => r <= c.Last() && n < c.nodes && (r == 0 ==> n == 0)
  }

  predicate Beyond(pc: PC, r: nat) {
    match pc
    case InPut(_, _) => false
    case InWait(_) => false
    case Done => true
    case Base(x) => x > r
    case BaseSeg(x, _) => x > r
    case Collect(x, _) => x > r
    case CollectSeg(x, _, _) => x > r
    case SendSeg(x, _) => x > r
    case SendFrame(x) => x > r
    case Await(x) => x > r
    case AwaitSeg(x, _) => x > r
  }

  predicate Waits(pc: PC, r: nat) {
    pc == Await(r) || (pc.AwaitSeg? && pc.r == r)
  }

  // The writer of id has issued its put by the time it is at pc.
  predicate PutDone(pc: PC, id: Id) {
    match id
    case InSeg(f, s) => !pc.InPut? || pc.f > f || (pc.f == f && pc.s > s)
    case InFrame(f) => !pc.InPut? || pc.f > f
    case DeltaSeg(r, _, s) =>
      Beyond(pc, r) || Waits(pc, r) || pc == SendFrame(r) || (pc.SendSeg? && pc.r == r && pc.s > s)
    case DeltaFrame(r, _) => Beyond(pc, r) || Waits(pc, r)
  }

  // The frames that the program of node n reads. Node 0 reads back the merged
  // users that it has published itself.
  predicate ReadsFrame(c: Config, n: nat, id: Id) {
    match id
    case InFrame(f) => n != 0 && f < 3
    case DeltaFrame(r, w) =>
      if w != 0 then n == 0 && w < c.nodes && 1 <= r <= c.Last()
      else if n != 0 && r >= 1 then r <= c.Last()
      else !IsOdd(r) && r < c.Last()
    case _ => false
  }

  // Node n has read the frame by the time it is at pc.
  predicate Seen(n: nat, pc: PC, id: Id) {
    match id
    case InFrame(f) => !pc.InWait? || pc.f > f
    case DeltaFrame(r, w) =>
      if w != 0 then
        Beyond(pc, r) || pc == SendFrame(r) || (pc.SendSeg? && pc.r == r) || (pc.Collect? && pc.r == r && pc.i > w)
        || (pc.CollectSeg? && pc.r == r && pc.i >= w)
      else if n != 0 && r >= 1 then Beyond(pc, r) || (pc.AwaitSeg? && pc.r == r)
      else Beyond(pc, r) && pc != Base(r + 1)
    case _ => false
  }

  // Where a program is when it has scanned, or just begins, round r.
  predicate Scanned(c: Config, n: nat, pc: PC, r: nat) {
    pc == if n == 0 && 1 < c.nodes then Collect(r, 1) else SendSeg(r, 0)
  }

  predicate Begins(c: Config, n: nat, pc: PC, r: nat) {
    if r > c.Last() then pc == Done else if IsOdd(r) then pc == Base(r) else Scanned(c, n, pc, r)
  }

  lemma ComputeScans(c: Config, n: nat, l: Local, r: nat, query: set<nat>, rows: seq<CommitRow>)
    ensures Scanned(c, n, Compute(c, n, l, r, query, rows).pc, r)
  {
    hide AsCommits;
  }

  lemma StartBegins(c: Config, n: nat, l: Local, r: nat, rows: seq<CommitRow>)
    ensures Begins(c, n, StartRound(c, n, l, r, rows).pc, r)
  {
    ComputeScans(c, n, l, r, l.cur, rows);
    hide Compute;
  }

  lemma FinishBegins(c: Config, n: nat, l: Local, r: nat, rows: seq<CommitRow>)
    ensures Begins(c, n, FinishRound(c, n, l, r, rows).pc, r + 1)
  {
    var l' := if IsOdd(r) then l.(pSet := l.pSet + l.cur) else l.(uSet := l.uSet + l.cur);
    StartBegins(c, n, l', r + 1, rows);
    hide StartRound, Begins;
  }

  // The places of a program that LocalOk allows.
  predicate Placed(c: Config, n: nat, pc: PC)
    requires c.Valid()
  {
    match pc
    case InPut(f, s) => n == 0 && f < 3 && s <= c.Segments(f)
    case InWait(f) => n != 0 && f < 3
    case Base(r) => 1 <= r <= c.Last() && IsOdd(r)
    case BaseSeg(r, s) => 1 <= r <= c.Last() && IsOdd(r) && s < DeltaSegments(c, r - 1, 0)
    case Collect(r, i) => n == 0 && 1 <= r <= c.Last() && 1 <= i < c.nodes
    case CollectSeg(r, i, s) => n == 0 && 1 <= r <= c.Last() && 1 <= i < c.nodes && s < DeltaSegments(c, r, i)
    case SendSeg(r, s) => r <= c.Last() && (r == 0 ==> n == 0) && s < DeltaSegments(c, r, n)
    case SendFrame(r) => r <= c.Last() && (r == 0 ==> n == 0)
    case Await(r) => n != 0 && 1 <= r <= c.Last()
    case AwaitSeg(r, s) => n != 0 && 1 <= r <= c.Last() && s < DeltaSegments(c, r, 0)
    case Done => true
  }

  lemma OkIsPlaced(c: Config, n: nat, l: Local)
    requires c.Valid() && LocalOk(c, n, l)
    ensures Placed(c, n, l.pc)
  {
    hide RightRows, AfterScan, RightSet, BeforeScan, PartSet, FindsBelow, Finds, DeltaSegments, IsOdd;
  }

  // Where each operation leaves the program.
  predicate GoesOn(c: Config, n: nat, l: Local, pc: PC)
    requires c.Valid()
  {
    match l.pc
    case InPut(f, s) =>
      pc == if s < c.Segments(f) then InPut(f, s + 1) else if f < 2 then InPut(f + 1, 0) else SendSeg(0, 0)
    case SendSeg(r, s) => pc == if s + 1 < DeltaSegments(c, r, n) then SendSeg(r, s + 1) else SendFrame(r)
    case SendFrame(r) => if n != 0 then pc == Await(r) else Begins(c, n, pc, r + 1)
    case InWait(f) => if f < 2 then pc == InWait(f + 1) else Begins(c, n, pc, 1)
    case Base(r) => pc == BaseSeg(r, 0) || Scanned(c, n, pc, r)
    case BaseSeg(r, s) => (pc == BaseSeg(r, s + 1) && MoreAfter(c, l, s)) || Scanned(c, n, pc, r)
    case Collect(r, i) => pc == CollectSeg(r, i, 0) || Collected(c, pc, r, i)
    case CollectSeg(r, i, s) => (pc == CollectSeg(r, i, s + 1) && MoreAfter(c, l, s)) || Collected(c, pc, r, i)
    case Await(r) => pc == AwaitSeg(r, 0) || Begins(c, n, pc, r + 1)
    case AwaitSeg(r, s) => (pc == AwaitSeg(r, s + 1) && MoreAfter(c, l, s)) || Begins(c, n, pc, r + 1)
    case Done => false
  }

  predicate Collected(c: Config, pc: PC, r: nat, i: nat) {
    pc == if i + 1 < c.nodes then Collect(r, i + 1) else SendSeg(r, 0)
  }

  lemma PutGoesOn(c: Config, n: nat, l: Local, rows: seq<CommitRow>)
    requires c.Valid() && n < c.nodes && LocalOk(c, n, l) && NextOp(c, n, l).DoPut?
    ensures GoesOn(c, n, l, AfterPut(c, n, l, rows).pc)
  {
    hide RightRows, OutRows, AfterScan, RightSet, Begins, StartRound, FinishRound, BeforeScan, Reading;
    match l.pc
    case InPut(f, s) =>
    case SendSeg(r, s) => OffersRightRows(c, n, l, r);
    case SendFrame(r) =>
      if n == 0 {
        StartBegins(c, n, l, 1, rows);
        FinishBegins(c, n, l, r, rows);
      }
  }

  lemma ReadGoesOn(c: Config, n: nat, l: Local, v: Val, rows: seq<CommitRow>)
    requires c.Valid() && n < c.nodes && Placed(c, n, l.pc) && NextOp(c, n, l).DoRead?
    ensures GoesOn(c, n, l, AfterRead(c, n, l, v, rows).pc)
  {
    hide Compute, StartRound, FinishRound, Scanned, Begins, MoreAfter, MembersOf, RowsOf, DeltaSegments, SetSize, IsOdd;
    match l.pc
    case InWait(f) => StartBegins(c, n, l, 1, rows);
    case Base(r) => ComputeScans(c, n, l, r, {}, rows);
    case BaseSeg(r, s) =>
      var next := l.(cur := l.cur + MembersOf(v, l.nu));
      ComputeScans(c, n, next, r, next.cur, rows);
    case Collect(r, i) =>
    case CollectSeg(r, i, s) =>
    case Await(r) => FinishBegins(c, n, l, r, rows);
    case AwaitSeg(r, s) => FinishBegins(c, n, l.(cur := l.cur + MembersOf(v, SetSize(l, r))), r, rows);
  }

  function RoundOf(id: Id): int {
    match id
    case DeltaSeg(r, _, _) => r
    case DeltaFrame(r, _) => r
    case _ => -1
  }

  // At the beginning of a round exactly the earlier rounds are done and seen.
  lemma BeginsAfresh(c: Config, n: nat, pc: PC, r: nat, id: Id)
    requires c.Valid() && r >= 1 && Begins(c, n, pc, r)
    ensures ValidId(c, id) && WriterOf(id) == n ==> (PutDone(pc, id) <==> RoundOf(id) < r)
    ensures ReadsFrame(c, n, id) ==>
      (Seen(n, pc, id) <==> RoundOf(id) < r && !(id == DeltaFrame(r - 1, 0) && (n == 0 || r == 1)))
  {
    hide DeltaSegments, Config.Segments;
  }

  lemma ScansAfresh(c: Config, n: nat, pc: PC, r: nat, id: Id)
    requires c.Valid() && 1 <= r <= c.Last() && Scanned(c, n, pc, r)
    ensures ValidId(c, id) && WriterOf(id) == n ==> (PutDone(pc, id) <==> RoundOf(id) < r)
    ensures ReadsFrame(c, n, id) ==> (Seen(n, pc, id) <==> RoundOf(id) < r)
  {
    hide DeltaSegments, Config.Segments;
  }

  // A put makes exactly its own key done, and for the first time; a read none.
  lemma PutsAdvance(c: Config, n: nat, l: Local, pc: PC, id: Id)
    requires c.Valid() && n < c.nodes && Placed(c, n, l.pc) && GoesOn(c, n, l, pc)
    requires ValidId(c, id) && WriterOf(id) == n
    ensures var op := NextOp(c, n, l);
      PutDone(pc, id) <==> PutDone(l.pc, id) || (op.DoPut? && op.id == id)
  {
    if NextOp(c, n, l).DoPut? { PutMakesDone(c, n, l, pc, id); } else { ReadMakesNoneDone(c, n, l, pc, id); }
    hide *;
  }

  lemma PutMakesDone(c: Config, n: nat, l: Local, pc: PC, id: Id)
    requires c.Valid() && n < c.nodes && Placed(c, n, l.pc) && GoesOn(c, n, l, pc) && NextOp(c, n, l).DoPut?
    requires ValidId(c, id) && WriterOf(id) == n
    ensures PutDone(pc, id) <==> PutDone(l.pc, id) || NextOp(c, n, l).id == id
  {
    hide OutRows, DeltaSegments, Segment, MoreAfter, Config.Segments, Begins, Scanned, IsOdd, InputSeg;
    match l.pc
    case InPut(f, s) =>
    case SendSeg(r, s) =>
    case SendFrame(r) => if n == 0 { BeginsAfresh(c, n, pc, r + 1, id); }
    case _ =>
  }

  lemma ReadMakesNoneDone(c: Config, n: nat, l: Local, pc: PC, id: Id)
    requires c.Valid() && n < c.nodes && Placed(c, n, l.pc) && GoesOn(c, n, l, pc) && !NextOp(c, n, l).DoPut?
    requires ValidId(c, id) && WriterOf(id) == n
    ensures PutDone(pc, id) <==> PutDone(l.pc, id)
  {
    if l.pc.Collect? || l.pc.CollectSeg? {
      CollectMakesNoneDone(c, n, l, pc, id);
    } else {
      OtherReadMakesNoneDone(c, n, l, pc, id);
    }
    hide *;
  }

  lemma CollectMakesNoneDone(c: Config, n: nat, l: Local, pc: PC, id: Id)
    requires c.Valid() && Placed(c, n, l.pc) && GoesOn(c, n, l, pc) && (l.pc.Collect? || l.pc.CollectSeg?)
    requires ValidId(c, id) && WriterOf(id) == n
    ensures PutDone(pc, id) <==> PutDone(l.pc, id)
  {
    hide DeltaSegments, MoreAfter, Config.Segments, IsOdd;
  }

  lemma OtherReadMakesNoneDone(c: Config, n: nat, l: Local, pc: PC, id: Id)
    requires c.Valid() && n < c.nodes && Placed(c, n, l.pc) && GoesOn(c, n, l, pc) && !NextOp(c, n, l).DoPut?
    requires !l.pc.Collect? && !l.pc.CollectSeg? && ValidId(c, id) && WriterOf(id) == n
    ensures PutDone(pc, id) <==> PutDone(l.pc, id)
  {
    hide OutRows, DeltaSegments, Segment, MoreAfter, Config.Segments, Begins, Scanned, IsOdd, InputSeg;
    match l.pc
    case InWait(f) => if f == 2 { BeginsAfresh(c, n, pc, 1, id); }
    case Base(r) => if pc != BaseSeg(r, 0) { ScansAfresh(c, n, pc, r, id); }
    case BaseSeg(r, s) => if pc != BaseSeg(r, s + 1) { ScansAfresh(c, n, pc, r, id); }
    case Await(r) => if pc != AwaitSeg(r, 0) { BeginsAfresh(c, n, pc, r + 1, id); }
    case AwaitSeg(r, s) => if pc != AwaitSeg(r, s + 1) { BeginsAfresh(c, n, pc, r + 1, id); }
    case _ =>
  }

  lemma PutIsNew(c: Config, n: nat, l: Local)
    requires c.Valid() && n < c.nodes && Placed(c, n, l.pc) && NextOp(c, n, l).DoPut?
    ensures var id := NextOp(c, n, l).id;
      ValidId(c, id) && WriterOf(id) == n && !PutDone(l.pc, id)
  {
    hide OutRows, DeltaSegments, Segment, Config.Segments;
  }

  // A read sees exactly its own frame; a put none.
  lemma ReadsAdvance(c: Config, n: nat, l: Local, pc: PC, id: Id)
    requires c.Valid() && n < c.nodes && Placed(c, n, l.pc) && GoesOn(c, n, l, pc)
    requires ReadsFrame(c, n, id)
    ensures var op := NextOp(c, n, l);
      Seen(n, pc, id) <==> Seen(n, l.pc, id) || (op.DoRead? && op.id == id)
  {
    if NextOp(c, n, l).DoPut? { PutSeesNone(c, n, l, pc, id); } else { ReadSees(c, n, l, pc, id); }
    hide *;
  }

  lemma PutSeesNone(c: Config, n: nat, l: Local, pc: PC, id: Id)
    requires c.Valid() && n < c.nodes && Placed(c, n, l.pc) && GoesOn(c, n, l, pc) && NextOp(c, n, l).DoPut?
    requires ReadsFrame(c, n, id)
    ensures Seen(n, pc, id) <==> Seen(n, l.pc, id)
  {
    hide OutRows, DeltaSegments, Segment, MoreAfter, Config.Segments, Begins, Scanned, InputSeg;
    match l.pc
    case InPut(f, s) =>
    case SendSeg(r, s) =>
    case SendFrame(r) => if n == 0 { BeginsAfresh(c, n, pc, r + 1, id); }
    case _ =>
  }

  lemma ReadSees(c: Config, n: nat, l: Local, pc: PC, id: Id)
    requires c.Valid() && n < c.nodes && Placed(c, n, l.pc) && GoesOn(c, n, l, pc) && !NextOp(c, n, l).DoPut?
    requires ReadsFrame(c, n, id)
    ensures Seen(n, pc, id) <==> Seen(n, l.pc, id) || (NextOp(c, n, l).DoRead? && NextOp(c, n, l).id == id)
  {
    if l.pc.Collect? || l.pc.CollectSeg? { CollectSees(c, n, l, pc, id); } else { OtherReadSees(c, n, l, pc, id); }
    hide *;
  }

  lemma CollectSees(c: Config, n: nat, l: Local, pc: PC, id: Id)
    requires c.Valid() && Placed(c, n, l.pc) && GoesOn(c, n, l, pc) && (l.pc.Collect? || l.pc.CollectSeg?)
    requires ReadsFrame(c, n, id)
    ensures Seen(n, pc, id) <==> Seen(n, l.pc, id) || NextOp(c, n, l).id == id
  {
    hide OutRows, DeltaSegments, Segment, MoreAfter, Config.Segments, InputSeg;
  }

  lemma OtherReadSees(c: Config, n: nat, l: Local, pc: PC, id: Id)
    requires c.Valid() && n < c.nodes && Placed(c, n, l.pc) && GoesOn(c, n, l, pc) && !NextOp(c, n, l).DoPut?
    requires !l.pc.Collect? && !l.pc.CollectSeg? && ReadsFrame(c, n, id)
    ensures Seen(n, pc, id) <==> Seen(n, l.pc, id) || (NextOp(c, n, l).DoRead? && NextOp(c, n, l).id == id)
  {
    hide OutRows, DeltaSegments, Segment, MoreAfter, Config.Segments, Begins, Scanned, InputSeg;
    match l.pc
    case InWait(f) => if f == 2 { BeginsAfresh(c, n, pc, 1, id); }
    case Base(r) => if pc != BaseSeg(r, 0) { ScansAfresh(c, n, pc, r, id); }
    case BaseSeg(r, s) => if pc != BaseSeg(r, s + 1) { ScansAfresh(c, n, pc, r, id); }
    case Await(r) => if pc != AwaitSeg(r, 0) { BeginsAfresh(c, n, pc, r + 1, id); }
    case AwaitSeg(r, s) => if pc != AwaitSeg(r, s + 1) { BeginsAfresh(c, n, pc, r + 1, id); }
    case _ =>
  }

  lemma FrameIsRead(c: Config, n: nat, l: Local)
    requires c.Valid() && n < c.nodes && Placed(c, n, l.pc) && NextOp(c, n, l).DoRead?
    ensures var id := NextOp(c, n, l).id;
      ValidId(c, id) && (id.InFrame? || id.DeltaFrame? ==> ReadsFrame(c, n, id))
  {
    hide OutRows, DeltaSegments, Segment, Config.Segments;
  }
}
