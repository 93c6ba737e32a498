// What holds in every run of the Linus application, under every schedule and
// for sets of any size.

module LinusTheorems {
  import opened Segments
  import opened Search
  import opened Protocol
  import opened Runs
  import opened Publishing
  import opened TagSets
  import opened LinusModel
  import opened LinusLocal
  import opened LinusSystem

  predicate HasSegments(c: Config, n: nat, store: map<Id, Val>)
    requires c.Valid()
  {
    forall s: nat | s < c.Segments(2) && NodeOf(s, c.nodes) == n :: InSeg(2, s) in store
  }

  // The thread that waits for a reply asked what its program is at.
  predicate AsksAsProgrammed(c: Config, s: Sys, n: nat)
    requires c.Valid()
  {
    var app, op := s.net.AppOf(n), OpOf(c, s, n);
    app.Asking? ==> op.DoRead? && app.key == KeyOf(c, op.id) && app.key.home != n
  }

  ghost predicate NodeRight(c: Config, s: Sys, n: nat)
    requires c.Valid()
  {
    var pc := s.LocalOf(c, n).pc;
    && LocalOk(c, n, s.LocalOf(c, n))
    && AsksAsProgrammed(c, s, n)
    && (n != 0 && !pc.InPut? && !pc.InWait? ==> HasSegments(c, n, s.net.Store(n)))
  }

  ghost predicate AllRight(c: Config, e: Execution, t: nat)
    requires c.Valid()
  {
    t < |e.states| && forall x: nat, n: nat | x <= t && n < c.nodes :: NodeRight(c, e.states[x], n)
  }

  ghost predicate Writes(c: Config, e: Execution, x: nat, id: Id)
    requires c.Valid() && IsExecution(c, e) && x < |e.steps|
  {
    && e.steps[x].Act?
    && var op := OpOf(c, e.states[x], e.steps[x].n); op.DoPut? && op.id == id
  }

  function PlaceOf(c: Config, s: Sys, n: nat): PC {
    s.LocalOf(c, n).pc
  }

  // -------------------------------------------------- programs and their steps

  lemma ProgramMoves(c: Config, s: Sys, n: nat)
    requires c.Valid() && n < c.nodes && LocalOk(c, n, s.LocalOf(c, n)) && CanDo(c, s, Act(n))
    ensures Placed(c, n, PlaceOf(c, s, n))
    ensures if NetStep(c, s, n).Ask? then LocalAfter(c, s, n) == s.LocalOf(c, n)
            else GoesOn(c, n, s.LocalOf(c, n), LocalAfter(c, s, n).pc)
  {
    var l, rows := s.LocalOf(c, n), RowsHere(c, s, n);
    OkIsPlaced(c, n, l);
    if OpOf(c, s, n).DoPut? {
      PutGoesOn(c, n, l, rows);
    } else if s.net.AppOf(n).Asking? {
      ReadGoesOn(c, n, l, s.net.Replies(n, s.net.AppOf(n).key.home)[0], rows);
    } else if !NetStep(c, s, n).Ask? {
      ReadGoesOn(c, n, l, s.net.Store(n)[OpOf(c, s, n).id], rows);
    }
    hide LocalOk, Placed, GoesOn, AfterPut, AfterRead, NextOp, RowsHere;
  }

  // One step's effect on what is done and seen.
  lemma DoneAfterStep(c: Config, s: Sys, st: SysStep, id: Id)
    requires c.Valid() && CanDo(c, s, st) && ValidId(c, id) && WriterOf(id) < c.nodes
    requires NodeRight(c, s, WriterOf(id))
    ensures var w := WriterOf(id);
      PutDone(PlaceOf(c, Do(c, s, st), w), id)
      <==> PutDone(PlaceOf(c, s, w), id) || (st == Act(w) && OpOf(c, s, w).DoPut? && OpOf(c, s, w).id == id)
  {
    var w := WriterOf(id);
    LocalsAfter(c, s, st, w);
    if st == Act(w) {
      ProgramMoves(c, s, w);
      hide LocalOk, NextOp, LocalAfter, PutDone, GoesOn, Placed, ValidId, WriterOf, Enabled;
      if !NetStep(c, s, w).Ask? { PutsAdvance(c, w, s.LocalOf(c, w), LocalAfter(c, s, w).pc, id); }
    }
    hide *;
  }

  lemma SeenAfterStep(c: Config, s: Sys, st: SysStep, n: nat, id: Id)
    requires c.Valid() && CanDo(c, s, st) && n < c.nodes && ReadsFrame(c, n, id) && NodeRight(c, s, n)
    ensures Seen(n, PlaceOf(c, s, n), id) ==> Seen(n, PlaceOf(c, Do(c, s, st), n), id)
    ensures Seen(n, PlaceOf(c, Do(c, s, st), n), id) && !Seen(n, PlaceOf(c, s, n), id) ==>
      st == Act(n) && OpOf(c, s, n).DoRead? && OpOf(c, s, n).id == id && !NetStep(c, s, n).Ask?
    ensures st == Act(n) && OpOf(c, s, n).DoRead? && OpOf(c, s, n).id == id && !NetStep(c, s, n).Ask? ==>
      Seen(n, PlaceOf(c, Do(c, s, st), n), id)
  {
    LocalsAfter(c, s, st, n);
    if st == Act(n) {
      ProgramMoves(c, s, n);
      hide LocalOk, NextOp, LocalAfter, Seen, GoesOn, Placed, ReadsFrame, Enabled;
      if !NetStep(c, s, n).Ask? { ReadsAdvance(c, n, s.LocalOf(c, n), LocalAfter(c, s, n).pc, id); }
    }
    hide *;
  }

  // ------------------------------------------------------ what happened before

  lemma NothingDoneAtFirst(c: Config, id: Id)
    requires c.Valid() && ValidId(c, id)
    ensures !PutDone(Start(c, WriterOf(id)).pc, id)
  {
  }

  lemma {:induction false} WrittenBefore(c: Config, e: Execution, t: nat, id: Id) returns (a: nat)
    requires c.Valid() && IsExecution(c, e) && AllRight(c, e, t)
    requires ValidId(c, id) && WriterOf(id) < c.nodes && PutDone(PlaceOf(c, e.states[t], WriterOf(id)), id)
    ensures a < t && Writes(c, e, a, id) && e.steps[a] == Act(WriterOf(id))
  {
    hide LocalOk, PutDone, ValidId, NextOp, Do, CanDo, WriterOf, HasSegments, AsksAsProgrammed;
    a := 0;
    if t == 0 {
      NothingDoneAtFirst(c, id);
    } else {
      DoneAfterStep(c, e.states[t - 1], e.steps[t - 1], id);
      if PutDone(PlaceOf(c, e.states[t - 1], WriterOf(id)), id) {
        a := WrittenBefore(c, e, t - 1, id);
      } else {
        a := t - 1;
      }
    }
  }

  lemma {:induction false} DoneStays(c: Config, e: Execution, a: nat, t: nat, id: Id)
    requires c.Valid() && IsExecution(c, e) && AllRight(c, e, t) && a <= t
    requires ValidId(c, id) && WriterOf(id) < c.nodes && PutDone(PlaceOf(c, e.states[a], WriterOf(id)), id)
    ensures PutDone(PlaceOf(c, e.states[t], WriterOf(id)), id)
    decreases t
  {
    hide LocalOk, PutDone, ValidId, NextOp, Do, CanDo, WriterOf, HasSegments, AsksAsProgrammed;
    if a < t {
      DoneStays(c, e, a, t - 1, id);
      DoneAfterStep(c, e.states[t - 1], e.steps[t - 1], id);
    }
  }

  // A program puts right values, each under its own key and for the first time.
  lemma WriteIsRight(c: Config, e: Execution, x: nat, id: Id)
    requires c.Valid() && IsExecution(c, e) && x < |e.steps| && AllRight(c, e, x) && Writes(c, e, x, id)
    ensures ValidId(c, id) && WriterOf(id) < c.nodes && e.steps[x] == Act(WriterOf(id))
    ensures RunOf(c, e).steps[x] == PutOp(WriterOf(id), KeyOf(c, id), ValueOf(c, id))
    ensures !PutDone(PlaceOf(c, e.states[x], WriterOf(id)), id)
    ensures PutDone(PlaceOf(c, e.states[x + 1], WriterOf(id)), id)
  {
    var s, n := e.states[x], e.steps[x].n;
    assert CanDo(c, s, Act(n)) && NodeRight(c, s, n);
    var l := s.LocalOf(c, n);
    OkIsPlaced(c, n, l);
    PutIsNew(c, n, l);
    PutIsRight(c, n, l);
    hide LocalOk, PutDone, ValidId, NextOp, Do, WriterOf, HasSegments, AsksAsProgrammed, ValueOf, Placed, KeyOf,
      AfterPut;
    DoneAfterStep(c, s, Act(n), id);
  }

  // Every put of the run is such a write.
  lemma PutIsWrite(c: Config, e: Execution, x: nat)
    requires c.Valid() && IsExecution(c, e) && x < |e.steps| && RunOf(c, e).steps[x].PutOp?
    ensures Writes(c, e, x, RunOf(c, e).steps[x].key.id)
  {
    assert CanDo(c, e.states[x], e.steps[x]);
    hide NextOp, KeyOf, Enabled, RunOf;
  }

  lemma DoneAfterWrite(c: Config, e: Execution, a: nat, t: nat, id: Id)
    requires c.Valid() && IsExecution(c, e) && AllRight(c, e, t) && a < t && Writes(c, e, a, id)
    ensures ValidId(c, id) && WriterOf(id) < c.nodes && PutDone(PlaceOf(c, e.states[t], WriterOf(id)), id)
  {
    WriteIsRight(c, e, a, id);
    DoneStays(c, e, a + 1, t, id);
    hide *;
  }

  lemma WrittenOnce(c: Config, e: Execution, a: nat, b: nat, id: Id)
    requires c.Valid() && IsExecution(c, e) && a < |e.steps| && b < |e.steps|
    requires AllRight(c, e, a) && AllRight(c, e, b) && Writes(c, e, a, id) && Writes(c, e, b, id)
    ensures a == b
  {
    hide LocalOk, PutDone, ValidId, NextOp, Do, WriterOf, HasSegments, AsksAsProgrammed, KeyOf, Writes, ValueOf, CanDo;
    WriteIsRight(c, e, a, id);
    WriteIsRight(c, e, b, id);
    if a < b { DoneAfterWrite(c, e, a, b, id); }
    if b < a { DoneAfterWrite(c, e, b, a, id); }
  }

  lemma {:induction false} SeenBefore(c: Config, e: Execution, t: nat, n: nat, id: Id) returns (a: nat)
    requires c.Valid() && IsExecution(c, e) && AllRight(c, e, t) && n < c.nodes
    requires ReadsFrame(c, n, id) && Seen(n, PlaceOf(c, e.states[t], n), id)
    ensures a < t && e.steps[a] == Act(n) && OpOf(c, e.states[a], n).DoRead? && OpOf(c, e.states[a], n).id == id
    ensures !NetStep(c, e.states[a], n).Ask?
  {
    hide LocalOk, NextOp, Do, HasSegments, AsksAsProgrammed, ReadsFrame, Enabled;
    a := 0;
    if t == 0 {
      assert PlaceOf(c, e.states[0], n) == Start(c, n).pc;
      NothingSeenAtFirst(c, n, id);
    } else {
      hide Seen;
      SeenAfterStep(c, e.states[t - 1], e.steps[t - 1], n, id);
      if Seen(n, PlaceOf(c, e.states[t - 1], n), id) {
        a := SeenBefore(c, e, t - 1, n, id);
      } else {
        a := t - 1;
      }
    }
  }

  lemma NothingSeenAtFirst(c: Config, n: nat, id: Id)
    requires c.Valid() && n < c.nodes && ReadsFrame(c, n, id)
    ensures !Seen(n, Start(c, n).pc, id)
  {
  }

  // A read that is not only asked for gives the program the key's value.
  lemma ReadObtains(c: Config, e: Execution, t: nat, n: nat)
    requires c.Valid() && IsExecution(c, e) && t < |e.steps| && e.steps[t] == Act(n) && n < c.nodes
    requires AsksAsProgrammed(c, e.states[t], n) && OpOf(c, e.states[t], n).DoRead? && !NetStep(c, e.states[t], n).Ask?
    ensures IsRun(RunOf(c, e)) && Obtains(RunOf(c, e), t, n, KeyOf(c, OpOf(c, e.states[t], n).id))
  {
    RunOfIsRun(c, e);
    assert CanDo(c, e.states[t], e.steps[t]);
    hide NextOp, KeyOf, IsRun, RunOf;
  }

  // ------------------------------------------------------- stored is right

  lemma StoredIsRight(c: Config, e: Execution, t: nat, j: nat, id: Id)
    requires c.Valid() && IsExecution(c, e) && AllRight(c, e, t) && id in e.states[t].net.Store(j)
    ensures ValidId(c, id) && WriterOf(id) < c.nodes && HomeOf(c, id) == j
    ensures e.states[t].net.Store(j)[id] == ValueOf(c, id)
    ensures PutDone(PlaceOf(c, e.states[t], WriterOf(id)), id)
  {
    var r := RunOf(c, e);
    RunOfIsRun(c, e);
    var n, x := StoredWasPut(r, t, j, id);
    PutIsWrite(c, e, x);
    WriteIsRight(c, e, x, id);
    hide LocalOk, PutDone, ValidId, NextOp, Do, WriterOf, HasSegments, AsksAsProgrammed, ValueOf, Writes, CanDo, IsRun,
      HomeOf, RunOf, Handled;
    DoneAfterWrite(c, e, x, t, id);
  }

  // The value that a step gives to the program at n.
  ghost predicate Reads(c: Config, s: Sys, n: nat, v: Val)
    requires c.Valid()
  {
    && CanDo(c, s, Act(n)) && OpOf(c, s, n).DoRead?
    && match NetStep(c, s, n)
       case ReadLocal(_, key) => v == s.net.Store(n)[key.id]
       case TakeReply(_) => v == s.net.Replies(n, s.net.AppOf(n).key.home)[0]
       case _ => false
  }

  lemma ReadValueIsRight(c: Config, e: Execution, t: nat, n: nat, v: Val)
    requires c.Valid() && IsExecution(c, e) && t < |e.steps| && AllRight(c, e, t) && e.steps[t] == Act(n)
    requires Reads(c, e.states[t], n, v)
    ensures var id := OpOf(c, e.states[t], n).id;
      && v == ValueOf(c, id) && ValidId(c, id) && WriterOf(id) < c.nodes
      && PutDone(PlaceOf(c, e.states[t], WriterOf(id)), id)
  {
    hide LocalOk, PutDone, ValidId, NextOp, Do, WriterOf, HasSegments, ValueOf, HomeOf, RunOf;
    var s, r := e.states[t], RunOf(c, e);
    var id := OpOf(c, s, n).id;
    assert NodeRight(c, s, n);
    if s.net.AppOf(n).Asking? {
      RunOfIsRun(c, e);
      ReplyAnswersTheQuestion(r, t, n);
      var m := s.net.AppOf(n).key.home;
      var q: nat :| q < t && id in r.states[q].Store(m) && r.states[q].Store(m)[id] == s.net.Replies(n, m)[0];
      StoredIsRight(c, e, q, m, id);
      DoneStays(c, e, q, t, id);
    } else {
      StoredIsRight(c, e, t, n, id);
    }
  }

  // ----------------------------------------------------------- input segments

  // Node 0 has its own commit segments once the inputs are out.
  lemma HubHasInputs(c: Config, e: Execution, t: nat)
    requires c.Valid() && IsExecution(c, e) && AllRight(c, e, t) && !PlaceOf(c, e.states[t], 0).InPut?
    ensures HasSegments(c, 0, e.states[t].net.Store(0))
  {
    RunOfIsRun(c, e);
    hide LocalOk, Do, AsksAsProgrammed, RunOf, IsRun, CanDo;
    forall x: nat | x < c.Segments(2) && NodeOf(x, c.nodes) == 0 ensures InSeg(2, x) in e.states[t].net.Store(0) {
      hide NextOp, Config.Segments;
      var a := WrittenBefore(c, e, t, InSeg(2, x));
      WriteIsRight(c, e, a, InSeg(2, x));
      LocalPutIsStored(RunOf(c, e), a, t);
    }
  }

  // Whoever puts a frame has put its segments.
  predicate SegmentOf(seg: Id, frame: Id) {
    match frame
    case InFrame(f) => seg.InSeg? && seg.f == f
    case DeltaFrame(r, w) => seg.DeltaSeg? && seg.round == r && seg.node == w
    case _ => false
  }

  lemma FrameIsAfterSegments(c: Config, n: nat, s: Sys, frame: Id, seg: Id)
    requires c.Valid() && n < c.nodes && LocalOk(c, n, s.LocalOf(c, n))
    requires OpOf(c, s, n).DoPut? && OpOf(c, s, n).id == frame && SegmentOf(seg, frame) && ValidId(c, seg)
    ensures WriterOf(seg) == n && PutDone(PlaceOf(c, s, n), seg)
  {
    OkIsPlaced(c, n, s.LocalOf(c, n));
    hide LocalOk, OutRows, DeltaSegments, Config.Segments, InputSeg, Segment;
  }

  // When a frame has been read, its writer had put it, once, after its segments.
  lemma FrameWasPublished(c: Config, e: Execution, t: nat, n: nat, seg: Id) returns (a: nat, b: nat)
    requires c.Valid() && IsExecution(c, e) && t < |e.steps| && AllRight(c, e, t) && n < c.nodes
    requires e.steps[t] == Act(n) && OpOf(c, e.states[t], n).DoRead? && !NetStep(c, e.states[t], n).Ask?
    requires var frame := OpOf(c, e.states[t], n).id;
      SegmentOf(seg, frame) && ValidId(c, seg) && WriterOf(seg) == WriterOf(frame)
    ensures IsRun(RunOf(c, e))
    ensures var frame := OpOf(c, e.states[t], n).id;
      && PublishedBefore(RunOf(c, e), WriterOf(frame), KeyOf(c, seg), KeyOf(c, frame), a, b, t)
      && Obtains(RunOf(c, e), t, n, KeyOf(c, frame))
  {
    hide LocalOk, PutDone, ValidId, NextOp, Do, HasSegments, AsksAsProgrammed, ValueOf, RunOf, HomeOf, CanDo;
    var frame := OpOf(c, e.states[t], n).id;
    assert NodeRight(c, e.states[t], n) && seg != frame;
    hide WriterOf, NodeRight;
    ReadObtains(c, e, t, n);
    hide NetStep;
    var q := FrameWasRead(RunOf(c, e), t, n, KeyOf(c, frame));
    hide Obtains, IsRun, Writes, SegmentOf;
    StoredIsRight(c, e, q, HomeOf(c, frame), frame);
    b := WrittenBefore(c, e, q, frame);
    a := WrittenFirst(c, e, b, frame, seg);
    WriteIsRight(c, e, b, frame);
    WriteIsRight(c, e, a, seg);
    PutOnce(c, e, t, b, frame);
  }

  lemma PutOnce(c: Config, e: Execution, t: nat, b: nat, id: Id)
    requires c.Valid() && IsExecution(c, e) && t < |e.steps| && AllRight(c, e, t) && b < t && Writes(c, e, b, id)
    ensures forall y | 0 <= y < t && RunOf(c, e).steps[y].PutOp? && RunOf(c, e).steps[y].key == KeyOf(c, id) :: y == b
  {
    hide RunOf, Writes, NodeRight;
    forall y | 0 <= y < t && RunOf(c, e).steps[y].PutOp? && RunOf(c, e).steps[y].key == KeyOf(c, id) ensures y == b {
      PutIsWrite(c, e, y);
      WrittenOnce(c, e, y, b, id);
    }
  }

  lemma WrittenFirst(c: Config, e: Execution, b: nat, frame: Id, seg: Id) returns (a: nat)
    requires c.Valid() && IsExecution(c, e) && b < |e.steps| && AllRight(c, e, b) && Writes(c, e, b, frame)
    requires SegmentOf(seg, frame) && ValidId(c, seg)
    ensures a < b && Writes(c, e, a, seg)
  {
    WriteIsRight(c, e, b, frame);
    assert NodeRight(c, e.states[b], e.steps[b].n);
    hide LocalOk, PutDone, ValidId, NextOp, Do, HasSegments, AsksAsProgrammed, ValueOf, RunOf, HomeOf, CanDo, SegmentOf;
    FrameIsAfterSegments(c, e.steps[b].n, e.states[b], frame, seg);
    a := WrittenBefore(c, e, b, seg);
  }

  // What node 0 put before it put the commits frame has come when the frame has.
  lemma InputSegmentArrives(c: Config, e: Execution, t: nat, n: nat, x: nat)
    requires c.Valid() && IsExecution(c, e) && t < |e.steps| && AllRight(c, e, t) && 0 < n < c.nodes
    requires e.steps[t] == Act(n) && OpOf(c, e.states[t], n) == DoRead(InFrame(2), true)
    requires !NetStep(c, e.states[t], n).Ask? && x < c.Segments(2) && NodeOf(x, c.nodes) == n
    ensures InSeg(2, x) in e.states[t].net.Store(n)
  {
    hide LocalOk, PutDone, NextOp, Do, HasSegments, AsksAsProgrammed, RunOf, NetStep, CanDo, Obtains, IsRun,
      PublishedBefore;
    var a, b := FrameWasPublished(c, e, t, n, InSeg(2, x));
    SegmentIsStored(RunOf(c, e), 0, KeyOf(c, InSeg(2, x)), KeyOf(c, InFrame(2)), a, b, t, n);
  }

  lemma {:induction false} RowsUpToAreRight(c: Config, n: nat, store: map<Id, Val>, upTo: nat)
    requires c.Valid() && upTo <= c.Segments(2) && HasSegments(c, n, store)
    requires forall id | id in store :: store[id] == ValueOf(c, id)
    ensures RowsIn(c, n, store, upTo) == LocalRows(c, n, upTo)
  {
    hide Segment, NodeOf;
    if upTo > 0 {
      RowsUpToAreRight(c, n, store, upTo - 1);
      var id := InSeg(2, upTo - 1);
      assert ValueOf(c, id) == Commits(Segment(c.commits, upTo - 1, c.cap));
      assert NodeOf(upTo - 1, c.nodes) == n ==> id in store;
    }
  }

  // local_map on a node that has its segments sees its rows.
  lemma RowsAreRight(c: Config, e: Execution, t: nat, n: nat)
    requires c.Valid() && IsExecution(c, e) && AllRight(c, e, t)
    requires HasSegments(c, n, e.states[t].net.Store(n))
    ensures RowsHere(c, e.states[t], n) == RowsAt(c, n)
  {
    var store := e.states[t].net.Store(n);
    forall id | id in store ensures store[id] == ValueOf(c, id) { StoredIsRight(c, e, t, n, id); }
    RowsUpToAreRight(c, n, store, c.Segments(2));
    hide LocalRows, RowsIn;
  }

  // --------------------------------------------------------------- induction

  // Only the end of a round and a scan look at the rows.
  lemma RowsUnused(c: Config, n: nat, l: Local, v: Val, rows: seq<CommitRow>, rows': seq<CommitRow>)
    requires c.Valid()
    ensures !l.pc.SendFrame? || n != 0 ==> AfterPut(c, n, l, rows) == AfterPut(c, n, l, rows')
    ensures l.pc.InWait? && l.pc.f < 2 ==> AfterRead(c, n, l, v, rows) == AfterRead(c, n, l, v, rows')
  {
    hide StartRound, FinishRound, Compute, OutRows, SegmentCount;
  }

  lemma RowsWhenNeeded(c: Config, e: Execution, t: nat, n: nat)
    requires c.Valid() && IsExecution(c, e) && t < |e.steps| && AllRight(c, e, t) && n < c.nodes && e.steps[t] == Act(n)
    requires !NetStep(c, e.states[t], n).Ask?
    requires var pc := PlaceOf(c, e.states[t], n); !pc.InPut? && !(pc.InWait? && pc.f < 2)
    ensures HasSegments(c, n, e.states[t].net.Store(n))
    ensures RowsHere(c, e.states[t], n) == RowsAt(c, n)
  {
    var s := e.states[t];
    assert NodeRight(c, s, n);
    OkIsPlaced(c, n, s.LocalOf(c, n));
    if n == 0 {
      HubHasInputs(c, e, t);
    } else if PlaceOf(c, s, n).InWait? {
      assert OpOf(c, s, n) == DoRead(InFrame(2), true);
      forall x: nat | x < c.Segments(2) && NodeOf(x, c.nodes) == n ensures InSeg(2, x) in s.net.Store(n) {
        InputSegmentArrives(c, e, t, n, x);
      }
    }
    RowsAreRight(c, e, t, n);
    hide *;
  }

  lemma LocalStaysRight(c: Config, e: Execution, t: nat, n: nat)
    requires c.Valid() && IsExecution(c, e) && t < |e.steps| && AllRight(c, e, t) && n < c.nodes && e.steps[t] == Act(n)
    ensures CanDo(c, e.states[t], Act(n)) && LocalOk(c, n, LocalAfter(c, e.states[t], n))
  {
    var s := e.states[t];
    var l, rows := s.LocalOf(c, n), RowsHere(c, s, n);
    assert NodeRight(c, s, n) && CanDo(c, s, Act(n));
    hide LocalOk, RowsHere, RowsAt, NextOp, ValueOf, AfterPut, AfterRead, HasSegments, AsksAsProgrammed, KeyOf, Do;
    if !NetStep(c, s, n).Ask? {
      var early := l.pc.InPut? || (l.pc.InWait? && l.pc.f < 2);
      if !early { RowsWhenNeeded(c, e, t, n); }
      if OpOf(c, s, n).DoPut? {
        PutIsRight(c, n, l);
        RowsUnused(c, n, l, Other, rows, RowsAt(c, n));
      } else {
        var v :=
          if s.net.AppOf(n).Asking? then s.net.Replies(n, s.net.AppOf(n).key.home)[0]
          else s.net.Store(n)[OpOf(c, s, n).id];
        ReadValueIsRight(c, e, t, n, v);
        ReadIsRight(c, n, l);
        RowsUnused(c, n, l, v, rows, RowsAt(c, n));
      }
    }
  }

  // An application thread asks only when its own step says so.
  lemma AppAfter(c: Config, s: Sys, st: SysStep, n: nat)
    requires c.Valid() && CanDo(c, s, st) && AsksAsProgrammed(c, s, n)
    ensures AsksAsProgrammed(c, Do(c, s, st), n)
  {
    LocalsAfter(c, s, st, n);
    hide NextOp, AfterPut, AfterRead, RowsHere, HomeOf, LocalAfter, Do;
    StepIsProtocolStep(c, s, st);
    if st == Act(n) {
      OwnAppAfter(c, s, n);
    } else {
      OtherAppAfter(s.net, ToStep(c, s, st), n);
    }
  }

  lemma OwnAppAfter(c: Config, s: Sys, n: nat)
    requires c.Valid() && CanDo(c, s, Act(n)) && AsksAsProgrammed(c, s, n)
    ensures var app := Apply(s.net, NetStep(c, s, n)).AppOf(n);
      if NetStep(c, s, n).Ask? then
        && LocalAfter(c, s, n) == s.LocalOf(c, n) && OpOf(c, s, n).DoRead?
        && app == Asking(KeyOf(c, OpOf(c, s, n).id)) && HomeOf(c, OpOf(c, s, n).id) != n
      else app.Running?
  {
    hide NextOp, AfterPut, AfterRead, RowsHere, HomeOf;
  }

  lemma OtherAppAfter<I, V>(net: Net<I, V>, st: Step<I, V>, n: nat)
    requires Enabled(net, st) && (st.Handle? || st.n != n)
    ensures Apply(net, st).AppOf(n) == net.AppOf(n)
  {
  }

  lemma NodeStaysRight(c: Config, e: Execution, t: nat, n: nat)
    requires c.Valid() && IsExecution(c, e) && t < |e.steps| && AllRight(c, e, t) && n < c.nodes
    ensures NodeRight(c, e.states[t + 1], n)
  {
    var s, s', st := e.states[t], e.states[t + 1], e.steps[t];
    assert NodeRight(c, s, n) && CanDo(c, s, st);
    AppAfter(c, s, st, n);
    LocalsAfter(c, s, st, n);
    RunOfIsRun(c, e);
    hide LocalOk, NextOp, RowsHere, RowsAt, AsksAsProgrammed, Do, CanDo, LocalAfter, RunOf, IsRun, Apply, Enabled;
    if st == Act(n) {
      LocalStaysRight(c, e, t, n);
      ProgramMoves(c, s, n);
    }
    var pc' := PlaceOf(c, s', n);
    if n != 0 && !pc'.InPut? && !pc'.InWait? {
      if PlaceOf(c, s, n).InPut? || PlaceOf(c, s, n).InWait? {
        LeavesInputs(c, e, t, n);
        RowsWhenNeeded(c, e, t, n);
      }
      forall x: nat | x < c.Segments(2) && NodeOf(x, c.nodes) == n ensures InSeg(2, x) in s'.net.Store(n) {
        StoresGrow(RunOf(c, e), t, t + 1, n, InSeg(2, x));
      }
    }
  }

  lemma LeavesInputs(c: Config, e: Execution, t: nat, n: nat)
    requires c.Valid() && IsExecution(c, e) && t < |e.steps| && 0 < n < c.nodes && e.steps[t] == Act(n)
    requires CanDo(c, e.states[t], Act(n)) && Placed(c, n, PlaceOf(c, e.states[t], n))
    requires var pc := PlaceOf(c, e.states[t], n); pc.InPut? || pc.InWait?
    requires var pc' := LocalAfter(c, e.states[t], n).pc; !pc'.InPut? && !pc'.InWait?
    requires if NetStep(c, e.states[t], n).Ask? then LocalAfter(c, e.states[t], n) == e.states[t].LocalOf(c, n)
            else GoesOn(c, n, e.states[t].LocalOf(c, n), LocalAfter(c, e.states[t], n).pc)
    ensures !NetStep(c, e.states[t], n).Ask?
    ensures var pc := PlaceOf(c, e.states[t], n); pc == InWait(2)
  {
    hide LocalAfter, NextOp, NetStep, Begins, IsExecution, CanDo;
  }

  lemma FirstStateIsRight(c: Config, s: Sys, n: nat)
    requires c.Valid() && InitialSys(c, s) && n < c.nodes
    ensures NodeRight(c, s, n)
  {
  }

  lemma {:induction false} InvariantHolds(c: Config, e: Execution, t: nat)
    requires c.Valid() && IsExecution(c, e) && t < |e.states|
    ensures AllRight(c, e, t)
  {
    hide NodeRight, Do, CanDo, InitialSys;
    if t > 0 { InvariantHolds(c, e, t - 1); }
    forall n: nat | n < c.nodes ensures NodeRight(c, e.states[t], n) {
      if t == 0 { FirstStateIsRight(c, e.states[0], n); } else { NodeStaysRight(c, e, t - 1, n); }
    }
  }

  // --------------------------------------------------------------- correctness

  // In every run, whenever a node starts stage k, its sets are those of k
  // rounds of the naive search, the same on every node; and they are those of
  // all the rounds when the node is done.
  lemma EveryNodeSearchesNaively(c: Config, e: Execution, t: nat, n: nat)
    requires c.Valid() && IsExecution(c, e) && t < |e.states| && n < c.nodes
    ensures var l := e.states[t].LocalOf(c, n);
      && (l.pc.Base? ==>
            && IsOdd(l.pc.r) && l.pc.r / 2 < c.degrees
            && l.pSet == NaiveP(c.CommitGraph(), l.pc.r / 2) && l.uSet == NaiveU(c.CommitGraph(), l.pc.r / 2))
      && (l.pc.Done? ==>
            l.pSet == NaiveP(c.CommitGraph(), c.degrees) && l.uSet == NaiveU(c.CommitGraph(), c.degrees))
  {
    InvariantHolds(c, e, t);
    assert NodeRight(c, e.states[t], n);
    PlacesMeanStages(c, n, e.states[t].LocalOf(c, n));
    hide *;
  }

  lemma PlacesMeanStages(c: Config, n: nat, l: Local)
    requires c.Valid() && n < c.nodes && LocalOk(c, n, l)
    ensures l.pc.Base? ==>
      && IsOdd(l.pc.r) && l.pc.r / 2 < c.degrees
      && l.pSet == NaiveP(c.CommitGraph(), l.pc.r / 2) && l.uSet == NaiveU(c.CommitGraph(), l.pc.r / 2)
    ensures l.pc.Done? ==> l.pSet == NaiveP(c.CommitGraph(), c.degrees) && l.uSet == NaiveU(c.CommitGraph(), c.degrees)
  {
    hide NaiveP, NaiveU, Reading, AfterScan, Offering;
    if l.pc.Base? { RoundParity(l.pc.r); }
    if l.pc.Done? { assert (2 * c.degrees + 1 - 1) / 2 == c.degrees; }
  }

  // With more stages than users the application has found the least closed sets.
  lemma EnoughStagesReachTheFixpoint(c: Config, e: Execution, t: nat, n: nat)
    requires c.Valid() && IsExecution(c, e) && t < |e.states| && n < c.nodes
    requires c.degrees >= c.nu + 1 && e.states[t].LocalOf(c, n).pc == Done
    ensures var l := e.states[t].LocalOf(c, n);
      && Closed(c.CommitGraph(), l.pSet, l.uSet)
      && forall ps, us | Closed(c.CommitGraph(), ps, us) :: l.pSet <= ps && l.uSet <= us
  {
    hide NaiveP, NaiveU, Closed;
    EveryNodeSearchesNaively(c, e, t, n);
    EndsWithinUsersPlusOne(c.CommitGraph(), c.degrees);
  }

  // Whatever a read returns is determined by the key alone, not by the schedule.
  lemma ReadsAreDetermined(c: Config, e: Execution, t: nat, n: nat, v: Val)
    requires c.Valid() && IsExecution(c, e) && t < |e.steps| && e.steps[t] == Act(n)
    requires Reads(c, e.states[t], n, v)
    ensures v == ValueOf(c, OpOf(c, e.states[t], n).id)
  {
    InvariantHolds(c, e, t);
    ReadValueIsRight(c, e, t, n, v);
    hide *;
  }

  // No key is ever put twice in one run, not even by different nodes.
  lemma EachKeyIsWrittenOnce(c: Config, e: Execution, a: nat, b: nat, id: Id)
    requires c.Valid() && IsExecution(c, e) && a < |e.steps| && b < |e.steps|
    requires Writes(c, e, a, id) && Writes(c, e, b, id)
    ensures a == b
  {
    InvariantHolds(c, e, a);
    InvariantHolds(c, e, b);
    WrittenOnce(c, e, a, b, id);
    hide *;
  }
}
