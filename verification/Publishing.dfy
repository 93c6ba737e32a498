// A frame is stored in pieces: its writer puts a segment under one key and
// then the frame that names it under another. When does a node that has
// obtained the frame also find the segment at the segment's home?

module Publishing {
  import opened Protocol
  import opened StepEffects
  import opened Runs

  // Node w puts the segment in step a and later, in step b, the frame; before
  // step t nobody else puts a value under the frame's key.
  ghost predicate PublishedBefore<I(!new), V(!new)>(r: Run<I, V>, w: nat, seg: Key<I>, frame: Key<I>,
      a: nat, b: nat, t: nat)
    requires IsRun(r) && t <= |r.steps|
  {
    && a < b < |r.steps|
    && r.steps[a].PutOp? && r.steps[a].n == w && r.steps[a].key == seg
    && r.steps[b].PutOp? && r.steps[b].n == w && r.steps[b].key == frame
    && seg != frame
    && forall x | 0 <= x < t && r.steps[x].PutOp? && r.steps[x].key == frame :: x == b
  }

  ghost predicate Published<I(!new), V(!new)>(r: Run<I, V>, w: nat, seg: Key<I>, frame: Key<I>, a: nat, b: nat)
    requires IsRun(r)
  {
    PublishedBefore(r, w, seg, frame, a, b, |r.steps|)
  }

  // Step t gives the frame to the application at node reader.
  ghost predicate Obtains<I(!new), V(!new)>(r: Run<I, V>, t: nat, reader: nat, frame: Key<I>)
    requires IsRun(r) && t < |r.steps|
  {
    || r.steps[t] == ReadLocal(reader, frame)
    || (r.steps[t] == TakeReply(reader) && r.states[t].AppOf(reader) == Asking(frame))
  }

  // The reader looks the segment up in state s and does not find it: in its
  // own store, or because its Get is being handled at the segment's home.
  predicate Misses<I, V>(s: Net<I, V>, reader: nat, seg: Key<I>) {
    && seg.id !in s.Store(seg.home)
    && if reader == seg.home then s.AppOf(reader).Running?
       else s.Link(reader, seg.home) != [] && s.Link(reader, seg.home)[0] == Get(seg)
  }

  // The segment lives with the frame, or with the writer, or with the reader
  // provided that the writer also keeps the frame; or the writer reads itself.
  predicate SafeHomes(writer: nat, frameHome: nat, segHome: nat, reader: nat) {
    || segHome == frameHome || segHome == writer || reader == writer
    || (writer == frameHome && segHome == reader)
  }

  lemma StepKeepsKeys<I, V>(s: Net<I, V>, st: Step<I, V>, j: nat, id: I)
    requires Enabled(s, st) && id in s.Store(j)
    ensures id in Apply(s, st).Store(j)
  {
  }

  lemma {:induction false} StoresGrow<I(!new), V(!new)>(r: Run<I, V>, q: nat, t: nat, j: nat, id: I)
    requires IsRun(r) && q <= t <= |r.steps| && id in r.states[q].Store(j)
    ensures id in r.states[t].Store(j)
    decreases t
  {
    hide Apply, Enabled;
    if q < t {
      StoresGrow(r, q, t - 1, j, id);
      StepKeepsKeys(r.states[t - 1], r.steps[t - 1], j, id);
    }
  }

  lemma {:induction false} HandledIsStored<I(!new), V(!new)>(r: Run<I, V>, t: nat, n: nat, m: nat, p: Msg<I, V>)
    requires IsRun(r) && t <= |r.steps| && n != m && p in Handled(r, t, n, m)
    ensures p.Put? && p.key.id in r.states[t].Store(m)
  {
    var s, st := r.states[t - 1], r.steps[t - 1];
    if p in Handled(r, t - 1, n, m) {
      HandledIsStored(r, t - 1, n, m, p);
      StoresGrow(r, t - 1, t, m, p.key.id);
    } else {
      assert p in PutsDone(s, st, n, m);
      PutsHead(s.Link(n, m));
      assert s.Link(n, m)[..1] == [s.Link(n, m)[0]];
      assert r.states[t] == Apply(s, st);
    }
  }

  lemma {:induction false} IssuedByStep<I(!new), V(!new)>(r: Run<I, V>, t: nat, n: nat, m: nat, p: Msg<I, V>)
    returns (x: nat)
    requires IsRun(r) && t <= |r.steps| && p in Issued(r, t, n, m)
    ensures x < t && r.steps[x].PutOp? && r.steps[x].n == n && p == Put(r.steps[x].key, r.steps[x].val)
    ensures p.key.home == m
  {
    if p in Issued(r, t - 1, n, m) {
      x := IssuedByStep(r, t - 1, n, m, p);
    } else {
      x := t - 1;
    }
  }

  lemma {:induction false} IssuedGrows<I(!new), V(!new)>(r: Run<I, V>, q: nat, t: nat, n: nat, m: nat)
    requires IsRun(r) && q <= t <= |r.steps|
    ensures Issued(r, q, n, m) <= Issued(r, t, n, m)
    decreases t
  {
    if q < t { IssuedGrows(r, q, t - 1, n, m); }
  }

  // Whatever a store holds was put there by the home itself or arrived on a link.
  lemma {:induction false} StoredWasPut<I(!new), V(!new)>(r: Run<I, V>, t: nat, j: nat, id: I) returns (n: nat, x: nat)
    requires IsRun(r) && t <= |r.steps| && id in r.states[t].Store(j)
    ensures x < t && r.steps[x].PutOp? && r.steps[x].n == n && r.steps[x].key == Key(id, j)
    ensures r.steps[x].val == r.states[t].Store(j)[id]
    ensures n != j ==> Put(r.steps[x].key, r.steps[x].val) in Handled(r, t, n, j)
  {
    var s, st := r.states[t - 1], r.steps[t - 1];
    assert Enabled(s, st) && r.states[t] == Apply(s, st);
    hide Puts, Issued, Requests, ReplyCount, Inv, Apply, Enabled, PutsDone;
    if id in s.Store(j) && s.Store(j)[id] == r.states[t].Store(j)[id] {
      n, x := StoredWasPut(r, t - 1, j, id);
    } else {
      NewValue(s, st, j, id);
      if st.PutOp? {
        n, x := st.n, t - 1;
      } else {
        n, x := PutHasArrived(r, t, st.from, j);
      }
    }
  }

  lemma NewValue<I, V>(s: Net<I, V>, st: Step<I, V>, j: nat, id: I)
    requires Enabled(s, st) && id in Apply(s, st).Store(j)
    requires !(id in s.Store(j) && s.Store(j)[id] == Apply(s, st).Store(j)[id])
    ensures st.PutOp? || (st.Handle? && st.to == j && st.from != j && s.Link(st.from, j) != [])
    ensures st.PutOp? ==> st.n == j && st.key == Key(id, j) && st.val == Apply(s, st).Store(j)[id]
    ensures st.Handle? ==>
      var m := s.Link(st.from, j)[0]; m.Put? && m.key.id == id && m.val == Apply(s, st).Store(j)[id]
  {
  }

  // A put that has just been handled was issued by its sender.
  lemma PutHasArrived<I(!new), V(!new)>(r: Run<I, V>, t: nat, from: nat, j: nat) returns (n: nat, x: nat)
    requires IsRun(r) && 0 < t <= |r.steps| && r.steps[t - 1] == Handle(from, j)
    requires r.states[t - 1].Link(from, j) != [] && r.states[t - 1].Link(from, j)[0].Put? && from != j
    ensures n == from && x < t && r.steps[x].PutOp? && r.steps[x].n == n
    ensures var p := r.states[t - 1].Link(from, j)[0];
      p == Put(r.steps[x].key, r.steps[x].val) && p.key.home == j && p in Handled(r, t, from, j)
  {
    var c := r.states[t - 1].Link(from, j);
    n := from;
    PutsAreFifo(r, t - 1, n, j);
    CountedIsPresent(c, 0);
    x := IssuedByStep(r, t - 1, n, j, c[0]);
    CountedIsPresent(c[..1], 0);
    assert c[0] in PutsDone(r.states[t - 1], r.steps[t - 1], n, j);
  }

  lemma LocalPutIsStored<I(!new), V(!new)>(r: Run<I, V>, x: nat, t: nat)
    requires IsRun(r) && x < t <= |r.steps| && r.steps[x].PutOp? && r.steps[x].key.home == r.steps[x].n
    ensures r.steps[x].key.id in r.states[t].Store(r.steps[x].n)
  {
    assert r.states[x + 1] == Apply(r.states[x], r.steps[x]);
    StoresGrow(r, x + 1, t, r.steps[x].n, r.steps[x].key.id);
  }

  lemma RemotePutIsIssued<I(!new), V(!new)>(r: Run<I, V>, x: nat, t: nat)
    requires IsRun(r) && x < t <= |r.steps| && r.steps[x].PutOp?
    ensures var p := Put(r.steps[x].key, r.steps[x].val); p in Issued(r, t, r.steps[x].n, r.steps[x].key.home)
  {
    IssuedGrows(r, x + 1, t, r.steps[x].n, r.steps[x].key.home);
  }

  // On one link the segment arrives no later than the frame.
  lemma SegmentArrivesFirst<I(!new), V(!new)>(r: Run<I, V>, w: nat, seg: Key<I>, frame: Key<I>,
      a: nat, b: nat, q: nat)
    requires IsRun(r) && b < q <= |r.steps| && PublishedBefore(r, w, seg, frame, a, b, q)
    requires frame.home != w && seg.home == frame.home
    requires Put(frame, r.steps[b].val) in Handled(r, q, w, frame.home)
    ensures seg.id in r.states[q].Store(seg.home)
  {
    var h := frame.home;
    var f := Put(frame, r.steps[b].val);
    PutsAreFifo(r, q, w, h);
    IssuedGrows(r, b, q, w, h);
    var early, done := Issued(r, b, w, h), Handled(r, q, w, h);
    var k :| 0 <= k < |done| && done[k] == f;
    if k < |early| {
      assert early[k] == f;
      var x := IssuedByStep(r, b, w, h, f);
      assert false;
    }
    assert early <= done;
    var p := Put(seg, r.steps[a].val);
    RemotePutIsIssued(r, a, b);
    assert p in done;
    HandledIsStored(r, q, w, h, p);
  }

  // The moment at which the reader's copy of the frame was read at its home.
  lemma FrameWasRead<I(!new), V(!new)>(r: Run<I, V>, t: nat, reader: nat, frame: Key<I>) returns (q: nat)
    requires IsRun(r) && t < |r.steps| && Obtains(r, t, reader, frame)
    ensures q <= t && frame.id in r.states[q].Store(frame.home)
    ensures reader != frame.home ==> Issued(r, q, frame.home, reader) <= Handled(r, t, frame.home, reader)
  {
    if r.steps[t].ReadLocal? {
      q := t;
    } else {
      ReplyAnswersTheQuestion(r, t, reader);
      var m := frame.home;
      var v := r.states[t].Replies(reader, m)[0];
      q :| AskedAt(r, t, reader) < q < t && frame.id in r.states[q].Store(m)
        && r.states[q].Store(m)[frame.id] == v
        && Issued(r, t, reader, m) == Handled(r, q, reader, m)
        && Issued(r, q, m, reader) <= Handled(r, t, m, reader);
    }
  }

  lemma SegmentIsStored<I(!new), V(!new)>(r: Run<I, V>, w: nat, seg: Key<I>, frame: Key<I>, a: nat, b: nat, t: nat,
      reader: nat)
    requires IsRun(r) && t < |r.steps|
    requires PublishedBefore(r, w, seg, frame, a, b, t) && Obtains(r, t, reader, frame)
    requires SafeHomes(w, frame.home, seg.home, reader)
    ensures b < t
    ensures reader != w || seg.home == w || seg.home == frame.home ==> seg.id in r.states[t].Store(seg.home)
  {
    var h := frame.home;
    var q := FrameWasRead(r, t, reader, frame);
    var n, x := StoredWasPut(r, q, h, frame.id);
    assert x == b && n == w;
    if seg.home == w {
      LocalPutIsStored(r, a, t);
    } else if seg.home == reader && w == h {
      var p := Put(seg, r.steps[a].val);
      RemotePutIsIssued(r, a, q);
      assert p in Handled(r, t, w, reader);
      HandledIsStored(r, t, w, reader, p);
    } else if seg.home == h {
      SegmentArrivesFirst(r, w, seg, frame, a, b, q);
      StoresGrow(r, q, t, seg.home, seg.id);
    }
  }

  // A request at the head of a link has no put of the same sender left behind.
  lemma OwnPutsAreHandled<I(!new), V(!new)>(r: Run<I, V>, u: nat, w: nat, seg: Key<I>, a: nat)
    requires IsRun(r) && a < u <= |r.steps| && seg.home != w
    requires r.steps[a].PutOp? && r.steps[a].n == w && r.steps[a].key == seg
    requires r.states[u].Link(w, seg.home) != [] && r.states[u].Link(w, seg.home)[0] == Get(seg)
    ensures seg.id in r.states[u].Store(seg.home)
  {
    InvAlways(r, u);
    assert PairInv(r.states[u], w, seg.home);
    NoPuts(r.states[u].Link(w, seg.home));
    PutsAreFifo(r, u, w, seg.home);
    RemotePutIsIssued(r, a, u);
    HandledIsStored(r, u, w, seg.home, Put(seg, r.steps[a].val));
  }

  // With safe homes, whoever has obtained the frame finds the segment, in
  // every run and at every later moment.
  lemma SegmentIsFound<I(!new), V(!new)>(r: Run<I, V>, w: nat, seg: Key<I>, frame: Key<I>, a: nat, b: nat, t: nat,
      reader: nat, u: nat)
    requires IsRun(r) && t < u <= |r.steps|
    requires PublishedBefore(r, w, seg, frame, a, b, t) && Obtains(r, t, reader, frame)
    requires SafeHomes(w, frame.home, seg.home, reader)
    ensures !Misses(r.states[u], reader, seg)
  {
    SegmentIsStored(r, w, seg, frame, a, b, t, reader);
    if seg.id in r.states[t].Store(seg.home) {
      StoresGrow(r, t, u, seg.home, seg.id);
    } else if Misses(r.states[u], reader, seg) {
      OwnPutsAreHandled(r, u, w, seg, a);
    }
  }

  // ------------------------------------------------ without safe homes: a race

  ghost function Extend<I(!new), V(!new)>(r: Run<I, V>, st: Step<I, V>): Run<I, V>
    requires IsRun(r) && Enabled(r.states[|r.steps|], st)
  {
    Run(r.states + [Apply(r.states[|r.steps|], st)], r.steps + [st])
  }

  lemma ExtendIsRun<I(!new), V(!new)>(r: Run<I, V>, st: Step<I, V>)
    requires IsRun(r) && Enabled(r.states[|r.steps|], st)
    ensures IsRun(Extend(r, st))
  {
    var r' := Extend(r, st);
    forall t | 0 <= t < |r'.steps|
      ensures Enabled(r'.states[t], r'.steps[t]) && r'.states[t + 1] == Apply(r'.states[t], r'.steps[t])
    {
      if t < |r.steps| {
        assert r'.states[t] == r.states[t] && r'.steps[t] == r.steps[t] && r'.states[t + 1] == r.states[t + 1];
      }
    }
  }

  function End<I, V>(r: Run<I, V>): Net<I, V>
    requires |r.steps| < |r.states|
  {
    r.states[|r.steps|]
  }

  lemma StartRun(nodes: nat) returns (r: Run<nat, nat>)
    ensures IsRun(r) && r.steps == [] && r.states == [Net(nodes, map[], map[], map[], map[])]
  {
    r := Run([Net(nodes, map[], map[], map[], map[])], []);
  }

  lemma Then(r: Run<nat, nat>, st: Step<nat, nat>) returns (r': Run<nat, nat>)
    requires IsRun(r) && Enabled(End(r), st)
    ensures IsRun(r') && r'.steps == r.steps + [st] && |r'.states| == |r.states| + 1 == |r.steps| + 2
    ensures End(r') == Apply(End(r), st) && forall x | 0 <= x < |r.states| :: r'.states[x] == r.states[x]
  {
    r' := Extend(r, st);
    ExtendIsRun(r, st);
  }

  // In the runs below the segment is Key(1, s) and the frame Key(0, h). The
  // writer puts both and the frame reaches its home, but the segment is still
  // on the writer's link.
  ghost predicate SegmentOnTheWay(r: Run<nat, nat>, w: nat, h: nat, s: nat, nodes: nat) {
    && IsRun(r) && |r.steps| >= 2
    && r.steps[0] == PutOp(w, Key(1, s), 7) && r.steps[1] == PutOp(w, Key(0, h), 8)
    && (forall x | 2 <= x < |r.steps| :: !r.steps[x].PutOp?)
    && var net := r.states[|r.steps|];
    && net.nodes == nodes
    && 0 in net.Store(h) && 1 !in net.Store(s)
    && net.Link(w, s) == [Put(Key(1, s), 7)]
  }

  // A moment at which no thread waits and nothing else is in flight.
  ghost predicate Quiet(net: Net<nat, nat>, w: nat, s: nat) {
    && (forall n: nat :: net.AppOf(n).Running?)
    && (forall i: nat, j: nat | !(i == w && j == s) :: net.Link(i, j) == [])
    && (forall i: nat, j: nat :: net.Replies(i, j) == [])
  }

  lemma WriterFirst(w: nat, h: nat, s: nat, nodes: nat) returns (r: Run<nat, nat>)
    requires w < nodes && h < nodes && s < nodes
    requires s != h && s != w
    ensures SegmentOnTheWay(r, w, h, s, nodes) && Quiet(r.states[|r.steps|], w, s)
  {
    hide Apply, IsRun;
    r := TwoPuts(w, h, s, nodes);
    if w != h {
      StoreEffect(End(r), w, h);
      r := Then(r, Handle(w, h));
    }
  }

  lemma TwoPuts(w: nat, h: nat, s: nat, nodes: nat) returns (r: Run<nat, nat>)
    requires w < nodes && h < nodes && s < nodes
    requires s != h && s != w
    ensures IsRun(r) && |r.states| == 3 && r.steps == [PutOp(w, Key(1, s), 7), PutOp(w, Key(0, h), 8)]
    ensures var net := End(r);
      && net.nodes == nodes && (forall n: nat :: net.AppOf(n).Running?)
      && (forall i: nat, j: nat | !(i == w && (j == s || j == h)) :: net.Link(i, j) == [])
      && net.Link(w, s) == [Put(Key(1, s), 7)] && net.Link(w, h) == (if w == h then [] else [Put(Key(0, h), 8)])
      && (forall i: nat, j: nat :: net.Replies(i, j) == [])
      && 1 !in net.Store(s) && (w == h ==> 0 in net.Store(h))
  {
    r := StartRun(nodes);
    r := Then(r, PutOp(w, Key(1, s), 7));
    r := Then(r, PutOp(w, Key(0, h), 8));
    hide IsRun;
  }

  // The network while one question of reader to h is open and nothing else
  // moves: toHome, back and queue hold what belongs to the question.
  ghost predicate During(net: Net<nat, nat>, before: Net<nat, nat>, reader: nat, h: nat,
      app: App<nat>, toHome: seq<Msg<nat, nat>>, back: seq<Msg<nat, nat>>, queue: seq<nat>)
  {
    && OnlyBetween(before, net, reader, h) && net.AppOf(reader) == app
    && net.Link(reader, h) == toHome && net.Link(h, reader) == back && net.Replies(reader, h) == queue
  }

  lemma Question(net0: Net<nat, nat>, reader: nat, key: Key<nat>) returns (net1: Net<nat, nat>, net2: Net<nat, nat>)
    requires reader < net0.nodes && key.home < net0.nodes && reader != key.home
    requires net0.AppOf(reader).Running? && key.id in net0.Store(key.home)
    requires net0.Link(reader, key.home) == [] && net0.Link(key.home, reader) == []
    requires net0.Replies(reader, key.home) == []
    ensures Enabled(net0, Ask(reader, key, true)) && net1 == Apply(net0, Ask(reader, key, true))
    ensures Enabled(net1, Handle(reader, key.home)) && net2 == Apply(net1, Handle(reader, key.home))
    ensures During(net2, net0, reader, key.home, Asking(key), [], [Reply(net0.Store(key.home)[key.id])], [])
  {
    hide Apply;
    AskEffect(net0, reader, key, true);
    net1 := Apply(net0, Ask(reader, key, true));
    AnswerEffect(net1, reader, key.home);
    net2 := Apply(net1, Handle(reader, key.home));
    Together(net0, net1, net2, reader, key.home);
    hide OnlyBetween, Enabled;
  }

  lemma Answer(net2: Net<nat, nat>, net0: Net<nat, nat>, reader: nat, key: Key<nat>, v: nat)
    returns (net3: Net<nat, nat>, net4: Net<nat, nat>)
    requires reader < net0.nodes && key.home < net0.nodes && reader != key.home
    requires During(net2, net0, reader, key.home, Asking(key), [], [Reply(v)], [])
    ensures Enabled(net2, Handle(key.home, reader)) && net3 == Apply(net2, Handle(key.home, reader))
    ensures Enabled(net3, TakeReply(reader)) && net4 == Apply(net3, TakeReply(reader))
    ensures net3.AppOf(reader) == Asking(key)
    ensures During(net4, net0, reader, key.home, Running, [], [], [])
  {
    hide Apply;
    ReplyEffect(net2, reader, key.home);
    net3 := Apply(net2, Handle(key.home, reader));
    TakeEffect(net3, reader);
    net4 := Apply(net3, TakeReply(reader));
    Together(net0, net2, net3, reader, key.home);
    Together(net0, net3, net4, reader, key.home);
    hide OnlyBetween, Enabled;
  }

  lemma AskAndTake(r0: Run<nat, nat>, reader: nat, key: Key<nat>) returns (r: Run<nat, nat>)
    requires IsRun(r0) && |r0.states| == |r0.steps| + 1
    requires var net0 := r0.states[|r0.steps|];
      && reader < net0.nodes && key.home < net0.nodes && reader != key.home
      && net0.AppOf(reader).Running? && key.id in net0.Store(key.home)
      && net0.Link(reader, key.home) == [] && net0.Link(key.home, reader) == [] && net0.Replies(reader, key.home) == []
    ensures IsRun(r) && |r.steps| == |r0.steps| + 4
    ensures r.steps
      == r0.steps + [Ask(reader, key, true), Handle(reader, key.home), Handle(key.home, reader), TakeReply(reader)]
    ensures r.states[|r.steps| - 1].AppOf(reader) == Asking(key)
    ensures During(r.states[|r.steps|], r0.states[|r0.steps|], reader, key.home, Running, [], [], [])
  {
    hide Apply, Enabled, During, IsRun;
    var net0 := End(r0);
    var net1, net2 := Question(net0, reader, key);
    var net3, net4 := Answer(net2, net0, reader, key, net0.Store(key.home)[key.id]);
    var r1 := Then(r0, Ask(reader, key, true));
    var r2 := Then(r1, Handle(reader, key.home));
    var r3 := Then(r2, Handle(key.home, reader));
    r := Then(r3, TakeReply(reader));
  }

  // A reader elsewhere asks for the frame and gets it.
  lemma ReaderObtains(r0: Run<nat, nat>, w: nat, h: nat, s: nat, reader: nat, nodes: nat)
    returns (r: Run<nat, nat>, t: nat)
    requires SegmentOnTheWay(r0, w, h, s, nodes) && Quiet(r0.states[|r0.steps|], w, s)
    requires reader < nodes && h < nodes && reader != h && s != h && s != w && !(w == h && s == reader)
    ensures SegmentOnTheWay(r, w, h, s, nodes) && Quiet(r.states[|r.steps|], w, s)
    ensures t < |r.steps| && Obtains(r, t, reader, Key(0, h))
  {
    assert |r0.states| == |r0.steps| + 1;
    hide IsRun;
    var key: Key<nat> := Key(0, h);
    r := AskAndTake(r0, reader, key);
    t := |r.steps| - 1;
  }

  // With any other placement some run hands the frame over too early: the
  // reader looks for the segment and the lookup fails.
  lemma UnsafeHomesRace(w: nat, h: nat, s: nat, reader: nat, nodes: nat) returns (r: Run<nat, nat>, t: nat, u: nat)
    requires w < nodes && h < nodes && s < nodes && reader < nodes
    requires !SafeHomes(w, h, s, reader)
    ensures IsRun(r) && t < u <= |r.steps|
    ensures Published(r, w, Key(1, s), Key(0, h), 0, 1) && Obtains(r, t, reader, Key(0, h))
    ensures Misses(r.states[u], reader, Key(1, s))
  {
    hide SegmentOnTheWay, Quiet, Obtains, IsRun, Published, Misses;
    var r0 := WriterFirst(w, h, s, nodes);
    var r1;
    r1, t := FrameIsObtained(r0, w, h, s, reader, nodes);
    r := SegmentIsMissed(r1, w, h, s, reader, nodes, t);
    u := |r.steps|;
  }

  lemma FrameIsObtained(r0: Run<nat, nat>, w: nat, h: nat, s: nat, reader: nat, nodes: nat)
    returns (r: Run<nat, nat>, t: nat)
    requires SegmentOnTheWay(r0, w, h, s, nodes) && Quiet(r0.states[|r0.steps|], w, s)
    requires reader < nodes && h < nodes && s != h && s != w && !(w == h && s == reader)
    ensures SegmentOnTheWay(r, w, h, s, nodes) && Quiet(r.states[|r.steps|], w, s)
    ensures t < |r.steps| && Obtains(r, t, reader, Key(0, h))
  {
    if reader == h {
      t := |r0.steps|;
      hide IsRun;
      r := Then(r0, ReadLocal(h, Key(0, h)));
    } else {
      r, t := ReaderObtains(r0, w, h, s, reader, nodes);
    }
  }

  // The reader looks for the segment, which is still on the way.
  lemma SegmentIsMissed(r0: Run<nat, nat>, w: nat, h: nat, s: nat, reader: nat, nodes: nat, t: nat)
    returns (r: Run<nat, nat>)
    requires SegmentOnTheWay(r0, w, h, s, nodes) && Quiet(r0.states[|r0.steps|], w, s)
    requires reader < nodes && s < nodes && reader != w && s != h && s != w
    requires t < |r0.steps| && Obtains(r0, t, reader, Key(0, h))
    ensures IsRun(r) && t < |r.steps| && Obtains(r, t, reader, Key(0, h))
    ensures Published(r, w, Key(1, s), Key(0, h), 0, 1) && Misses(r.states[|r.steps|], reader, Key(1, s))
  {
    r := r0;
    assert |r0.states| == |r0.steps| + 1;
    hide IsRun;
    if reader != s {
      AskEffect(End(r0), reader, Key(1, s), false);
      hide Apply;
      r := Then(r0, Ask(reader, Key(1, s), false));
      assert r.states[|r0.steps|] == End(r0);
    }
  }

  ghost predicate EveryRunFinds(w: nat, seg: Key<nat>, frame: Key<nat>, reader: nat) {
    forall r: Run<nat, nat>, a: nat, b: nat, t: nat, u: nat
      | IsRun(r) && t < u <= |r.steps| && Published(r, w, seg, frame, a, b) && Obtains(r, t, reader, frame) ::
      !Misses(r.states[u], reader, seg)
  }

  // Which placements of frame and segment are safe for which reader, exactly.
  lemma SafeHomesExactly(w: nat, h: nat, s: nat, reader: nat)
    ensures SafeHomes(w, h, s, reader) <==> EveryRunFinds(w, Key(1, s), Key(0, h), reader)
  {
    if SafeHomes(w, h, s, reader) {
      forall r: Run<nat, nat>, a: nat, b: nat, t: nat, u: nat
        | IsRun(r) && t < u <= |r.steps|
          && Published(r, w, Key(1, s), Key(0, h), a, b) && Obtains(r, t, reader, Key(0, h))
        ensures !Misses(r.states[u], reader, Key(1, s))
      {
        SegmentIsFound(r, w, Key(1, s), Key(0, h), a, b, t, reader, u);
      }
    } else {
      var r, t, u := UnsafeHomesRace(w, h, s, reader, w + h + s + reader + 1);
      assert !EveryRunFinds(w, Key(1, s), Key(0, h), reader);
    }
  }
}
