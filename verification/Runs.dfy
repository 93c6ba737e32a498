// Whole runs of the protocol: what the FIFO links and the blocking request
// give every application, and what they do not give.

module Runs {
  import opened Protocol

  datatype Run<I(==), V> = Run(states: seq<Net<I, V>>, steps: seq<Step<I, V>>)

  ghost predicate IsRun<I(!new), V(!new)>(r: Run<I, V>) {
    && |r.states| == |r.steps| + 1
    && Initial(r.states[0])
    && forall t | 0 <= t < |r.steps| ::
         Enabled(r.states[t], r.steps[t]) && r.states[t + 1] == Apply(r.states[t], r.steps[t])
  }

  lemma {:induction false} InvAlways<I(!new), V(!new)>(r: Run<I, V>, t: nat)
    requires IsRun(r) && t < |r.states|
    ensures Inv(r.states[t])
  {
    if t == 0 {
      InitialInv(r.states[0]);
    } else {
      InvAlways(r, t - 1);
      StepKeepsInv(r.states[t - 1], r.steps[t - 1]);
    }
  }

  // Only nodes ask, and only different nodes send each other messages.
  ghost predicate NodesOnly<I(!new), V(!new)>(s: Net<I, V>) {
    && (forall n: nat | s.AppOf(n).Asking? :: n < s.nodes)
    && (forall i: nat, j: nat | s.Link(i, j) != [] :: i < s.nodes && j < s.nodes && i != j)
  }

  lemma StepKeepsNodes<I(!new), V(!new)>(s: Net<I, V>, st: Step<I, V>)
    requires NodesOnly(s) && Enabled(s, st)
    ensures NodesOnly(Apply(s, st)) && Apply(s, st).nodes == s.nodes
  {
    var s' := Apply(s, st);
    forall n: nat | s'.AppOf(n).Asking? ensures n < s.nodes { assert s.AppOf(n).Asking? ==> n < s.nodes; }
    forall i: nat, j: nat | s'.Link(i, j) != [] ensures i < s.nodes && j < s.nodes && i != j {
      assert s.Link(i, j) != [] ==> i < s.nodes && j < s.nodes && i != j;
    }
  }

  lemma {:induction false} NodesOnlyAlways<I(!new), V(!new)>(r: Run<I, V>, t: nat)
    requires IsRun(r) && t < |r.states|
    ensures NodesOnly(r.states[t]) && r.states[t].nodes == r.states[0].nodes
  {
    if t > 0 {
      NodesOnlyAlways(r, t - 1);
      StepKeepsNodes(r.states[t - 1], r.steps[t - 1]);
    }
  }

  // The puts that a step adds to, and takes from, the link from n to m.
  function PutsSent<I, V>(st: Step<I, V>, n: nat, m: nat): seq<Msg<I, V>> {
    if st.PutOp? && st.n == n && st.key.home == m then [Put(st.key, st.val)] else []
  }

  function PutsDone<I, V>(s: Net<I, V>, st: Step<I, V>, n: nat, m: nat): seq<Msg<I, V>> {
    if st == Handle(n, m) && s.Link(n, m) != [] then Puts(s.Link(n, m)[..1]) else []
  }

  // All puts that the application at n issued to another node m in the first
  // t steps, and all those that m had handled by then.
  function Issued<I(!new), V(!new)>(r: Run<I, V>, t: nat, n: nat, m: nat): seq<Msg<I, V>>
    requires t <= |r.steps|
  {
    if t == 0 then [] else Issued(r, t - 1, n, m) + PutsSent(r.steps[t - 1], n, m)
  }

  function Handled<I(!new), V(!new)>(r: Run<I, V>, t: nat, n: nat, m: nat): seq<Msg<I, V>>
    requires t <= |r.steps| <= |r.states|
  {
    if t == 0 then [] else Handled(r, t - 1, n, m) + PutsDone(r.states[t - 1], r.steps[t - 1], n, m)
  }

  lemma PutsHead<I, V>(c: seq<Msg<I, V>>)
    requires c != []
    ensures Puts(c) == Puts(c[..1]) + Puts(c[1..])
  {
    var head: seq<Msg<I, V>> := [];
    CountsAppend(head, c[0]);
    assert c[..1] == head + [c[0]];
  }

  lemma StepFifo<I, V>(s: Net<I, V>, st: Step<I, V>, n: nat, m: nat)
    requires Enabled(s, st) && n != m
    ensures PutsDone(s, st, n, m) + Puts(Apply(s, st).Link(n, m)) == Puts(s.Link(n, m)) + PutsSent(st, n, m)
  {
    hide Puts, Requests, ReplyCount;
    match st
    case PutOp(a, key, val) => CountsAppend(s.Link(n, m), Put(key, val));
    case ReadLocal(a, key) =>
    case Ask(a, key, wait) => CountsAppend(s.Link(n, m), if wait then WaitAndGet(key) else Get(key));
    case Handle(i, j) => HandleFifo(s, i, j, n, m);
    case TakeReply(a) =>
  }

  lemma HandleFifo<I, V>(s: Net<I, V>, i: nat, j: nat, n: nat, m: nat)
    requires Enabled(s, Handle(i, j)) && n != m
    ensures PutsDone(s, Handle(i, j), n, m) + Puts(Apply(s, Handle(i, j)).Link(n, m)) == Puts(s.Link(n, m))
  {
    hide Puts, Requests, ReplyCount;
    var c := s.Link(i, j);
    if i == n && j == m {
      PutsHead(c);
    } else if i == m && j == n && c[0].IsRequest() {
      CountsAppend(s.Link(n, m), Reply(s.Store(j)[c[0].key.id]));
    }
  }

  // Puts reach their home in the order they were issued; none is lost,
  // repeated or invented.
  lemma {:induction false} PutsAreFifo<I(!new), V(!new)>(r: Run<I, V>, t: nat, n: nat, m: nat)
    requires IsRun(r) && t <= |r.steps| && n != m
    ensures Issued(r, t, n, m) == Handled(r, t, n, m) + Puts(r.states[t].Link(n, m))
  {
    if t > 0 {
      hide Puts, Apply, PutsSent, PutsDone, Enabled, Initial;
      PutsAreFifo(r, t - 1, n, m);
      var s, st := r.states[t - 1], r.steps[t - 1];
      StepFifo(s, st, n, m);
      Regroup(Handled(r, t - 1, n, m), PutsDone(s, st, n, m), Puts(r.states[t].Link(n, m)),
        Puts(s.Link(n, m)), PutsSent(st, n, m));
    }
  }

  lemma Regroup<T>(h: seq<T>, d: seq<T>, rest: seq<T>, before: seq<T>, more: seq<T>)
    requires d + rest == before + more
    ensures (h + before) + more == (h + d) + rest
  {
    assert (h + before) + more == h + (before + more);
    assert (h + d) + rest == h + (d + rest);
  }

  // The step in which n asked last, or -1.
  function AskedAt<I(!new), V(!new)>(r: Run<I, V>, t: nat, n: nat): int
    requires t <= |r.steps|
  {
    if t == 0 then -1
    else if r.steps[t - 1].Ask? && r.steps[t - 1].n == n then t - 1
    else AskedAt(r, t - 1, n)
  }

  lemma {:induction false} AskedBefore<I(!new), V(!new)>(r: Run<I, V>, t: nat, n: nat)
    requires t <= |r.steps|
    ensures AskedAt(r, t, n) < t
  {
    if t > 0 { AskedBefore(r, t - 1, n); }
  }

  // v answers the question that n has open at t: m's store held it for key at
  // some moment q since the question; by q every put of n to m was handled;
  // and every put that m had issued to n by q is handled once the messages in
  // pre are.
  ghost predicate Served<I(!new), V(!new)>(r: Run<I, V>, t: nat, n: nat, key: Key<I>, v: V, pre: seq<Msg<I, V>>, q: nat)
    requires IsRun(r) && t <= |r.steps|
  {
    var m := key.home;
    && AskedAt(r, t, n) < q < t
    && key.id in r.states[q].Store(m) && r.states[q].Store(m)[key.id] == v
    && Issued(r, t, n, m) == Handled(r, q, n, m)
    && Issued(r, q, m, n) <= Handled(r, t, m, n) + Puts(pre)
  }

  ghost predicate SomewhenServed<I(!new), V(!new)>(r: Run<I, V>, t: nat, n: nat, key: Key<I>, v: V, pre: seq<Msg<I, V>>)
    requires IsRun(r) && t <= |r.steps|
  {
    exists q: nat :: Served(r, t, n, key, v, pre, q)
  }

  ghost predicate AnswersServed<I(!new), V(!new)>(r: Run<I, V>, t: nat, n: nat)
    requires IsRun(r) && t <= |r.steps|
  {
    var s := r.states[t];
    s.AppOf(n).Asking? && s.AppOf(n).key.home != n ==>
      var key := s.AppOf(n).key;
      var back := s.Link(key.home, n);
      && (forall x | 0 <= x < |back| && back[x].Reply? :: SomewhenServed(r, t, n, key, back[x].val, back[..x]))
      && (forall v | v in s.Replies(n, key.home) :: SomewhenServed(r, t, n, key, v, []))
  }

  lemma ServedPersists<I(!new), V(!new)>(r: Run<I, V>, t: nat, n: nat, key: Key<I>, v: V,
      pre: seq<Msg<I, V>>, pre': seq<Msg<I, V>>, q: nat)
    requires IsRun(r) && t < |r.steps| && Served(r, t, n, key, v, pre, q)
    requires PutsSent(r.steps[t], n, key.home) == []
    requires !(r.steps[t].Ask? && r.steps[t].n == n)
    requires Puts(pre) <= PutsDone(r.states[t], r.steps[t], key.home, n) + Puts(pre')
    ensures Served(r, t + 1, n, key, v, pre', q)
  {
    hide Puts, PutsDone, PutsSent, Apply, Enabled, Initial;
    assert Issued(r, t + 1, n, key.home) == Issued(r, t, n, key.home);
    var done := PutsDone(r.states[t], r.steps[t], key.home, n);
    assert Handled(r, t + 1, key.home, n) + Puts(pre') == Handled(r, t, key.home, n) + (done + Puts(pre'));
  }

  // The state of n's open question survives a step of anybody.
  lemma QuestionPersists<I(!new), V(!new)>(r: Run<I, V>, t: nat, n: nat)
    requires IsRun(r) && t < |r.steps|
    requires r.states[t].AppOf(n).Asking? && r.states[t + 1].AppOf(n).Asking?
    ensures r.states[t + 1].AppOf(n) == r.states[t].AppOf(n)
    ensures PutsSent(r.steps[t], n, r.states[t].AppOf(n).key.home) == []
    ensures !(r.steps[t].Ask? && r.steps[t].n == n)
    ensures r.steps[t] != TakeReply(n)
  {
  }

  // How one step changes the link towards n: the head may be handled, and
  // something may be appended.
  lemma BackLinkStep<I(!new), V(!new)>(s: Net<I, V>, st: Step<I, V>, m: nat, n: nat)
    requires Enabled(s, st) && n != m
    ensures var c, c' := s.Link(m, n), Apply(s, st).Link(m, n);
      if st == Handle(m, n) then c != [] && c' == c[1..] else c <= c'
  {
  }

  lemma KeepServed<I(!new), V(!new)>(r: Run<I, V>, t: nat, n: nat, key: Key<I>, x: nat)
    requires IsRun(r) && t < |r.steps| && key.home != n
    requires r.states[t].AppOf(n) == Asking(key) && r.states[t + 1].AppOf(n) == Asking(key)
    requires AnswersServed(r, t, n)
    requires var c, c' := r.states[t].Link(key.home, n), r.states[t + 1].Link(key.home, n);
      x < |c'| && c'[x].Reply? && (x < |c| || r.steps[t] == Handle(key.home, n))
    ensures var back := r.states[t + 1].Link(key.home, n);
      SomewhenServed(r, t + 1, n, key, back[x].val, back[..x])
  {
    var m := key.home;
    var c, c' := r.states[t].Link(m, n), r.states[t + 1].Link(m, n);
    BackLinkStep(r.states[t], r.steps[t], m, n);
    QuestionPersists(r, t, n);
    hide Puts, Issued, Handled, Apply, Enabled, Served;
    if r.steps[t] == Handle(m, n) {
      assert c[x + 1] == c'[x];
      var q: nat :| Served(r, t, n, key, c[x + 1].val, c[..x + 1], q);
      assert c[..x + 1][1..] == c'[..x] && c[..x + 1][..1] == c[..1];
      PutsHead(c[..x + 1]);
      ServedPersists(r, t, n, key, c'[x].val, c[..x + 1], c'[..x], q);
    } else {
      assert c[..x] == c'[..x] && c[x] == c'[x];
      var q: nat :| Served(r, t, n, key, c[x].val, c[..x], q);
      assert PutsDone(r.states[t], r.steps[t], m, n) == [];
      ServedPersists(r, t, n, key, c'[x].val, c[..x], c'[..x], q);
    }
  }

  // A reply that the home has just sent.
  lemma NewlyServed<I(!new), V(!new)>(r: Run<I, V>, t: nat, n: nat, key: Key<I>)
    requires IsRun(r) && t < |r.steps| && key.home != n
    requires r.states[t].AppOf(n) == Asking(key)
    requires r.steps[t] == Handle(n, key.home) && r.states[t].Link(n, key.home)[0].IsRequest()
    requires AskedAt(r, t, n) < t
    ensures var m := key.home;
      var v := r.states[t + 1].Link(m, n)[|r.states[t].Link(m, n)|];
      v.Reply? && Served(r, t + 1, n, key, v.val, r.states[t].Link(m, n), t)
  {
    hide Puts, HandleMsg, Inv, PutsSent;
    var m := key.home;
    InvAlways(r, t);
    RequestHead(r.states[t], n, key);
    HandledRequest(r.states[t], n, m);
    NothingPending(r, t, n, m);
    PutsAreFifo(r, t, m, n);
    assert Handled(r, t + 1, m, n) == Handled(r, t, m, n) + PutsDone(r.states[t], r.steps[t], m, n);
    hide Apply, Enabled, Handled, Issued, PutsDone;
    assert AskedAt(r, t + 1, n) == AskedAt(r, t, n);
  }

  lemma HandledRequest<I, V>(s: Net<I, V>, n: nat, m: nat)
    requires Enabled(s, Handle(n, m)) && s.Link(n, m)[0].IsRequest()
    ensures Apply(s, Handle(n, m)).Link(m, n) == s.Link(m, n) + [Reply(s.Store(m)[s.Link(n, m)[0].key.id])]
    ensures PutsDone(s, Handle(n, m), m, n) == []
    ensures s.Link(n, m)[0].key.id in s.Store(m)
  {
  }

  lemma RequestHead<I, V>(s: Net<I, V>, n: nat, key: Key<I>)
    requires Inv(s) && s.AppOf(n) == Asking(key)
    requires s.Link(n, key.home) != [] && s.Link(n, key.home)[0].IsRequest()
    ensures s.Link(n, key.home)[0].key == key
    ensures Puts(s.Link(n, key.home)) == []
  {
    assert PairInv(s, n, key.home);
    NoPuts(s.Link(n, key.home));
  }

  // Before a request is handled every earlier put of the asker has been.
  lemma NothingPending<I(!new), V(!new)>(r: Run<I, V>, t: nat, n: nat, m: nat)
    requires IsRun(r) && t < |r.steps| && n != m
    requires Puts(r.states[t].Link(n, m)) == []
    requires !r.steps[t].PutOp?
    ensures Issued(r, t + 1, n, m) == Handled(r, t, n, m)
  {
    PutsAreFifo(r, t, n, m);
  }

  lemma StepKeepsServed<I(!new), V(!new)>(r: Run<I, V>, t: nat, n: nat)
    requires IsRun(r) && t < |r.steps|
    requires AnswersServed(r, t, n)
    ensures AnswersServed(r, t + 1, n)
  {
    var s, s', st := r.states[t], r.states[t + 1], r.steps[t];
    if s'.AppOf(n).Asking? && s'.AppOf(n).key.home != n {
      var key := s'.AppOf(n).key;
      var m := key.home;
      InvAlways(r, t + 1);
      assert PairInv(s', n, m);
      if s.AppOf(n).Asking? {
        LinkStillServed(r, t, n, key);
        QueueStillServed(r, t, n, key);
      } else {
        JustAsked(s, st, n);
      }
    }
  }

  // A question just asked has no answer anywhere yet.
  lemma JustAsked<I, V>(s: Net<I, V>, st: Step<I, V>, n: nat)
    requires Enabled(s, st) && Inv(Apply(s, st))
    requires s.AppOf(n).Running? && Apply(s, st).AppOf(n).Asking?
    ensures var s' := Apply(s, st); var m := s'.AppOf(n).key.home;
      && s'.Replies(n, m) == []
      && forall x | 0 <= x < |s'.Link(m, n)| :: !s'.Link(m, n)[x].Reply?
  {
    var s' := Apply(s, st);
    var m := s'.AppOf(n).key.home;
    assert PairInv(s', n, m);
    var out := s'.Link(n, m);
    CountedIsPresent(out, |out| - 1);
    forall x | 0 <= x < |s'.Link(m, n)| ensures !s'.Link(m, n)[x].Reply? {
      CountedIsPresent(s'.Link(m, n), x);
    }
  }

  lemma LinkStillServed<I(!new), V(!new)>(r: Run<I, V>, t: nat, n: nat, key: Key<I>)
    requires IsRun(r) && t < |r.steps| && key.home != n
    requires AnswersServed(r, t, n)
    requires r.states[t].AppOf(n).Asking? && r.states[t + 1].AppOf(n) == Asking(key)
    ensures var back := r.states[t + 1].Link(key.home, n);
      forall x | 0 <= x < |back| && back[x].Reply? :: SomewhenServed(r, t + 1, n, key, back[x].val, back[..x])
  {
    var m := key.home;
    var s, s', st := r.states[t], r.states[t + 1], r.steps[t];
    var c, c' := s.Link(m, n), s'.Link(m, n);
    QuestionPersists(r, t, n);
    BackLinkStep(s, st, m, n);
    forall x | 0 <= x < |c'| && c'[x].Reply?
      ensures SomewhenServed(r, t + 1, n, key, c'[x].val, c'[..x])
    {
      if x < |c| || st == Handle(m, n) {
        KeepServed(r, t, n, key, x);
      } else {
        NewReplyIsFromHandle(s, st, m, n, x);
        InvAlways(r, t);
        AskedBefore(r, t, n);
        NewlyServed(r, t, n, key);
        assert c'[..x] == c;
      }
    }
  }

  lemma NewReplyIsFromHandle<I, V>(s: Net<I, V>, st: Step<I, V>, m: nat, n: nat, x: nat)
    requires Enabled(s, st) && n != m
    requires |s.Link(m, n)| <= x < |Apply(s, st).Link(m, n)| && Apply(s, st).Link(m, n)[x].Reply?
    ensures st == Handle(n, m) && s.Link(n, m)[0].IsRequest() && x == |s.Link(m, n)|
  {
  }

  lemma NewReplyIsHead<I, V>(s: Net<I, V>, st: Step<I, V>, m: nat, n: nat, v: V)
    requires Enabled(s, st) && v in Apply(s, st).Replies(n, m) && v !in s.Replies(n, m)
    ensures st == Handle(m, n) && s.Link(m, n) != [] && s.Link(m, n)[0] == Reply(v)
  {
  }

  lemma QueueStillServed<I(!new), V(!new)>(r: Run<I, V>, t: nat, n: nat, key: Key<I>)
    requires IsRun(r) && t < |r.steps| && key.home != n
    requires AnswersServed(r, t, n)
    requires r.states[t].AppOf(n).Asking? && r.states[t + 1].AppOf(n) == Asking(key)
    ensures var s' := r.states[t + 1]; var t' := t + 1;
      forall v | v in s'.Replies(n, key.home) :: SomewhenServed(r, t', n, key, v, [])
  {
    var m := key.home;
    var s, s', st := r.states[t], r.states[t + 1], r.steps[t];
    var c := s.Link(m, n);
    QuestionPersists(r, t, n);
    forall v | v in s'.Replies(n, m) ensures SomewhenServed(r, t + 1, n, key, v, []) {
      if v in s.Replies(n, m) {
        var q: nat :| Served(r, t, n, key, v, [], q);
        ServedPersists(r, t, n, key, v, [], [], q);
      } else {
        NewReplyIsHead(s, st, m, n, v);
        hide Apply, Enabled;
        var q: nat :| Served(r, t, n, key, c[0].val, c[..0], q);
        assert c[..1] == [c[0]];
        ServedPersists(r, t, n, key, v, c[..0], [], q);
      }
    }
  }

  lemma {:induction false} ServedAlways<I(!new), V(!new)>(r: Run<I, V>, t: nat, n: nat)
    requires IsRun(r) && t <= |r.steps|
    ensures AnswersServed(r, t, n)
  {
    if t > 0 {
      ServedAlways(r, t - 1, n);
      StepKeepsServed(r, t - 1, n);
    }
  }

  lemma {:induction false} AskedElsewhere<I(!new), V(!new)>(r: Run<I, V>, t: nat, n: nat)
    requires IsRun(r) && t <= |r.steps|
    ensures r.states[t].AppOf(n).Asking? ==> r.states[t].AppOf(n).key.home != n
  {
    if t > 0 {
      AskedElsewhere(r, t - 1, n);
      assert r.states[t] == Apply(r.states[t - 1], r.steps[t - 1]);
    }
  }

  // The first assertion of get_from_node and wait_and_get_from_node.
  lemma AskFindsEmptyQueue<I(!new), V(!new)>(r: Run<I, V>, t: nat)
    requires IsRun(r) && t < |r.steps| && r.steps[t].Ask?
    ensures r.states[t].Replies(r.steps[t].n, r.steps[t].key.home) == []
  {
    InvAlways(r, t);
    assert PairInv(r.states[t], r.steps[t].n, r.steps[t].key.home);
  }

  // process_reply_ finds exactly one reply. It is a value that the home held
  // for the key asked, at some moment q since the question; by q the home had
  // handled every put of the asker; and everything the home's application had
  // put to the asker by q has arrived.
  lemma ReplyAnswersTheQuestion<I(!new), V(!new)>(r: Run<I, V>, t: nat, n: nat)
    requires IsRun(r) && t < |r.steps| && r.steps[t] == TakeReply(n)
    ensures r.states[t].AppOf(n).Asking?
    ensures var key := r.states[t].AppOf(n).key;
      var m := key.home;
      && m != n
      && |r.states[t].Replies(n, m)| == 1
      && exists q: nat ::
           && AskedAt(r, t, n) < q < t
           && key.id in r.states[q].Store(m)
           && r.states[q].Store(m)[key.id] == r.states[t].Replies(n, m)[0]
           && Issued(r, t, n, m) == Handled(r, q, n, m)
           && Issued(r, q, m, n) <= Handled(r, t, m, n)
  {
    InvAlways(r, t);
    AskedElsewhere(r, t, n);
    ServedAlways(r, t, n);
    var key := r.states[t].AppOf(n).key;
    var queue := r.states[t].Replies(n, key.home);
    assert PairInv(r.states[t], n, key.home);
    assert queue[0] in queue;
    assert SomewhenServed(r, t, n, key, queue[0], []);
    var q: nat :| Served(r, t, n, key, queue[0], [], q);
    assert Handled(r, t, key.home, n) + [] == Handled(r, t, key.home, n);
  }
}
