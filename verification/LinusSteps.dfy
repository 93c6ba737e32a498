// Runs of the Linus application, continued by single steps and by whole
// questions.

module LinusSteps {
  import opened Protocol
  import opened StepEffects
  import opened TagSets
  import opened LinusModel
  import opened LinusSystem
  import opened LinusTheorems
  import opened LinusStandstill

  // --------------------------------------------------------- steps of executions

  // The other programs stay where they are.
  ghost predicate SameLocals(c: Config, s: Sys, s': Sys, n: nat) {
    forall x: nat | x != n :: s'.LocalOf(c, x) == s.LocalOf(c, x)
  }

  lemma StepsOn(c: Config, e: Execution, st: SysStep) returns (e': Execution)
    requires c.Valid() && IsExecution(c, e) && CanDo(c, Last(e), st)
    ensures e' == Continue(c, e, st) && IsExecution(c, e') && e'.states != [] && Last(e') == Do(c, Last(e), st)
    ensures Last(e').net == Apply(Last(e).net, ToStep(c, Last(e), st))
    ensures SameLocals(c, Last(e), Last(e'), if st.Act? then st.n else c.nodes)
    ensures st.Act? ==> Last(e').LocalOf(c, st.n) == LocalAfter(c, Last(e), st.n)
    ensures st.Deliver? ==> forall x: nat :: Last(e').LocalOf(c, x) == Last(e).LocalOf(c, x)
  {
    e' := Continue(c, e, st);
    ContinueIsExecution(c, e, st);
    StepIsProtocolStep(c, Last(e), st);
    hide Do, CanDo, Apply, LocalAfter, IsExecution, Last, Continue;
    forall x: nat
      ensures Do(c, Last(e), st).LocalOf(c, x)
        == if st == Act(x) then LocalAfter(c, Last(e), x) else Last(e).LocalOf(c, x)
    {
      LocalsAfter(c, Last(e), st, x);
    }
  }

  // Node n reads a key of its own store.
  lemma ReadsAtHome(c: Config, e: Execution, n: nat) returns (e': Execution, rows: seq<CommitRow>)
    requires c.Valid() && IsExecution(c, e) && n < c.nodes && Last(e).net.nodes == c.nodes
    requires var s, op := Last(e), OpOf(c, Last(e), n);
      s.net.AppOf(n).Running? && op.DoRead? && HomeOf(c, op.id) == n && op.id in s.net.Store(n)
    ensures IsExecution(c, e') && e'.states != [] && Last(e').net == Last(e).net && SameLocals(c, Last(e), Last(e'), n)
    ensures Last(e').LocalOf(c, n)
      == AfterRead(c, n, Last(e).LocalOf(c, n), ValueOf(c, OpOf(c, Last(e), n).id), rows)
  {
    var s := Last(e);
    hide IsExecution, NextOp, ValueOf, AfterRead, HomeOf, Do, RowsHere, AllRight, PutDone, ValidId;
    InvariantHolds(c, e, |e.states| - 1);
    StoredIsRight(c, e, |e.states| - 1, n, OpOf(c, s, n).id);
    rows := RowsHere(c, s, n);
    e' := StepsOn(c, e, Act(n));
  }

  // Node n sends its question.
  lemma Asks(c: Config, e: Execution, n: nat) returns (e': Execution)
    requires c.Valid() && IsExecution(c, e) && n < c.nodes && Last(e).net.nodes == c.nodes
    requires var s, op := Last(e), OpOf(c, Last(e), n);
      s.net.AppOf(n).Running? && op.DoRead? && HomeOf(c, op.id) != n
    ensures IsExecution(c, e') && e'.states != [] && forall x: nat :: Last(e').LocalOf(c, x) == Last(e).LocalOf(c, x)
    ensures var s, s', op := Last(e), Last(e'), OpOf(c, Last(e), n);
      var h := HomeOf(c, op.id);
      && OnlyBetween(s.net, s'.net, n, h) && s'.net.AppOf(n) == Asking(KeyOf(c, op.id))
      && s'.net.Link(n, h) == s.net.Link(n, h) + [Request(KeyOf(c, op.id), op.wait)]
      && s'.net.Link(h, n) == s.net.Link(h, n) && s'.net.Replies(n, h) == s.net.Replies(n, h)
  {
    var s, op := Last(e), OpOf(c, Last(e), n);
    hide IsExecution, NextOp, Do, RowsHere, AfterRead, AfterPut;
    HomesAreNodes(c, op.id);
    AskEffect(s.net, n, KeyOf(c, op.id), op.wait);
    e' := StepsOn(c, e, Act(n));
    assert LocalAfter(c, s, n) == s.LocalOf(c, n);
  }

  lemma HomesAreNodes(c: Config, id: Id)
    requires c.Valid()
    ensures HomeOf(c, id) < c.nodes
  {
  }

  // A question of node n to node 0 is open, and the answer is there.
  ghost predicate CanBeServed(c: Config, s: Sys, n: nat)
    requires c.Valid()
  {
    var op := OpOf(c, s, n);
    && 0 < n < c.nodes == s.net.nodes && op.DoRead? && HomeOf(c, op.id) == 0 && op.id in s.net.Store(0)
    && s.net.AppOf(n) == Asking(KeyOf(c, op.id)) && s.net.Link(0, n) == [] && s.net.Replies(n, 0) == []
    && s.net.Link(n, 0) == [Request(KeyOf(c, op.id), op.wait)]
  }

  lemma DeliversTheAnswer(c: Config, e: Execution, n: nat) returns (e': Execution)
    requires c.Valid() && IsExecution(c, e) && CanBeServed(c, Last(e), n)
    ensures IsExecution(c, e') && e'.states != [] && forall x: nat :: Last(e').LocalOf(c, x) == Last(e).LocalOf(c, x)
    ensures var s, s', op := Last(e), Last(e'), OpOf(c, Last(e), n);
      && OnlyBetween(s.net, s'.net, n, 0) && s'.net.AppOf(n) == s.net.AppOf(n)
      && s'.net.Link(n, 0) == [] && s'.net.Link(0, n) == [] && s'.net.Replies(n, 0) == [ValueOf(c, op.id)]
  {
    hide NextOp, Do, ValueOf, HomeOf, AllRight, PutDone, ValidId;
    assert e.states != [];
    hide IsExecution;
    var id := OpOf(c, Last(e), n).id;
    var e1 := DeliversTheQuestion(c, e, n);
    hide CanBeServed, Last;
    e' := DeliversTheReply(c, e1, n, ValueOf(c, id));
    Together(Last(e).net, Last(e1).net, Last(e').net, n, 0);
    hide OnlyBetween;
  }

  lemma DeliversTheQuestion(c: Config, e: Execution, n: nat) returns (e': Execution)
    requires c.Valid() && IsExecution(c, e) && CanBeServed(c, Last(e), n)
    ensures IsExecution(c, e') && e'.states != [] && forall x: nat :: Last(e').LocalOf(c, x) == Last(e).LocalOf(c, x)
    ensures var s, s', op := Last(e).net, Last(e').net, OpOf(c, Last(e), n);
      && OnlyBetween(s, s', n, 0) && s'.AppOf(n) == s.AppOf(n)
      && s'.Link(n, 0) == [] && s'.Link(0, n) == [Reply(ValueOf(c, op.id))] && s'.Replies(n, 0) == []
  {
    hide NextOp, Do, ValueOf, HomeOf, AllRight, PutDone, ValidId;
    assert e.states != [];
    hide IsExecution;
    InvariantHolds(c, e, |e.states| - 1);
    StoredIsRight(c, e, |e.states| - 1, 0, OpOf(c, Last(e), n).id);
    AnswerEffect(Last(e).net, n, 0);
    e' := StepsOn(c, e, Deliver(n, 0));
    hide Apply;
  }

  lemma DeliversTheReply(c: Config, e: Execution, n: nat, v: Val) returns (e': Execution)
    requires c.Valid() && IsExecution(c, e) && e.states != [] && 0 < n < c.nodes == Last(e).net.nodes
    requires Last(e).net.Link(0, n) == [Reply(v)] && Last(e).net.Replies(n, 0) == []
    ensures IsExecution(c, e') && e'.states != [] && forall x: nat :: Last(e').LocalOf(c, x) == Last(e).LocalOf(c, x)
    ensures var s, s' := Last(e).net, Last(e').net;
      && OnlyBetween(s, s', n, 0) && s'.AppOf(n) == s.AppOf(n)
      && s'.Link(n, 0) == s.Link(n, 0) && s'.Link(0, n) == [] && s'.Replies(n, 0) == [v]
  {
    hide IsExecution, Do, Apply;
    e' := StepsOn(c, e, Deliver(0, n));
    ReplyEffect(Last(e).net, n, 0);
  }

  lemma IsServed(c: Config, e: Execution, n: nat) returns (e': Execution, rows: seq<CommitRow>)
    requires c.Valid() && IsExecution(c, e) && CanBeServed(c, Last(e), n)
    ensures IsExecution(c, e') && e'.states != [] && SameLocals(c, Last(e), Last(e'), n)
    ensures Last(e').LocalOf(c, n)
      == AfterRead(c, n, Last(e).LocalOf(c, n), ValueOf(c, OpOf(c, Last(e), n).id), rows)
    ensures var s, s' := Last(e), Last(e');
      && OnlyBetween(s.net, s'.net, n, 0) && s'.net.AppOf(n) == Running
      && s'.net.Link(n, 0) == [] && s'.net.Link(0, n) == [] && s'.net.Replies(n, 0) == []
  {
    var s := Last(e);
    hide IsExecution, NextOp, Do, ValueOf, HomeOf, AfterRead, RowsHere;
    var e1 := DeliversTheAnswer(c, e, n);
    rows := RowsHere(c, Last(e1), n);
    TakeEffect(Last(e1).net, n);
    e' := StepsOn(c, e1, Act(n));
    hide Apply, Last;
  }

  // Node n asks node 0 for a key that is there, and takes the answer.
  lemma GetsFromHub(c: Config, e: Execution, n: nat) returns (e': Execution, rows: seq<CommitRow>)
    requires c.Valid() && IsExecution(c, e) && 0 < n < c.nodes && Last(e).net.nodes == c.nodes
    requires var s, op := Last(e), OpOf(c, Last(e), n);
      && s.net.AppOf(n).Running? && op.DoRead? && HomeOf(c, op.id) == 0 && op.id in s.net.Store(0)
      && s.net.Link(0, n) == [] && s.net.Link(n, 0) == [] && s.net.Replies(n, 0) == []
    ensures IsExecution(c, e') && e'.states != [] && SameLocals(c, Last(e), Last(e'), n)
    ensures Last(e').LocalOf(c, n)
      == AfterRead(c, n, Last(e).LocalOf(c, n), ValueOf(c, OpOf(c, Last(e), n).id), rows)
    ensures var s, s' := Last(e), Last(e');
      && OnlyBetween(s.net, s'.net, n, 0) && s'.net.AppOf(n) == Running
      && s'.net.Link(n, 0) == [] && s'.net.Link(0, n) == [] && s'.net.Replies(n, 0) == []
  {
    hide IsExecution, NextOp, ValueOf, HomeOf, AfterRead;
    var e1 := Asks(c, e, n);
    assert CanBeServed(c, Last(e1), n);
    e', rows := IsServed(c, e1, n);
    hide Last;
  }
}
