// What each step of the protocol changes, and what it leaves as it is.

module StepEffects {
  import opened Protocol

  // Nothing changes but the question of n, its links with m and its replies
  // from m.
  ghost predicate OnlyBetween<I(!new), V(!new)>(s: Net<I, V>, s': Net<I, V>, n: nat, m: nat) {
    && s'.nodes == s.nodes
    && (forall x: nat :: s'.Store(x) == s.Store(x))
    && (forall x: nat | x != n :: s'.AppOf(x) == s.AppOf(x))
    && (forall i: nat, j: nat | !(i == n && j == m) && !(i == m && j == n) :: s'.Link(i, j) == s.Link(i, j))
    && (forall i: nat, j: nat | !(i == n && j == m) :: s'.Replies(i, j) == s.Replies(i, j))
  }

  function Request<I, V>(key: Key<I>, wait: bool): Msg<I, V> {
    if wait then WaitAndGet(key) else Get(key)
  }

  lemma AskEffect<I(!new), V(!new)>(s: Net<I, V>, n: nat, key: Key<I>, wait: bool)
    requires Enabled(s, Ask(n, key, wait))
    ensures var s' := Apply(s, Ask(n, key, wait));
      && OnlyBetween(s, s', n, key.home) && s'.AppOf(n) == Asking(key)
      && s'.Link(n, key.home) == s.Link(n, key.home) + [Request(key, wait)]
      && s'.Link(key.home, n) == s.Link(key.home, n) && s'.Replies(n, key.home) == s.Replies(n, key.home)
  {
  }

  lemma AnswerEffect<I(!new), V(!new)>(s: Net<I, V>, n: nat, m: nat)
    requires Enabled(s, Handle(n, m)) && s.Link(n, m)[0].IsRequest()
    ensures var s' := Apply(s, Handle(n, m));
      && OnlyBetween(s, s', n, m) && s'.AppOf(n) == s.AppOf(n)
      && s'.Link(n, m) == s.Link(n, m)[1..]
      && s'.Link(m, n) == s.Link(m, n) + [Reply(s.Store(m)[s.Link(n, m)[0].key.id])]
      && s'.Replies(n, m) == s.Replies(n, m)
  {
  }

  lemma ReplyEffect<I(!new), V(!new)>(s: Net<I, V>, n: nat, m: nat)
    requires Enabled(s, Handle(m, n)) && s.Link(m, n)[0].Reply?
    ensures var s' := Apply(s, Handle(m, n));
      && OnlyBetween(s, s', n, m) && s'.AppOf(n) == s.AppOf(n)
      && s'.Link(m, n) == s.Link(m, n)[1..] && s'.Link(n, m) == s.Link(n, m)
      && s'.Replies(n, m) == s.Replies(n, m) + [s.Link(m, n)[0].val]
  {
  }

  lemma TakeEffect<I(!new), V(!new)>(s: Net<I, V>, n: nat)
    requires Enabled(s, TakeReply(n))
    ensures var s', m := Apply(s, TakeReply(n)), s.AppOf(n).key.home;
      && OnlyBetween(s, s', n, m) && s'.AppOf(n) == Running
      && s'.Link(n, m) == s.Link(n, m) && s'.Link(m, n) == s.Link(m, n)
      && s'.Replies(n, m) == s.Replies(n, m)[1..]
  {
  }

  lemma PutEffect<I(!new), V(!new)>(s: Net<I, V>, n: nat, key: Key<I>, val: V)
    requires Enabled(s, PutOp(n, key, val))
    ensures var s' := Apply(s, PutOp(n, key, val));
      && s'.nodes == s.nodes
      && (forall x: nat :: s'.AppOf(x) == s.AppOf(x))
      && (forall i: nat, j: nat | !(i == n && j == key.home && j != n) :: s'.Link(i, j) == s.Link(i, j))
      && (forall i: nat, j: nat :: s'.Replies(i, j) == s.Replies(i, j))
      && (forall x: nat | x != n || x != key.home :: s'.Store(x) == s.Store(x))
      && (key.home == n ==> s'.Store(n) == s.Store(n)[key.id := val])
      && (key.home != n ==> s'.Link(n, key.home) == s.Link(n, key.home) + [Put(key, val)])
  {
  }

  lemma StoreEffect<I(!new), V(!new)>(s: Net<I, V>, i: nat, j: nat)
    requires Enabled(s, Handle(i, j)) && s.Link(i, j)[0].Put?
    ensures var s' := Apply(s, Handle(i, j));
      && s'.nodes == s.nodes
      && (forall x: nat :: s'.AppOf(x) == s.AppOf(x))
      && (forall x: nat, y: nat | !(x == i && y == j) :: s'.Link(x, y) == s.Link(x, y))
      && s'.Link(i, j) == s.Link(i, j)[1..]
      && (forall x: nat, y: nat :: s'.Replies(x, y) == s.Replies(x, y))
      && (forall x: nat | x != j :: s'.Store(x) == s.Store(x))
      && s'.Store(j) == s.Store(j)[s.Link(i, j)[0].key.id := s.Link(i, j)[0].val]
  {
  }

  lemma Together<I(!new), V(!new)>(a: Net<I, V>, b: Net<I, V>, c: Net<I, V>, n: nat, m: nat)
    requires OnlyBetween(a, b, n, m) && OnlyBetween(b, c, n, m)
    ensures OnlyBetween(a, c, n, m)
  {
  }
}
