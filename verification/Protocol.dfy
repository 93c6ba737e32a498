// The key-value protocol between nodes: one application thread per node, one
// FIFO link each way per pair of nodes, one connection thread per link that
// handles messages in order, puts that nobody acknowledges, and replies that
// name no request. Applications are arbitrary.

module Protocol {
  // Stores look a key up by its name only; home is the node that keeps it.
  datatype Key<I> = Key(id: I, home: nat)

  datatype Msg<I, V> =
    | Put(key: Key<I>, val: V)
    | Get(key: Key<I>)
    | WaitAndGet(key: Key<I>)
    | Reply(val: V)
  {
    predicate IsRequest() { Get? || WaitAndGet? }
  }

  // An application thread runs, or sits in process_reply_ for a key.
  datatype App<I> = Running | Asking(key: Key<I>)

  datatype Net<I(==), V> = Net(
    nodes: nat,
    stores: map<nat, map<I, V>>,
    apps: map<nat, App<I>>,
    links: map<(nat, nat), seq<Msg<I, V>>>,
    replies: map<(nat, nat), seq<V>>)
  {
    function Store(n: nat): map<I, V> {
      if n in stores then stores[n] else map[]
    }

    function AppOf(n: nat): App<I> {
      if n in apps then apps[n] else Running
    }

    // Messages sent by i on its connection with j and not yet handled.
    function Link(i: nat, j: nat): seq<Msg<I, V>> {
      if (i, j) in links then links[(i, j)] else []
    }

    // The reply queue of n's connection with m.
    function Replies(n: nat, m: nat): seq<V> {
      if (n, m) in replies then replies[(n, m)] else []
    }

    function Send(i: nat, j: nat, m: Msg<I, V>): Net<I, V> {
      this.(links := links[(i, j) := Link(i, j) + [m]])
    }

    function Pop(i: nat, j: nat): Net<I, V>
      requires Link(i, j) != []
    {
      this.(links := links[(i, j) := Link(i, j)[1..]])
    }

    function Keep(n: nat, id: I, val: V): Net<I, V> {
      this.(stores := stores[n := Store(n)[id := val]])
    }
  }

  datatype Step<I, V> =
    | PutOp(n: nat, key: Key<I>, val: V)        // KVStore::put
    | ReadLocal(n: nat, key: Key<I>)            // get or waitAndGet at home
    | Ask(n: nat, key: Key<I>, wait: bool)      // get or waitAndGet elsewhere
    | Handle(from: nat, to: nat)                // handle_message_ at to
    | TakeReply(n: nat)                         // process_reply_ returns

  predicate Enabled<I, V>(s: Net<I, V>, st: Step<I, V>) {
    match st
    case PutOp(n, key, val) => n < s.nodes && s.AppOf(n).Running? && key.home < s.nodes
    case ReadLocal(n, key) => n < s.nodes && s.AppOf(n).Running? && key.home == n && key.id in s.Store(n)
    case Ask(n, key, wait) => n < s.nodes && s.AppOf(n).Running? && key.home < s.nodes && key.home != n
    case Handle(i, j) =>
      && i < s.nodes && j < s.nodes && i != j && s.Link(i, j) != []
      && var m := s.Link(i, j)[0];
      && (m.IsRequest() ==> m.key.id in s.Store(j))
    case TakeReply(n) =>
      n < s.nodes && s.AppOf(n).Asking? && s.Replies(n, s.AppOf(n).key.home) != []
  }

  // The connection thread at j is about to look up a key that is not there:
  // the assertion in KVStore::get fails.
  predicate GetFails<I, V>(s: Net<I, V>, i: nat, j: nat) {
    && s.Link(i, j) != [] && s.Link(i, j)[0].Get?
    && s.Link(i, j)[0].key.id !in s.Store(j)
  }

  function HandleMsg<I, V>(s: Net<I, V>, i: nat, j: nat): Net<I, V>
    requires Enabled(s, Handle(i, j))
  {
    var m := s.Link(i, j)[0];
    var popped := s.Pop(i, j);
    match m
    case Put(key, val) => popped.Keep(j, key.id, val)
    case Get(key) => popped.Send(j, i, Reply(s.Store(j)[key.id]))
    case WaitAndGet(key) => popped.Send(j, i, Reply(s.Store(j)[key.id]))
    case Reply(val) => popped.(replies := popped.replies[(j, i) := s.Replies(j, i) + [val]])
  }

  function Apply<I, V>(s: Net<I, V>, st: Step<I, V>): Net<I, V>
    requires Enabled(s, st)
  {
    match st
    case PutOp(n, key, val) =>
      if key.home == n then s.Keep(n, key.id, val) else s.Send(n, key.home, Put(key, val))
    case ReadLocal(n, key) => s
    case Ask(n, key, wait) =>
      s.(apps := s.apps[n := Asking(key)]).Send(n, key.home, if wait then WaitAndGet(key) else Get(key))
    case Handle(i, j) => HandleMsg(s, i, j)
    case TakeReply(n) =>
      var m := s.AppOf(n).key.home;
      s.(apps := s.apps[n := Running], replies := s.replies[(n, m) := s.Replies(n, m)[1..]])
  }

  // --------------------------------------------------- what a link carries

  function Requests<I, V>(c: seq<Msg<I, V>>): nat {
    if c == [] then 0 else (if c[0].IsRequest() then 1 else 0) + Requests(c[1..])
  }

  function ReplyCount<I, V>(c: seq<Msg<I, V>>): nat {
    if c == [] then 0 else (if c[0].Reply? then 1 else 0) + ReplyCount(c[1..])
  }

  function Puts<I, V>(c: seq<Msg<I, V>>): seq<Msg<I, V>> {
    if c == [] then [] else (if c[0].Put? then [c[0]] else []) + Puts(c[1..])
  }

  lemma {:induction false} CountsAppend<I, V>(c: seq<Msg<I, V>>, m: Msg<I, V>)
    ensures Requests(c + [m]) == Requests(c) + (if m.IsRequest() then 1 else 0)
    ensures ReplyCount(c + [m]) == ReplyCount(c) + (if m.Reply? then 1 else 0)
    ensures Puts(c + [m]) == Puts(c) + (if m.Put? then [m] else [])
  {
    if c != [] {
      CountsAppend(c[1..], m);
      assert (c + [m])[1..] == c[1..] + [m];
    }
  }

  lemma {:induction false} CountedIsPresent<I, V>(c: seq<Msg<I, V>>, k: nat)
    requires k < |c|
    ensures c[k].IsRequest() ==> Requests(c) > 0
    ensures c[k].Reply? ==> ReplyCount(c) > 0
    ensures c[k].Put? ==> c[k] in Puts(c)
  {
    if k > 0 {
      CountedIsPresent(c[1..], k - 1);
    }
  }

  lemma {:induction false} NoPuts<I, V>(c: seq<Msg<I, V>>)
    requires forall x | 0 <= x < |c| :: !c[x].Put?
    ensures Puts(c) == []
  {
    if c != [] { NoPuts(c[1..]); }
  }

  // -------------------------------------------------------------- invariant

  predicate AsksHome<I>(a: App<I>, m: nat) {
    a.Asking? && a.key.home == m
  }

  // What must hold of a thread with state app, towards node m: out is its link
  // to m, back the link from m, and queue its replies from m. Exactly one
  // request, reply in flight or queued reply exists when the thread asks m and
  // none otherwise; and a request, or its answer, means that every put sent
  // before it has been handled.
  ghost predicate PairOk<I, V>(app: App<I>, m: nat, out: seq<Msg<I, V>>, back: seq<Msg<I, V>>, queue: seq<V>) {
    && Requests(out) + ReplyCount(back) + |queue| == (if AsksHome(app, m) then 1 else 0)
    && (forall x | 0 <= x < |out| && out[x].IsRequest() :: app == Asking(out[x].key))
    && (forall x | 0 <= x < |out| && out[x].Put? :: out[x].key.home == m)
    && (forall x, y | 0 <= x < y < |out| && out[x].IsRequest() :: !out[y].Put?)
    && (AsksHome(app, m) && Requests(out) == 0 ==> Puts(out) == [])
  }

  ghost predicate PairInv<I, V>(s: Net<I, V>, n: nat, m: nat) {
    PairOk(s.AppOf(n), m, s.Link(n, m), s.Link(m, n), s.Replies(n, m))
  }

  ghost predicate Inv<I, V>(s: Net<I, V>) {
    forall n: nat, m: nat :: PairInv(s, n, m)
  }

  predicate Initial<I, V>(s: Net<I, V>) {
    s.stores == map[] && s.apps == map[] && s.links == map[] && s.replies == map[]
  }

  lemma InitialInv<I, V>(s: Net<I, V>)
    requires Initial(s)
    ensures Inv(s)
  {
  }

  lemma PairPut<I, V>(app: App<I>, m: nat, out: seq<Msg<I, V>>, back: seq<Msg<I, V>>, queue: seq<V>, key: Key<I>,
      val: V)
    requires PairOk(app, m, out, back, queue) && !app.Asking? && key.home == m
    ensures PairOk(app, m, out + [Put(key, val)], back, queue)
  {
    CountsAppend(out, Put(key, val));
    NoRequestWhenRunning(app, m, out, back, queue);
  }

  lemma NoRequestWhenRunning<I, V>(app: App<I>, m: nat, out: seq<Msg<I, V>>, back: seq<Msg<I, V>>, queue: seq<V>)
    requires PairOk(app, m, out, back, queue) && !AsksHome(app, m)
    ensures forall x | 0 <= x < |out| :: !out[x].IsRequest()
    ensures queue == []
  {
    forall x | 0 <= x < |out| ensures !out[x].IsRequest() {
      CountedIsPresent(out, x);
    }
  }

  lemma PairAsk<I, V>(app: App<I>, m: nat, out: seq<Msg<I, V>>, back: seq<Msg<I, V>>, queue: seq<V>, key: Key<I>,
      req: Msg<I, V>)
    requires PairOk(app, m, out, back, queue) && !app.Asking?
    requires req.IsRequest() && req.key == key
    ensures key.home == m ==> PairOk(Asking(key), m, out + [req], back, queue)
    ensures key.home != m ==> PairOk(Asking(key), m, out, back, queue)
  {
    CountsAppend(out, req);
    NoRequestWhenRunning(app, m, out, back, queue);
  }

  lemma PairTake<I, V>(app: App<I>, m: nat, out: seq<Msg<I, V>>, back: seq<Msg<I, V>>, queue: seq<V>)
    requires PairOk(app, m, out, back, queue) && app.Asking?
    ensures app.key.home == m && queue != [] ==> |queue| == 1 && PairOk(Running, m, out, back, queue[1..])
    ensures app.key.home != m ==> PairOk(Running, m, out, back, queue)
  {
    if app.key.home != m || queue != [] {
      forall x | 0 <= x < |out| ensures !out[x].IsRequest() {
        CountedIsPresent(out, x);
      }
    }
  }

  // The head of the outgoing link is a put or a reply and is handled.
  lemma PairPopOut<I, V>(app: App<I>, m: nat, out: seq<Msg<I, V>>, back: seq<Msg<I, V>>, queue: seq<V>)
    requires PairOk(app, m, out, back, queue) && out != [] && !out[0].IsRequest()
    ensures PairOk(app, m, out[1..], back, queue)
  {
  }

  // The head of the outgoing link is a request and is answered.
  lemma PairAnswer<I, V>(app: App<I>, m: nat, out: seq<Msg<I, V>>, back: seq<Msg<I, V>>, queue: seq<V>, v: V)
    requires PairOk(app, m, out, back, queue) && out != [] && out[0].IsRequest()
    ensures PairOk(app, m, out[1..], back + [Reply(v)], queue)
    ensures Puts(out) == []
  {
    CountsAppend(back, Reply(v));
    NoPuts(out);
    CountedIsPresent(out, 0);
    assert Requests(out) == 1;
    forall x | 0 <= x < |out[1..]| ensures !out[1..][x].IsRequest() {
      CountedIsPresent(out[1..], x);
    }
  }

  // The other direction of the same exchange: what m sends back is popped.
  lemma PairPopBack<I, V>(app: App<I>, m: nat, out: seq<Msg<I, V>>, back: seq<Msg<I, V>>, queue: seq<V>)
    requires PairOk(app, m, out, back, queue) && back != []
    ensures back[0].Reply? ==> PairOk(app, m, out, back[1..], queue + [back[0].val])
    ensures !back[0].Reply? ==> PairOk(app, m, out, back[1..], queue)
  {
  }

  lemma PairAppendBack<I, V>(app: App<I>, m: nat, out: seq<Msg<I, V>>, back: seq<Msg<I, V>>, queue: seq<V>,
      msg: Msg<I, V>)
    requires PairOk(app, m, out, back, queue) && !msg.Reply?
    ensures PairOk(app, m, out, back + [msg], queue)
  {
    CountsAppend(back, msg);
  }

  lemma PairAppendOut<I, V>(app: App<I>, m: nat, out: seq<Msg<I, V>>, back: seq<Msg<I, V>>, queue: seq<V>, v: V)
    requires PairOk(app, m, out, back, queue)
    ensures PairOk(app, m, out + [Reply(v)], back, queue)
  {
    hide Puts, Requests, ReplyCount;
    CountsAppend(out, Reply(v));
  }

  lemma PutKeepsInv<I, V>(s: Net<I, V>, n: nat, key: Key<I>, val: V)
    requires Inv(s) && Enabled(s, PutOp(n, key, val))
    ensures Inv(Apply(s, PutOp(n, key, val)))
  {
    hide PairOk;
    var s' := Apply(s, PutOp(n, key, val));
    var h := key.home;
    forall a: nat, b: nat ensures PairInv(s', a, b) {
      assert PairInv(s, a, b);
      if h != n && a == n && b == h {
        PairPut(s.AppOf(n), h, s.Link(n, h), s.Link(h, n), s.Replies(n, h), key, val);
      } else if h != n && a == h && b == n {
        PairAppendBack(s.AppOf(h), n, s.Link(h, n), s.Link(n, h), s.Replies(h, n), Put(key, val));
      }
    }
  }

  lemma AskKeepsInv<I, V>(s: Net<I, V>, n: nat, key: Key<I>, wait: bool)
    requires Inv(s) && Enabled(s, Ask(n, key, wait))
    ensures Inv(Apply(s, Ask(n, key, wait)))
  {
    hide PairOk;
    var s' := Apply(s, Ask(n, key, wait));
    var h := key.home;
    var req := if wait then WaitAndGet(key) else Get(key);
    forall a: nat, b: nat ensures PairInv(s', a, b) {
      assert PairInv(s, a, b);
      if a == n {
        PairAsk(s.AppOf(n), b, s.Link(n, b), s.Link(b, n), s.Replies(n, b), key, req);
      } else if a == h && b == n {
        PairAppendBack(s.AppOf(h), n, s.Link(h, n), s.Link(n, h), s.Replies(h, n), req);
      }
    }
  }

  lemma TakeKeepsInv<I, V>(s: Net<I, V>, n: nat)
    requires Inv(s) && Enabled(s, TakeReply(n))
    ensures Inv(Apply(s, TakeReply(n)))
  {
    hide PairOk;
    var s' := Apply(s, TakeReply(n));
    forall a: nat, b: nat ensures PairInv(s', a, b) {
      assert PairInv(s, a, b);
      if a == n {
        PairTake(s.AppOf(n), b, s.Link(n, b), s.Link(b, n), s.Replies(n, b));
      }
    }
  }

  // What handling the head of a link changes for the pair a, b.
  lemma HandleEffect<I, V>(s: Net<I, V>, i: nat, j: nat, a: nat, b: nat)
    requires Enabled(s, Handle(i, j))
    ensures var s', m := Apply(s, Handle(i, j)), s.Link(i, j)[0];
      && i != j && s.Link(i, j) != [] && (m.IsRequest() ==> m.key.id in s.Store(j))
      && s'.AppOf(a) == s.AppOf(a)
      && s'.Link(a, b) == (
           if a == i && b == j then s.Link(i, j)[1..]
           else if a == j && b == i && m.IsRequest() then s.Link(j, i) + [Reply(s.Store(j)[m.key.id])]
           else s.Link(a, b))
      && s'.Replies(a, b) == if a == j && b == i && m.Reply? then s.Replies(j, i) + [m.val] else s.Replies(a, b)
  {
  }

  lemma HandleKeepsPair<I, V>(s: Net<I, V>, i: nat, j: nat, a: nat, b: nat)
    requires Enabled(s, Handle(i, j)) && PairInv(s, a, b)
    ensures PairInv(Apply(s, Handle(i, j)), a, b)
  {
    HandleEffect(s, i, j, a, b);
    HandleEffect(s, i, j, b, a);
    hide PairOk, Apply, Enabled;
    var m := s.Link(i, j)[0];
    if a == i && b == j {
      if m.IsRequest() {
        PairAnswer(s.AppOf(i), j, s.Link(i, j), s.Link(j, i), s.Replies(i, j), s.Store(j)[m.key.id]);
      } else {
        PairPopOut(s.AppOf(i), j, s.Link(i, j), s.Link(j, i), s.Replies(i, j));
      }
    } else if a == j && b == i {
      PairPopBack(s.AppOf(j), i, s.Link(j, i), s.Link(i, j), s.Replies(j, i));
      if m.IsRequest() {
        PairAppendOut(s.AppOf(j), i, s.Link(j, i), s.Link(i, j)[1..], s.Replies(j, i), s.Store(j)[m.key.id]);
      }
    }
  }

  lemma HandleKeepsInv<I, V>(s: Net<I, V>, i: nat, j: nat)
    requires Inv(s) && Enabled(s, Handle(i, j))
    ensures Inv(Apply(s, Handle(i, j)))
  {
    var s' := Apply(s, Handle(i, j));
    hide PairInv, Apply, Enabled;
    forall a: nat, b: nat ensures PairInv(s', a, b) { HandleKeepsPair(s, i, j, a, b); }
  }

  lemma StepKeepsInv<I, V>(s: Net<I, V>, st: Step<I, V>)
    requires Inv(s) && Enabled(s, st)
    ensures Inv(Apply(s, st))
  {
    match st
    case PutOp(n, key, val) => PutKeepsInv(s, n, key, val);
    case ReadLocal(n, key) =>
    case Ask(n, key, wait) => AskKeepsInv(s, n, key, wait);
    case Handle(i, j) => HandleKeepsInv(s, i, j);
    case TakeReply(n) => TakeKeepsInv(s, n);
  }
}
