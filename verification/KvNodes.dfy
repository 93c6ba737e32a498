// The objects of one node: its store, and its connection with one other node.
// Each method moves them as the protocol's step moves the whole system.

module KvNodes {
  import opened Protocol

  class KVStore<I(==), V> {
    const node: nat
    var items: map<I, V>

    constructor (node: nat)
      ensures this.node == node && items == map[]
    {
      this.node := node;
      items := map[];
    }

    ghost predicate Shows(s: Net<I, V>)
      reads this
    {
      node < s.nodes && s.Store(node) == items
    }

    // put, for a key that lives here.
    method PutHere(key: Key<I>, val: V, ghost s: Net<I, V>)
      requires Shows(s) && Enabled(s, PutOp(node, key, val)) && key.home == node
      modifies this
      ensures Shows(Apply(s, PutOp(node, key, val)))
    {
      items := items[key.id := val];
    }

    // get and waitAndGet, for a key that lives here and is there.
    method GetHere(key: Key<I>, ghost s: Net<I, V>) returns (val: V)
      requires Shows(s) && Enabled(s, ReadLocal(node, key))
      ensures Shows(Apply(s, ReadLocal(node, key))) && val == s.Store(node)[key.id]
    {
      val := items[key.id];
    }
  }

  class Connection<I(==), V> {
    const store: KVStore<I, V>
    const peer: nat
    var replies: seq<V>
    var outgoing: seq<Msg<I, V>>  // sent and not yet handled by the peer

    constructor (store: KVStore<I, V>, peer: nat)
      ensures this.store == store && this.peer == peer && replies == [] && outgoing == []
    {
      this.store := store;
      this.peer := peer;
      replies, outgoing := [], [];
    }

    ghost predicate Shows(s: Net<I, V>)
      reads this, store
    {
      && store.Shows(s) && peer < s.nodes && peer != store.node
      && s.Replies(store.node, peer) == replies && s.Link(store.node, peer) == outgoing
    }

    method SendMessage(m: Msg<I, V>)
      modifies this
      ensures outgoing == old(outgoing) + [m] && replies == old(replies)
    {
      outgoing := outgoing + [m];
    }

    // handle_message_ for the first message of the peer.
    method HandleMessage(m: Msg<I, V>, ghost s: Net<I, V>)
      requires Shows(s) && Enabled(s, Handle(peer, store.node)) && s.Link(peer, store.node)[0] == m
      modifies this, store
      ensures Shows(Apply(s, Handle(peer, store.node)))
    {
      match m {
        case Put(key, val) => store.items := store.items[key.id := val];
        case Get(key) =>
          var val := store.items[key.id];
          SendMessage(Reply(val));
        case WaitAndGet(key) =>
          var val := store.items[key.id];
          SendMessage(Reply(val));
        case Reply(val) => replies := replies + [val];
      }
    }

    // put_at_node.
    method PutAtNode(key: Key<I>, val: V, ghost s: Net<I, V>)
      requires Shows(s) && Enabled(s, PutOp(store.node, key, val)) && key.home == peer
      modifies this
      ensures Shows(Apply(s, PutOp(store.node, key, val)))
    {
      SendMessage(Put(key, val));
    }

    // get_from_node and wait_and_get_from_node up to the wait; the queue of
    // replies is empty, as the source asserts.
    method AskNode(key: Key<I>, wait: bool, ghost s: Net<I, V>)
      requires Shows(s) && Inv(s) && Enabled(s, Ask(store.node, key, wait)) && key.home == peer
      modifies this
      ensures Shows(Apply(s, Ask(store.node, key, wait)))
    {
      assert PairInv(s, store.node, peer);
      assert |replies| == 0;
      SendMessage(if wait then WaitAndGet(key) else Get(key));
    }

    // process_reply_ when a reply has come; there is just one, as the source
    // asserts.
    method ProcessReply(ghost s: Net<I, V>) returns (val: V)
      requires Shows(s) && Inv(s) && Enabled(s, TakeReply(store.node)) && s.AppOf(store.node).key.home == peer
      modifies this
      ensures Shows(Apply(s, TakeReply(store.node))) && val == s.Replies(store.node, peer)[0]
    {
      assert PairInv(s, store.node, peer);
      assert |replies| == 1;
      val := replies[0];
      replies := replies[1..];
    }
  }
}
