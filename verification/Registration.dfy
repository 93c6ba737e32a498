// Registration: the controller collects the addresses of the other nodes and
// sends everyone the directory.

module Registration {
  import opened Wire
  import opened Serial
  import opened Messages

  datatype Arrival = Arrival(node: nat, addr: Address)

  // The controller's table after some registrations; it starts with its own
  // address at 0.
  function Table(own: Address, arrivals: seq<Arrival>): map<nat, Address> {
    if arrivals == [] then map[0 := own]
    else
      var last := arrivals[|arrivals| - 1];
      Table(own, arrivals[..|arrivals| - 1])[last.node := last.addr]
  }

  function Nodes(arrivals: seq<Arrival>): set<nat> {
    set a | a in arrivals :: a.node
  }

  lemma {:induction false} TableKeys(own: Address, arrivals: seq<Arrival>)
    ensures Table(own, arrivals).Keys == {0} + Nodes(arrivals)
    ensures |Table(own, arrivals)| == |{0} + Nodes(arrivals)|
  {
    if arrivals != [] {
      var init, last := arrivals[..|arrivals| - 1], arrivals[|arrivals| - 1];
      TableKeys(own, init);
      assert arrivals == init + [last];
      NodesGrow(init, last);
    }
    assert |Table(own, arrivals)| == |Table(own, arrivals).Keys|;
  }

  // The loop stops after k registrations.
  predicate StopsAfter(own: Address, arrivals: seq<Arrival>, total: nat, k: nat) {
    k <= |arrivals| && |Table(own, arrivals[..k])| == total
    && forall i | 0 <= i < k :: |Table(own, arrivals[..i])| != total
  }

  lemma TableGrowsSlowly(own: Address, arrivals: seq<Arrival>, k: nat)
    requires k < |arrivals|
    ensures |Table(own, arrivals[..k])| <= |Table(own, arrivals[..k + 1])| <= |Table(own, arrivals[..k])| + 1
  {
    assert arrivals[..k + 1][..k] == arrivals[..k];
    var t, a := Table(own, arrivals[..k]), arrivals[k];
    var u := t[a.node := a.addr];
    assert u.Keys == t.Keys + {a.node};
    assert |t| == |t.Keys| && |u| == |u.Keys|;
    if a.node in t { assert u.Keys == t.Keys; }
  }

  lemma {:induction false} FindStop(own: Address, arrivals: seq<Arrival>, total: nat, k: nat) returns (stop: nat)
    requires k <= |arrivals| && total <= |Table(own, arrivals[..k])|
    requires 1 <= total
    ensures StopsAfter(own, arrivals, total, stop)
    decreases k
  {
    hide Table;
    if i: nat :| i < k && total <= |Table(own, arrivals[..i])| {
      stop := FindStop(own, arrivals, total, i);
    } else {
      stop := k;
      if k == 0 {
        TableKeys(own, arrivals[..0]);
        assert Nodes(arrivals[..0]) == {};
      } else {
        TableGrowsSlowly(own, arrivals, k - 1);
      }
    }
  }

  // The controller's loop ends exactly when enough different nodes register.
  lemma RegistrationEndsExactly(own: Address, arrivals: seq<Arrival>, total: nat)
    requires total >= 1
    ensures (exists k: nat :: StopsAfter(own, arrivals, total, k)) <==> |{0} + Nodes(arrivals)| >= total
  {
    var n := |arrivals|;
    assert arrivals[..n] == arrivals;
    TableKeys(own, arrivals);
    if |{0} + Nodes(arrivals)| >= total {
      var k := FindStop(own, arrivals, total, n);
    }
    forall k: nat | StopsAfter(own, arrivals, total, k) ensures |{0} + Nodes(arrivals)| >= total {
      TableKeys(own, arrivals[..k]);
      SubsetSize({0} + Nodes(arrivals[..k]), {0} + Nodes(arrivals));
    }
  }

  lemma {:induction false} SubsetSize(a: set<nat>, b: set<nat>)
    requires a <= b
    ensures |a| <= |b|
  {
    if x :| x in a { SubsetSize(a - {x}, b - {x}); }
  }

  // The nodes other than the controller, each once, in any order.
  predicate EachOnce(arrivals: seq<Arrival>, total: nat) {
    && total >= 1 && |arrivals| == total - 1
    && (forall i | 0 <= i < |arrivals| :: 1 <= arrivals[i].node < total)
    && Different(arrivals)
  }

  predicate Different(arrivals: seq<Arrival>) {
    forall i, j | 0 <= i < j < |arrivals| :: arrivals[i].node != arrivals[j].node
  }

  lemma DifferentWithoutLast(init: seq<Arrival>, last: Arrival)
    requires Different(init + [last])
    ensures Different(init) && last.node !in Nodes(init)
  {
    var all := init + [last];
    forall i | 0 <= i < |init| ensures init[i].node != last.node { assert all[i] == init[i] && all[|init|] == last; }
    assert forall i | 0 <= i < |init| :: init[i] == all[i];
  }

  lemma {:induction false} NodeCount(arrivals: seq<Arrival>)
    requires Different(arrivals)
    ensures |Nodes(arrivals)| == |arrivals|
  {
    if arrivals == [] {
      assert Nodes(arrivals) == {};
    } else {
      var init, last := arrivals[..|arrivals| - 1], arrivals[|arrivals| - 1];
      assert arrivals == init + [last];
      hide Different, Nodes;
      DifferentWithoutLast(init, last);
      NodeCount(init);
      NodesGrow(init, last);
    }
  }

  lemma DistinctNodes(arrivals: seq<Arrival>)
    requires (forall i | 0 <= i < |arrivals| :: arrivals[i].node >= 1) && Different(arrivals)
    ensures |{0} + Nodes(arrivals)| == |arrivals| + 1
  {
    NodeCount(arrivals);
    assert 0 !in Nodes(arrivals);
    assert {0} !! Nodes(arrivals);
  }

  lemma NodesGrow(init: seq<Arrival>, last: Arrival)
    ensures Nodes(init + [last]) == Nodes(init) + {last.node}
  {
  }

  function UpTo(n: nat): (s: set<nat>)
    ensures |s| == n && forall x: nat :: x in s <==> x < n
  {
    if n == 0 then {} else UpTo(n - 1) + {n - 1}
  }

  lemma {:induction false} SameSize(a: set<nat>, b: set<nat>)
    requires a <= b && |a| == |b|
    ensures a == b
  {
    if x :| x in a {
      SameSize(a - {x}, b - {x});
    } else {
      assert a == {};
      assert |b| == 0;
    }
  }

  // If each node registers once, the loop ends with the last registration and
  // the table has the address that each node sent.
  lemma EachNodeIsInTheTable(own: Address, arrivals: seq<Arrival>, total: nat)
    requires EachOnce(arrivals, total)
    ensures StopsAfter(own, arrivals, total, |arrivals|)
    ensures forall x: nat :: x in Table(own, arrivals) <==> x < total
    ensures Table(own, arrivals)[0] == own
    ensures forall i | 0 <= i < |arrivals| :: Table(own, arrivals)[arrivals[i].node] == arrivals[i].addr
  {
    hide Table;
    assert arrivals[..|arrivals|] == arrivals;
    DistinctNodes(arrivals);
    TableKeys(own, arrivals);
    forall i | 0 <= i < |arrivals| ensures |Table(own, arrivals[..i])| != total {
      DistinctNodes(arrivals[..i]);
      TableKeys(own, arrivals[..i]);
    }
    SameSize({0} + Nodes(arrivals), UpTo(total));
    TableValues(own, arrivals);
  }

  lemma {:induction false} TableValues(own: Address, arrivals: seq<Arrival>)
    requires forall i | 0 <= i < |arrivals| :: arrivals[i].node >= 1
    requires forall i, j | 0 <= i < j < |arrivals| :: arrivals[i].node != arrivals[j].node
    ensures 0 in Table(own, arrivals) && Table(own, arrivals)[0] == own
    ensures forall i | 0 <= i < |arrivals| ::
      arrivals[i].node in Table(own, arrivals) && Table(own, arrivals)[arrivals[i].node] == arrivals[i].addr
  {
    if arrivals != [] {
      var init := arrivals[..|arrivals| - 1];
      TableValues(own, init);
      assert forall i | 0 <= i < |init| :: init[i] == arrivals[i];
    }
  }

  // --------------------------------------------------------------- the two sides

  // What a node sends to register.
  function RegisterMessage(a: Arrival): Message {
    Message(0, 0, 0, Register(a.node, a.addr))
  }

  predicate Registers(bytes: seq<byte>, a: Arrival) {
    MessageOk(RegisterMessage(a)) && bytes == MessageBytes(RegisterMessage(a))
  }

  method Decoded(bytes: seq<byte>, ghost m: Message) returns (ok: bool, r: Message)
    requires MessageOk(m) && bytes == MessageBytes(m)
    ensures ok && r == m
  {
    MessageIsReadBack(m, []);
    assert bytes + [] == bytes;
    hide MessageBytes, MessageOk, ReadMessage;
    var d := new Deserializer(bytes);
    ok, r := GetMessage(d);
  }

  class Controller {
    const total: nat
    var peers: map<nat, Address>
    var connections: set<nat>

    constructor (own: Address, total: nat)
      ensures this.total == total && peers == Table(own, []) && connections == {}
    {
      this.total := total;
      peers := map[0 := own];
      connections := {};
    }

    method HandleRegister(bytes: seq<byte>, ghost a: Arrival)
      requires Registers(bytes, a)
      modifies this
      ensures peers == old(peers)[a.node := a.addr] && connections == old(connections) + {a.node}
    {
      hide MessageBytes, MessageOk;
      var ok, m := Decoded(bytes, RegisterMessage(a));
      assert ok && m.body.Register?;
      peers := peers[m.body.node := m.body.addr];
      connections := connections + {m.body.node};
    }

    // Accepts registrations until the table has total entries. Not done if it
    // would wait for more than there are.
    method ProcessRegistrations(registrations: seq<seq<byte>>, ghost own: Address, ghost arrivals: seq<Arrival>)
      returns (used: nat, done: bool)
      requires peers == Table(own, []) && connections == {}
      requires |registrations| == |arrivals|
      requires forall i | 0 <= i < |arrivals| :: Registers(registrations[i], arrivals[i])
      modifies this
      ensures used <= |arrivals| && peers == Table(own, arrivals[..used]) && connections == Nodes(arrivals[..used])
      ensures done <==> exists k: nat :: StopsAfter(own, arrivals, total, k)
      ensures done ==> StopsAfter(own, arrivals, total, used)
    {
      used := 0;
      assert arrivals[..0] == [];
      hide Table, Registers, Nodes, StopsAfter, Running;
      StartRunning(own, arrivals, total);
      while |peers| != total
        invariant used <= |arrivals| && peers == Table(own, arrivals[..used]) && connections == Nodes(arrivals[..used])
        invariant Running(own, arrivals, total, used)
        decreases |arrivals| - used
      {
        KeepsRunning(own, arrivals, total, used);
        if used == |registrations| { return used, false; }
        NextArrival(own, arrivals, used);
        HandleRegister(registrations[used], arrivals[used]);
        used := used + 1;
      }
      done := true;
      StopsHere(own, arrivals, total, used);
    }

    // The directory message: the addresses in the order of the node numbers.
    method MakeDirectory() returns (m: Message)
      requires forall x: nat :: x in peers <==> x < |peers|
      ensures m == Message(0, 0, 0, Directory(InOrder(peers)))
    {
      var addrs := [];
      for i := 0 to |peers|
        invariant |addrs| == i && forall j | 0 <= j < i :: addrs[j] == peers[j]
      {
        addrs := addrs + [peers[i]];
      }
      assert addrs == InOrder(peers);
      m := Message(0, 0, 0, Directory(addrs));
    }
  }

  // The loop has not stopped in any of the first k states.
  predicate Running(own: Address, arrivals: seq<Arrival>, total: nat, k: nat) {
    forall i: nat | i < k && i <= |arrivals| :: |Table(own, arrivals[..i])| != total
  }

  lemma StartRunning(own: Address, arrivals: seq<Arrival>, total: nat)
    ensures Running(own, arrivals, total, 0)
  {
  }

  lemma KeepsRunning(own: Address, arrivals: seq<Arrival>, total: nat, k: nat)
    requires Running(own, arrivals, total, k) && k <= |arrivals| && |Table(own, arrivals[..k])| != total
    ensures Running(own, arrivals, total, k + 1)
    ensures k == |arrivals| ==> !exists k: nat :: StopsAfter(own, arrivals, total, k)
  {
    hide Table;
  }

  lemma StopsHere(own: Address, arrivals: seq<Arrival>, total: nat, k: nat)
    requires Running(own, arrivals, total, k) && k <= |arrivals| && |Table(own, arrivals[..k])| == total
    ensures StopsAfter(own, arrivals, total, k)
  {
    hide Table;
  }

  function InOrder(peers: map<nat, Address>): seq<Address>
    requires forall x: nat :: x in peers <==> x < |peers|
  {
    seq(|peers|, i requires 0 <= i < |peers| => peers[i])
  }

  lemma NextArrival(own: Address, arrivals: seq<Arrival>, k: nat)
    requires k < |arrivals|
    ensures Table(own, arrivals[..k + 1]) == Table(own, arrivals[..k])[arrivals[k].node := arrivals[k].addr]
    ensures Nodes(arrivals[..k + 1]) == Nodes(arrivals[..k]) + {arrivals[k].node}
  {
    assert arrivals[..k + 1][..k] == arrivals[..k];
    assert arrivals[..k + 1] == arrivals[..k] + [arrivals[k]];
  }

  class Client {
    const total: nat
    var peers: map<nat, Address>

    constructor (controller: Address, total: nat)
      ensures this.total == total && peers == map[0 := controller]
    {
      this.total := total;
      peers := map[0 := controller];
    }

    // Takes over all addresses but the controller's, which it knows already.
    method HandleDirectory(bytes: seq<byte>, ghost addrs: seq<Address>) returns (ok: bool)
      requires MessageOk(Message(0, 0, 0, Directory(addrs)))
      requires bytes == MessageBytes(Message(0, 0, 0, Directory(addrs)))
      modifies this
      ensures ok == (|addrs| == total)
      ensures ok ==> peers == Merged(old(peers), addrs, total)
    {
      hide MessageBytes, MessageOk;
      var fine, m := Decoded(bytes, Message(0, 0, 0, Directory(addrs)));
      var got := m.body.addrs;
      ok := |got| == total;
      if !ok { return; }
      var i := 1;
      while i < |got|
        invariant 1 <= i && (i <= |got| || i == 1)
        invariant peers == Merged(old(peers), addrs, if i <= |got| then i else |got|)
      {
        peers := peers[i := got[i]];
        i := i + 1;
      }
    }
  }

  // The table with the directory's entries 1 to k - 1.
  function Merged(peers: map<nat, Address>, addrs: seq<Address>, k: nat): map<nat, Address>
    requires k <= |addrs|
  {
    if k <= 1 then peers else Merged(peers, addrs, k - 1)[k - 1 := addrs[k - 1]]
  }

  lemma {:induction false} MergedIsCopied(table: map<nat, Address>, k: nat)
    requires (forall x: nat :: x in table <==> x < |table|) && 1 <= k <= |table|
    ensures var m := Merged(map[0 := table[0]], InOrder(table), k);
      forall x: nat :: (x in m <==> x < k) && (x in m ==> m[x] == table[x])
  {
    if k > 1 { MergedIsCopied(table, k - 1); }
  }

  // A client that starts with the controller's address ends with its table.
  lemma DirectoryCopiesTheTable(table: map<nat, Address>)
    requires (forall x: nat :: x in table <==> x < |table|) && |table| >= 1
    ensures Merged(map[0 := table[0]], InOrder(table), |table|) == table
  {
    MergedIsCopied(table, |table|);
    hide Merged, InOrder;
  }

  method SendRegistrations(arrivals: seq<Arrival>) returns (registrations: seq<seq<byte>>)
    requires forall i | 0 <= i < |arrivals| :: AddressOk(arrivals[i].addr) && arrivals[i].node < Pow256(SIZE_WIDTH)
    ensures |registrations| == |arrivals| && forall i | 0 <= i < |arrivals| :: Registers(registrations[i], arrivals[i])
  {
    registrations := [];
    hide AddressOk, MessageBytes;
    for i := 0 to |arrivals|
      invariant |registrations| == i && forall j | 0 <= j < i :: Registers(registrations[j], arrivals[j])
    {
      RegistrationIsOk(arrivals[i]);
      var bytes := BytesOf(RegisterMessage(arrivals[i]));
      registrations := registrations + [bytes];
    }
  }

  lemma ZeroIsSmall()
    ensures 0 < Pow256(SIZE_WIDTH)
  {
    assert Pow256(1) == 256 && Pow256(2) > 0 && Pow256(3) > 0 && Pow256(4) > 0 && Pow256(5) > 0 && Pow256(6) > 0;
  }

  lemma RegistrationIsOk(a: Arrival)
    requires AddressOk(a.addr) && a.node < Pow256(SIZE_WIDTH)
    ensures MessageOk(RegisterMessage(a))
  {
    ZeroIsSmall();
    hide Pow256, AddressOk;
  }

  lemma OnlyStop(own: Address, arrivals: seq<Arrival>, total: nat, used: nat)
    requires EachOnce(arrivals, total) && used <= |arrivals|
    requires (exists k: nat :: StopsAfter(own, arrivals, total, k)) ==> StopsAfter(own, arrivals, total, used)
    ensures used == |arrivals| && arrivals[..used] == arrivals && StopsAfter(own, arrivals, total, used)
  {
    EachNodeIsInTheTable(own, arrivals, total);
    hide Table, EachOnce;
    assert StopsAfter(own, arrivals, total, |arrivals|);
  }

  lemma AddressesAreOk(own: Address, arrivals: seq<Arrival>, total: nat)
    requires EachOnce(arrivals, total) && AddressOk(own)
    requires forall i | 0 <= i < |arrivals| :: AddressOk(arrivals[i].addr)
    ensures forall x: nat | x < total :: x in Table(own, arrivals) && AddressOk(Table(own, arrivals)[x])
  {
    EachNodeIsInTheTable(own, arrivals, total);
    TableKeys(own, arrivals);
    hide Table, AddressOk;
    forall x: nat | x < total ensures AddressOk(Table(own, arrivals)[x]) {
      if x != 0 {
        assert x in Nodes(arrivals);
        var i :| 0 <= i < |arrivals| && arrivals[i].node == x;
      }
    }
  }

  lemma DirectoryIsOk(own: Address, arrivals: seq<Arrival>, total: nat)
    requires EachOnce(arrivals, total) && AddressOk(own) && total < Pow256(SIZE_WIDTH)
    requires forall i | 0 <= i < |arrivals| :: AddressOk(arrivals[i].addr)
    ensures |Table(own, arrivals)| == total && forall x: nat :: x in Table(own, arrivals) <==> x < total
    ensures Table(own, arrivals)[0] == own && MessageOk(Message(0, 0, 0, Directory(InOrder(Table(own, arrivals)))))
  {
    EachNodeIsInTheTable(own, arrivals, total);
    DistinctNodes(arrivals);
    TableKeys(own, arrivals);
    AddressesAreOk(own, arrivals, total);
    ZeroIsSmall();
    hide Table, Pow256, AddressOk, StopsAfter, Nodes, EachOnce;
    var table := Table(own, arrivals);
    forall i | 0 <= i < total ensures AddressOk(InOrder(table)[i]) { assert InOrder(table)[i] == table[i]; }
    hide InOrder;
  }

  // Node numbers 1 to total - 1 register in any order; then the controller's
  // loop has ended and every client's table is the controller's.
  method RegisterAll(own: Address, arrivals: seq<Arrival>, total: nat)
    returns (controller: Controller, clients: seq<Client>)
    requires EachOnce(arrivals, total) && AddressOk(own) && total < Pow256(SIZE_WIDTH)
    requires forall i | 0 <= i < |arrivals| :: AddressOk(arrivals[i].addr)
    ensures controller.peers == Table(own, arrivals) && |controller.peers| == total
    ensures controller.connections == Nodes(arrivals)
    ensures forall x: nat :: x in controller.peers <==> x < total
    ensures controller.peers[0] == own
    ensures forall i | 0 <= i < |arrivals| :: controller.peers[arrivals[i].node] == arrivals[i].addr
    ensures |clients| == |arrivals| && forall i | 0 <= i < |clients| :: clients[i].peers == controller.peers
  {
    hide Pow256, AddressOk, Table, MessageOk, MessageBytes;
    controller := new Controller(own, total);
    var registrations := SendRegistrations(arrivals);
    var used, done := controller.ProcessRegistrations(registrations, own, arrivals);
    OnlyStop(own, arrivals, total, used);
    DirectoryIsOk(own, arrivals, total);
    EachNodeIsInTheTable(own, arrivals, total);
    DirectoryCopiesTheTable(Table(own, arrivals));
    var m := controller.MakeDirectory();
    var bytes := BytesOf(m);
    ghost var addrs := InOrder(Table(own, arrivals));
    hide InOrder, Merged, EachOnce, StopsAfter;
    clients := [];
    for i := 0 to |arrivals|
      invariant |clients| == i && controller.peers == Table(own, arrivals) && controller.connections == Nodes(arrivals)
      invariant forall j | 0 <= j < i :: clients[j].peers == Table(own, arrivals)
    {
      var client := new Client(own, total);
      var ok := client.HandleDirectory(bytes, addrs);
      clients := clients + [client];
    }
  }
}
