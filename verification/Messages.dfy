// Messages: their bytes, and what the serializing methods and deserializing
// constructors do.

module Messages {
  import opened Wire
  import opened Serial
  import opened Segments
  import opened Formats

  datatype Address = Address(ip: nat, port: nat)

  datatype Body =
    | Put(key: SegKey, val: seq<byte>)
    | Get(key: SegKey)
    | WaitAndGet(key: SegKey)
    | Reply(val: seq<byte>)
    | Kill
    | Register(node: nat, addr: Address)
    | Directory(addrs: seq<Address>)
    | Status(text: string)

  datatype Message = Message(sender: nat, target: nat, id: nat, body: Body)

  const KIND_WIDTH := 4
  const ADDRESS := Pair(Num(4), Num(2))
  const HEAD := Pair(Num(SIZE_WIDTH), Pair(Num(SIZE_WIDTH), Num(SIZE_WIDTH)))

  function KindOf(b: Body): nat {
    match b
    case Put(_, _) => 0
    case Get(_) => 1
    case WaitAndGet(_) => 2
    case Reply(_) => 3
    case Kill => 4
    case Register(_, _) => 5
    case Directory(_) => 6
    case Status(_) => 7
  }

  // What follows the head of a message of each kind; nothing follows a kill.
  function BodyShape(kind: nat): Shape {
    match kind
    case 0 => Pair(KEY, Blob)
    case 1 => KEY
    case 2 => KEY
    case 3 => Blob
    case 5 => Pair(Num(SIZE_WIDTH), ADDRESS)
    case 6 => List(ADDRESS)
    case 7 => Blob
    case _ => Num(0)
  }

  predicate AddressOk(a: Address) {
    a.ip < Pow256(4) && a.port < Pow256(2)
  }

  predicate ValueOk(v: seq<byte>) {
    0 < |v| < Pow256(SIZE_WIDTH)
  }

  predicate BodyOk(b: Body) {
    match b
    case Put(k, v) => KeyOk(k) && ValueOk(v)
    case Get(k) => KeyOk(k)
    case WaitAndGet(k) => KeyOk(k)
    case Reply(v) => ValueOk(v)
    case Kill => true
    case Register(n, a) => IsSize(n) && AddressOk(a)
    case Directory(addrs) => IsSize(|addrs|) && forall i | 0 <= i < |addrs| :: AddressOk(addrs[i])
    case Status(text) => Writable(text)
  }

  predicate MessageOk(m: Message) {
    IsSize(m.sender) && IsSize(m.target) && IsSize(m.id) && BodyOk(m.body)
  }

  function AddressDatum(a: Address): Datum {
    P(N(a.ip), N(a.port))
  }

  function AddressData(addrs: seq<Address>): seq<Datum> {
    seq(|addrs|, i requires 0 <= i < |addrs| => AddressDatum(addrs[i]))
  }

  function BodyDatum(b: Body): Datum
    requires BodyOk(b)
  {
    match b
    case Put(k, v) => P(KeyDatum(k), T(v))
    case Get(k) => KeyDatum(k)
    case WaitAndGet(k) => KeyDatum(k)
    case Reply(v) => T(v)
    case Kill => N(0)
    case Register(n, a) => P(N(n), AddressDatum(a))
    case Directory(addrs) => L(AddressData(addrs))
    case Status(text) => T(ToBytes(text))
  }

  function HeadDatum(m: Message): Datum {
    P(N(m.sender), P(N(m.target), N(m.id)))
  }

  lemma AddressesFit(addrs: seq<Address>)
    requires forall i | 0 <= i < |addrs| :: AddressOk(addrs[i])
    ensures CarriesAll(ADDRESS, AddressData(addrs))
  {
    EachCarries(ADDRESS, AddressData(addrs));
    hide CarriesAll, Pow256;
  }

  lemma BodyFits(b: Body)
    requires BodyOk(b)
    ensures Carries(BodyShape(KindOf(b)), BodyDatum(b))
  {
    match b
    case Put(k, v) => KeyFits(k); hide Pow256, ToBytes;
    case Get(k) => KeyFits(k);
    case WaitAndGet(k) => KeyFits(k);
    case Reply(v) =>
    case Kill =>
    case Register(n, a) =>
    case Directory(addrs) => AddressesFit(addrs);
    case Status(text) =>
  }

  function MessageBytes(m: Message): seq<byte>
    requires MessageOk(m)
  {
    BodyFits(m.body);
    LittleEndian(KindOf(m.body), KIND_WIDTH)
      + Encode(HEAD, HeadDatum(m)) + Encode(BodyShape(KindOf(m.body)), BodyDatum(m.body))
  }

  // ----------------------------------------------------------------- reading back

  function AddressOf(d: Datum): Address
    requires Carries(ADDRESS, d)
  {
    Address(d.a.n, d.b.n)
  }

  function AddressesOf(items: seq<Datum>): seq<Address>
    requires CarriesAll(ADDRESS, items)
  {
    EachCarries(ADDRESS, items);
    seq(|items|, i requires 0 <= i < |items| => AddressOf(items[i]))
  }

  function BodyOf(kind: nat, d: Datum): Body
    requires kind <= 7 && Carries(BodyShape(kind), d)
  {
    match kind
    case 0 => Put(KeyOf(d.a), d.b.s)
    case 1 => Get(KeyOf(d))
    case 2 => WaitAndGet(KeyOf(d))
    case 3 => Reply(d.s)
    case 4 => Kill
    case 5 => Register(d.a.n, AddressOf(d.b))
    case 6 => Directory(AddressesOf(d.items))
    case _ => Status(FromBytes(d.s))
  }

  // A kind that does not exist fails an assertion.
  function ReadMessage(s: seq<byte>): Read<Message> {
    match ReadNumber(KIND_WIDTH, s)
    case Failed => Failed
    case Got(kind, s1) =>
      if kind > 7 then Failed
      else match Decode(HEAD, s1)
        case Failed => Failed
        case Got(head, s2) =>
          match Decode(BodyShape(kind), s2)
          case Failed => Failed
          case Got(body, rest) =>
            EncodeUndoesDecode(HEAD, s1);
            EncodeUndoesDecode(BodyShape(kind), s2);
            Got(Message(head.a.n, head.b.a.n, head.b.b.n, BodyOf(kind, body)), rest)
  }

  // The eight kinds are 0 to 7.
  lemma UnknownKindFails(s: seq<byte>)
    requires ReadNumber(4, s).Got? && ReadNumber(4, s).value >= 8
    ensures ReadMessage(s).Failed?
  {
    hide ReadNumber, Decode;
  }

  lemma AddressesBack(addrs: seq<Address>)
    requires forall i | 0 <= i < |addrs| :: AddressOk(addrs[i])
    ensures CarriesAll(ADDRESS, AddressData(addrs)) && AddressesOf(AddressData(addrs)) == addrs
  {
    AddressesFit(addrs);
    hide CarriesAll, Pow256;
  }

  lemma BodyBack(b: Body)
    requires BodyOk(b)
    ensures Carries(BodyShape(KindOf(b)), BodyDatum(b)) && BodyOf(KindOf(b), BodyDatum(b)) == b
  {
    BodyFits(b);
    match b
    case Put(k, v) => KeyBack(k); hide KeyOf, KeyDatum;
    case Get(k) => KeyBack(k); hide KeyOf, KeyDatum;
    case WaitAndGet(k) => KeyBack(k); hide KeyOf, KeyDatum;
    case Reply(v) =>
    case Kill =>
    case Register(n, a) =>
    case Directory(addrs) => AddressesBack(addrs); hide AddressesOf, AddressData;
    case Status(text) => TextBack(text);
  }

  lemma KindIsSmall(b: Body)
    ensures KindOf(b) <= 7 && KindOf(b) < Pow256(KIND_WIDTH)
  {
    assert Pow256(1) == 256 && Pow256(2) == 65536 && Pow256(3) == 16777216;
  }

  lemma HeadFits(m: Message)
    requires MessageOk(m)
    ensures Carries(HEAD, HeadDatum(m))
  {
    hide Pow256;
  }

  // Reading a message undoes writing it and leaves what follows.
  lemma MessageIsReadBack(m: Message, suffix: seq<byte>)
    requires MessageOk(m)
    ensures ReadMessage(MessageBytes(m) + suffix) == Got(m, suffix)
  {
    var kind := KindOf(m.body);
    KindIsSmall(m.body);
    BodyBack(m.body);
    HeadFits(m);
    var head, body := Encode(HEAD, HeadDatum(m)), Encode(BodyShape(kind), BodyDatum(m.body));
    assert MessageBytes(m) + suffix == LittleEndian(kind, KIND_WIDTH) + (head + (body + suffix));
    ReadNumberBack(kind, KIND_WIDTH, head + (body + suffix));
    DecodeUndoesEncode(HEAD, HeadDatum(m), body + suffix);
    DecodeUndoesEncode(BodyShape(kind), BodyDatum(m.body), suffix);
    hide Encode, Decode, ReadNumber, LittleEndian, Pow256, BodyShape, BodyOf, BodyDatum, Carries, KindOf;
  }

  // -------------------------------------------------------- the writing methods

  method WriteAddress(s: Serializer, a: Address)
    requires s.Valid() && AddressOk(a)
    modifies s, s.bytes
    ensures Carries(ADDRESS, AddressDatum(a)) && Wrote(s, Encode(ADDRESS, AddressDatum(a)))
  {
    PairInParts(s.Contents(), Num(4), Num(2), N(a.ip), N(a.port));
    hide Encode, Pow256, Serializer.Valid, Serializer.Contents;
    s.AddNumber(a.ip, 4);
    s.AddNumber(a.port, 2);
  }

  method WriteNextAddress(s: Serializer, addrs: seq<Address>, j: nat, ghost start: seq<byte>)
    requires (forall i | 0 <= i < |addrs| :: AddressOk(addrs[i])) && j < |addrs|
    requires WroteUpTo(s, start, ADDRESS, AddressData(addrs), j)
    modifies s, s.bytes
    ensures WroteUpTo(s, start, ADDRESS, AddressData(addrs), j + 1)
    ensures s.bytes == old(s.bytes) || fresh(s.bytes)
  {
    NextIsWritten(ADDRESS, AddressData(addrs), j, start);
    hide EncodeAll, Encode, CarriesAll, Carries, AddressDatum, Serializer.Valid, Serializer.Contents;
    WriteAddress(s, addrs[j]);
  }

  method WriteAddresses(s: Serializer, addrs: seq<Address>)
    requires s.Valid() && IsSize(|addrs|) && forall i | 0 <= i < |addrs| :: AddressOk(addrs[i])
    modifies s, s.bytes
    ensures Carries(List(ADDRESS), L(AddressData(addrs))) && Wrote(s, Encode(List(ADDRESS), L(AddressData(addrs))))
  {
    AddressesFit(addrs);
    ListInParts(s.Contents(), ADDRESS, AddressData(addrs));
    hide Encode, EncodeAll, Carries, CarriesAll, Pow256, Serializer.Valid, Serializer.Contents, WroteUpTo;
    s.AddNumber(|addrs|, SIZE_WIDTH);
    ghost var start := s.Contents();
    NothingYet(s, start, ADDRESS, AddressData(addrs));
    for j := 0 to |addrs|
      invariant WroteUpTo(s, start, ADDRESS, AddressData(addrs), j)
      invariant s.bytes == old(s.bytes) || fresh(s.bytes)
    {
      WriteNextAddress(s, addrs, j, start);
    }
    AllWritten(s, start, ADDRESS, AddressData(addrs));
  }

  // What the subclasses of Message write after the head.
  method WriteBody(s: Serializer, b: Body)
    requires s.Valid() && BodyOk(b)
    modifies s, s.bytes
    ensures Carries(BodyShape(KindOf(b)), BodyDatum(b)) && Wrote(s, Encode(BodyShape(KindOf(b)), BodyDatum(b)))
  {
    BodyFits(b);
    ghost var was := s.Contents();
    match b {
      case Put(k, v) =>
        PairInParts(was, KEY, Blob, KeyDatum(k), T(v));
        hide Encode, Pow256, KeyDatum, Serializer.Valid, Serializer.Contents;
        WriteKey(s, k);
        s.AddString(v);
      case Get(k) => WriteKey(s, k);
      case WaitAndGet(k) => WriteKey(s, k);
      case Reply(v) => s.AddString(v);
      case Kill => NothingIsEncoded(was);
      case Register(n, a) =>
        PairInParts(was, Num(SIZE_WIDTH), ADDRESS, N(n), AddressDatum(a));
        hide Encode, Pow256, Serializer.Valid, Serializer.Contents;
        s.AddNumber(n, SIZE_WIDTH);
        WriteAddress(s, a);
      case Directory(addrs) => WriteAddresses(s, addrs);
      case Status(text) => s.AddString(ToBytes(text));
    }
  }

  lemma NothingIsEncoded(was: seq<byte>)
    ensures Carries(Num(0), N(0)) && was + Encode(Num(0), N(0)) == was
  {
  }

  method WriteHead(s: Serializer, m: Message)
    requires s.Valid() && MessageOk(m)
    modifies s, s.bytes
    ensures Carries(HEAD, HeadDatum(m)) && Wrote(s, Encode(HEAD, HeadDatum(m)))
  {
    HeadFits(m);
    ghost var was := s.Contents();
    ghost var tail := Pair(Num(SIZE_WIDTH), Num(SIZE_WIDTH));
    PairInParts(was + Encode(Num(SIZE_WIDTH), N(m.sender)), Num(SIZE_WIDTH), Num(SIZE_WIDTH), N(m.target), N(m.id));
    PairInParts(was, Num(SIZE_WIDTH), tail, N(m.sender), P(N(m.target), N(m.id)));
    hide Encode, Pow256, Serializer.Valid, Serializer.Contents;
    s.AddNumber(m.sender, SIZE_WIDTH);
    s.AddNumber(m.target, SIZE_WIDTH);
    s.AddNumber(m.id, SIZE_WIDTH);
  }

  method WriteMessage(s: Serializer, m: Message)
    requires s.Valid() && MessageOk(m)
    modifies s, s.bytes
    ensures Wrote(s, MessageBytes(m))
  {
    KindIsSmall(m.body);
    MessageInParts(s.Contents(), m);
    hide Encode, Pow256, BodyShape, BodyDatum, HeadDatum, KindOf, MessageBytes, Serializer.Valid, Serializer.Contents;
    s.AddNumber(KindOf(m.body), KIND_WIDTH);
    WriteHead(s, m);
    WriteBody(s, m.body);
  }

  lemma MessageInParts(was: seq<byte>, m: Message)
    requires MessageOk(m)
    ensures Carries(Num(KIND_WIDTH), N(KindOf(m.body))) && Carries(HEAD, HeadDatum(m))
    ensures Carries(BodyShape(KindOf(m.body)), BodyDatum(m.body))
    ensures was + Encode(Num(KIND_WIDTH), N(KindOf(m.body))) + Encode(HEAD, HeadDatum(m))
      + Encode(BodyShape(KindOf(m.body)), BodyDatum(m.body)) == was + MessageBytes(m)
  {
    KindIsSmall(m.body);
    HeadFits(m);
    BodyFits(m.body);
    var x, y, z := Encode(Num(KIND_WIDTH), N(KindOf(m.body))), Encode(HEAD, HeadDatum(m)),
      Encode(BodyShape(KindOf(m.body)), BodyDatum(m.body));
    assert MessageBytes(m) == x + y + z;
    hide Encode, MessageBytes;
    assert was + x + y + z == was + (x + y + z);
  }

  // The bytes that send_message hands to the socket.
  method BytesOf(m: Message) returns (bytes: seq<byte>)
    requires MessageOk(m)
    ensures bytes == MessageBytes(m)
  {
    var s := new Serializer();
    hide MessageBytes, Serializer.Valid, Serializer.Contents;
    WriteMessage(s, m);
    bytes := s.GetBytes();
  }

  // -------------------------------------------------------- the reading methods

  method GetAddress(d: Deserializer) returns (ok: bool, a: Address)
    requires d.Valid()
    modifies d
    ensures d.Valid() && ok == Decode(ADDRESS, old(d.Remaining())).Got?
    ensures ok ==> var r := Decode(ADDRESS, old(d.Remaining()));
      Carries(ADDRESS, r.value) && a == AddressOf(r.value) && d.Remaining() == r.rest
  {
    a := Address(0, 0);
    ghost var s := d.Remaining();
    if Decode(ADDRESS, s).Got? { EncodeUndoesDecode(ADDRESS, s); }
    hide ReadNumber, Pow256, Encode;
    var ip, port;
    ok, ip := d.GetNumber(4);
    if !ok { return; }
    ok, port := d.GetNumber(2);
    a := Address(ip, port);
  }

  method GetNextAddress(d: Deserializer, ghost total: nat, ghost s: seq<byte>, ghost done: seq<Datum>)
    returns (ok: bool, a: Address, ghost more: seq<Datum>)
    requires d.Valid() && ReadUpTo(ADDRESS, total, s, done, d.Remaining()) && |done| < total
    modifies d
    ensures d.Valid()
    ensures !ok ==> DecodeAll(ADDRESS, total, s).Failed?
    ensures ok ==> ReadUpTo(ADDRESS, total, s, more, d.Remaining()) && |more| == |done| + 1
    ensures ok ==> AddressesOf(more) == AddressesOf(done) + [a]
  {
    more := done;
    ghost var rest := d.Remaining();
    NextIsRead(ADDRESS, total, s, done, rest);
    hide Decode, DecodeAll, AddressOf, Carries;
    ok, a := GetAddress(d);
    if ok { more := done + [Decode(ADDRESS, rest).value]; }
  }

  method GetAddresses(d: Deserializer) returns (ok: bool, addrs: seq<Address>)
    requires d.Valid()
    modifies d
    ensures d.Valid() && ok == Decode(List(ADDRESS), old(d.Remaining())).Got?
    ensures ok ==> var r := Decode(List(ADDRESS), old(d.Remaining()));
      Carries(List(ADDRESS), r.value) && addrs == AddressesOf(r.value.items) && d.Remaining() == r.rest
  {
    addrs := [];
    ghost var whole := d.Remaining();
    var count;
    ok, count := d.GetNumber(SIZE_WIDTH);
    if !ok { return; }
    ghost var s, done := d.Remaining(), [];
    CountIsSmall(whole);
    ReadingStarts(ADDRESS, count, s);
    for i := 0 to count
      invariant d.Valid() && |done| == i && ReadUpTo(ADDRESS, count, s, done, d.Remaining())
      invariant addrs == AddressesOf(done)
    {
      var a;
      ok, a, done := GetNextAddress(d, count, s, done);
      if !ok { return; }
      addrs := addrs + [a];
    }
    ReadingEnds(ADDRESS, count, s, done, d.Remaining());
  }

  // The deserializing constructors of the subclasses, by kind.
  method GetBody(d: Deserializer, kind: nat) returns (ok: bool, b: Body)
    requires d.Valid() && kind <= 7
    modifies d
    ensures d.Valid() && ok == Decode(BodyShape(kind), old(d.Remaining())).Got?
    ensures ok ==> var r := Decode(BodyShape(kind), old(d.Remaining()));
      Carries(BodyShape(kind), r.value) && b == BodyOf(kind, r.value) && d.Remaining() == r.rest
  {
    b := Kill;
    ok := true;
    ghost var s := d.Remaining();
    if Decode(BodyShape(kind), s).Got? { EncodeUndoesDecode(BodyShape(kind), s); }
    var k, v;
    match kind {
      case 0 =>
        ok, k := GetKey(d);
        if !ok { return; }
        ok, v := d.GetString();
        b := Put(k, v);
      case 1 => ok, k := GetKey(d); b := Get(k);
      case 2 => ok, k := GetKey(d); b := WaitAndGet(k);
      case 3 => ok, v := d.GetString(); b := Reply(v);
      case 4 =>
      case 5 =>
        var n, a;
        ok, n := d.GetNumber(SIZE_WIDTH);
        if !ok { return; }
        ok, a := GetAddress(d);
        b := Register(n, a);
      case 6 =>
        var addrs;
        ok, addrs := GetAddresses(d);
        b := Directory(addrs);
      case _ => ok, v := d.GetString(); b := Status(FromBytes(v));
    }
  }

  method GetHead(d: Deserializer) returns (ok: bool, sender: nat, target: nat, id: nat)
    requires d.Valid()
    modifies d
    ensures d.Valid() && ok == Decode(HEAD, old(d.Remaining())).Got?
    ensures ok ==> Got(P(N(sender), P(N(target), N(id))), d.Remaining()) == Decode(HEAD, old(d.Remaining()))
  {
    hide ReadNumber;
    target, id := 0, 0;
    ok, sender := d.GetNumber(SIZE_WIDTH);
    if !ok { return; }
    ok, target := d.GetNumber(SIZE_WIDTH);
    if !ok { return; }
    ok, id := d.GetNumber(SIZE_WIDTH);
  }

  // Reads the kind, and then what the constructor of that kind reads.
  method GetMessage(d: Deserializer) returns (ok: bool, m: Message)
    requires d.Valid()
    modifies d
    ensures d.Valid() && ok == ReadMessage(old(d.Remaining())).Got?
    ensures ok ==> Got(m, d.Remaining()) == ReadMessage(old(d.Remaining()))
  {
    m := Message(0, 0, 0, Kill);
    var kind, sender, target, id, body;
    hide ReadNumber, Decode, BodyOf, BodyShape;
    ok, kind := d.GetNumber(KIND_WIDTH);
    if !ok || kind > 7 { return false, m; }
    ok, sender, target, id := GetHead(d);
    if !ok { return; }
    ok, body := GetBody(d, kind);
    m := Message(sender, target, id, body);
  }
}
