// The bytes of everything that is written, spelled out byte by byte and part by
// part: a second definition of the formats, which the first one agrees with.

module Layouts {
  import opened Arith
  import opened Wire
  import opened Segments
  import opened Arrays
  import opened Columns
  import opened Frames
  import opened Formats
  import opened Messages
  import opened Streams

  // -------------------------------------------------------------------- numbers

  // The lowest byte first.
  function Bytes2(x: nat): seq<byte> {
    [x % 256, x / 0x100 % 256]
  }

  function Bytes4(x: nat): seq<byte> {
    [x % 256, x / 0x100 % 256, x / 0x1_0000 % 256, x / 0x100_0000 % 256]
  }

  function Bytes8(x: nat): seq<byte> {
    [x % 256, x / 0x100 % 256, x / 0x1_0000 % 256, x / 0x100_0000 % 256, x / 0x1_0000_0000 % 256,
     x / 0x100_0000_0000 % 256, x / 0x1_0000_0000_0000 % 256, x / 0x100_0000_0000_0000 % 256]
  }

  lemma NumbersAreLaidOut(x: nat)
    ensures LittleEndian(x, 1) == [x % 256] && LittleEndian(x, 2) == Bytes2(x)
    ensures LittleEndian(x, 4) == Bytes4(x) && LittleEndian(x, 8) == Bytes8(x)
  {
    Shifts(x);
    hide LittleEndian;
    FourAreLaidOut(x / 0x1_0000_0000, 4);
    FourAreLaidOut(x, 8);
    FourAreLaidOut(x, 4);
    TwoAreLaidOut(x, 0);
    NextByte(x, 0);
    NextByte(x, 1);
  }

  lemma NextByte(x: nat, width: nat)
    ensures LittleEndian(x, width + 1) == [x % 256] + LittleEndian(x / 256, width)
    ensures LittleEndian(x, 0) == []
  {
  }

  // The next two bytes, of two or more.
  lemma TwoAreLaidOut(x: nat, width: nat)
    ensures LittleEndian(x, width + 2) == [x % 256, x / 0x100 % 256] + LittleEndian(x / 0x1_0000, width)
    ensures LittleEndian(x, 0) == []
  {
    Shift(x, 256, 256);
    NextByte(x, width + 1);
    NextByte(x / 256, width);
    hide LittleEndian;
  }

  // The next four bytes, of four or eight.
  lemma FourAreLaidOut(x: nat, width: nat)
    requires width >= 4
    ensures LittleEndian(x, width) == Bytes4(x) + LittleEndian(x / 0x1_0000_0000, width - 4)
    ensures LittleEndian(x, 0) == []
  {
    Shift(x, 0x1_0000, 0x100);
    Shift(x, 0x1_0000, 0x1_0000);
    TwoAreLaidOut(x, width - 2);
    TwoAreLaidOut(x / 0x1_0000, width - 4);
    hide LittleEndian;
  }

  lemma Shifts(x: nat)
    ensures Bytes8(x) == Bytes4(x) + Bytes4(x / 0x1_0000_0000)
  {
    Shift(x, 0x1_0000_0000, 0x100);
    Shift(x, 0x1_0000_0000, 0x1_0000);
    Shift(x, 0x1_0000_0000, 0x100_0000);
  }

  lemma Shift(x: nat, a: nat, b: nat)
    requires a > 0 && b > 0
    ensures x / a / b == x / (a * b)
  {
    var y, q := x / a, x / a / b;
    var m := y % b;
    QuotientAndRest(x, a);
    QuotientAndRest(y, b);
    Rearranged(q, b, m, a);
    Smaller(m, x % a, a, b);
    DivisionIsUnique(x, a * b, q, m * a + x % a);
  }

  lemma QuotientAndRest(x: nat, a: nat)
    requires a > 0
    ensures x == x / a * a + x % a
  {
  }

  lemma Rearranged(q: nat, b: nat, m: nat, a: nat)
    ensures (q * b + m) * a == q * (a * b) + m * a
  {
    assert (q * b + m) * a == q * b * a + m * a;
    assert q * b * a == q * (a * b);
  }

  lemma Smaller(m: nat, r: nat, a: nat, b: nat)
    requires r < a && m < b
    ensures m * a + r < a * b
  {
    Scale(m + 1, b, a);
    assert (m + 1) * a == m * a + a;
  }

  // ---------------------------------------------------------------------- parts

  function Join(parts: seq<seq<byte>>): seq<byte> {
    if parts == [] then [] else parts[0] + Join(parts[1..])
  }

  lemma {:induction false} ItemsAreJoined(elem: Shape, items: seq<Datum>, parts: seq<seq<byte>>)
    requires CarriesAll(elem, items) && |parts| == |items|
    requires forall i | 0 <= i < |items| :: Carries(elem, items[i]) && parts[i] == Encode(elem, items[i])
    ensures EncodeAll(elem, items) == Join(parts)
    decreases |items|
  {
    hide Encode, Carries;
    if items != [] { ItemsAreJoined(elem, items[1..], parts[1..]); }
  }

  function Chars(s: string): seq<byte>
    requires Latin(s)
  {
    seq(|s|, i requires 0 <= i < |s| => s[i] as int)
  }

  function Text(s: string): seq<byte>
    requires Latin(s)
  {
    Bytes8(|s|) + Chars(s)
  }

  // --------------------------------------------------------------------- arrays

  // A text with its length, a negative int in two's complement, the eight bytes
  // of a double, one byte for a bool.
  function Element(f: Field): seq<byte> {
    match f
    case Text(s) => Bytes8(|s|) + s
    case Whole(i) => Bytes4(if i < 0 then 0x1_0000_0000 + i else i)
    case Real(bits) => Bytes8(bits)
    case Truth(b) => [if b then 1 else 0]
  }

  function Elements(xs: seq<Field>): seq<seq<byte>> {
    seq(|xs|, i requires 0 <= i < |xs| => Element(xs[i]))
  }

  lemma ElementIsLaidOut(f: Field)
    requires f != NO_TEXT
    ensures Carries(ElemShape(TypeOf(f)), CodeOf(f)) && Encode(ElemShape(TypeOf(f)), CodeOf(f)) == Element(f)
  {
    FieldFits(f);
    hide LittleEndian, Bytes4, Bytes8;
    match f
    case Text(s) => NumbersAreLaidOut(|s|);
    case Whole(i) => NumbersAreLaidOut(if i < 0 then 0x1_0000_0000 + i else i);
    case Real(bits) => NumbersAreLaidOut(bits);
    case Truth(b) => NumbersAreLaidOut(if b then 1 else 0);
  }

  // An array is its size and its elements.
  lemma ArrayIsLaidOut(kind: Kind, xs: seq<Field>)
    requires Stores(kind, xs)
    ensures FieldBytes(kind, xs) == Bytes8(|xs|) + Join(Elements(xs))
  {
    CodesFit(kind, xs);
    NumbersAreLaidOut(|xs|);
    hide Bytes8, LittleEndian, Encode, Element, CodeOf, ElemShape, EncodeAll, Join, CarriesAll;
    forall i | 0 <= i < |xs|
      ensures Carries(ElemShape(kind), Codes(xs)[i]) && Elements(xs)[i] == Encode(ElemShape(kind), Codes(xs)[i])
    {
      ElementIsLaidOut(xs[i]);
    }
    ItemsAreJoined(ElemShape(kind), Codes(xs), Elements(xs));
    ListIsLaidOut(ElemShape(kind), Codes(xs));
  }

  lemma ListIsLaidOut(elem: Shape, items: seq<Datum>)
    requires CarriesAll(elem, items) && |items| < Pow256(SIZE_WIDTH)
    ensures Carries(List(elem), L(items)) && Encode(List(elem), L(items)) == Bytes8(|items|) + EncodeAll(elem, items)
  {
    NumbersAreLaidOut(|items|);
    hide Bytes8, LittleEndian, EncodeAll, CarriesAll, Pow256;
  }

  lemma TextIsLaidOut(s: string)
    requires Writable(s)
    ensures Encode(Blob, T(ToBytes(s))) == Text(s)
  {
    NumbersAreLaidOut(|s|);
    hide Bytes8, LittleEndian, Pow256;
    assert ToBytes(s) == Chars(s);
  }

  lemma SizeIsLaidOut(n: nat)
    requires IsSize(n)
    ensures Encode(Num(SIZE_WIDTH), N(n)) == Bytes8(n)
  {
    NumbersAreLaidOut(n);
    hide Bytes8, LittleEndian, Pow256;
  }

  // ------------------------------------------------------------ keys and columns

  function KeyBytes(k: SegKey): seq<byte>
    requires Latin(k.name)
  {
    Text(k.name) + Bytes8(k.node)
  }

  lemma KeyIsLaidOut(k: SegKey)
    requires KeyOk(k)
    ensures Carries(KEY, KeyDatum(k)) && Encode(KEY, KeyDatum(k)) == KeyBytes(k)
  {
    KeyFits(k);
    TextIsLaidOut(k.name);
    SizeIsLaidOut(k.node);
    hide Bytes8, LittleEndian, Pow256, ToBytes, Text;
  }

  function KeysBytes(keys: seq<SegKey>): seq<seq<byte>>
    requires forall i | 0 <= i < |keys| :: Latin(keys[i].name)
  {
    seq(|keys|, i requires 0 <= i < |keys| => KeyBytes(keys[i]))
  }

  // A column is its size, its id and the keys of its segments.
  function ColumnBytes(c: ColumnImage): seq<byte>
    requires ColumnOk(c)
  {
    Bytes8(c.size) + Text(c.colId) + Bytes8(|c.segments|) + Join(KeysBytes(c.segments))
  }

  lemma ColumnIsLaidOut(c: ColumnImage)
    requires ColumnOk(c)
    ensures Carries(COLUMN, ColumnDatum(c)) && Encode(COLUMN, ColumnDatum(c)) == ColumnBytes(c)
  {
    ColumnInParts([], c);
    KeysFit(c.segments);
    TextIsLaidOut(c.colId);
    SizeIsLaidOut(c.size);
    ListIsLaidOut(KEY, KeyData(c.segments));
    forall i | 0 <= i < |c.segments|
      ensures Carries(KEY, KeyData(c.segments)[i]) && KeysBytes(c.segments)[i] == Encode(KEY, KeyData(c.segments)[i])
    {
      KeyIsLaidOut(c.segments[i]);
    }
    ItemsAreJoined(KEY, KeyData(c.segments), KeysBytes(c.segments));
    hide Encode, EncodeAll, Bytes8, Text, Join, KeysBytes, KeyData, ToBytes, CarriesAll, Carries, Pow256;
    InThreeParts(Bytes8(c.size), Text(c.colId), Bytes8(|c.segments|), Join(KeysBytes(c.segments)));
  }

  lemma InThreeParts(a: seq<byte>, b: seq<byte>, c: seq<byte>, d: seq<byte>)
    ensures [] + a + b + (c + d) == a + b + c + d
    ensures forall e: seq<byte> :: [] + e == e
  {
  }

  // -------------------------------------------------------------------- frames

  function TypesBytes(types: string): seq<seq<byte>>
    requires Latin(types)
  {
    seq(|types|, j requires 0 <= j < |types| => Bytes4(types[j] as int))
  }

  // A schema is its width, its types as ints and its number of rows.
  function SchemaBytes(types: string, rows: nat): seq<byte>
    requires Latin(types)
  {
    Bytes8(|types|) + Join(TypesBytes(types)) + Bytes8(rows)
  }

  lemma SchemaIsLaidOut(types: string, rows: nat)
    requires Latin(types) && IsSize(|types|) && IsSize(rows)
    ensures Carries(SCHEMA, SchemaDatum(types, rows))
    ensures Encode(SCHEMA, SchemaDatum(types, rows)) == SchemaBytes(types, rows)
  {
    SchemaFits(types, rows);
    SizeIsLaidOut(rows);
    ListIsLaidOut(Num(INT_WIDTH), TypeCodes(types));
    forall j | 0 <= j < |types|
      ensures Carries(Num(INT_WIDTH), TypeCodes(types)[j])
      ensures TypesBytes(types)[j] == Encode(Num(INT_WIDTH), TypeCodes(types)[j])
    {
      ByteFitsInt(types[j] as int);
      NumbersAreLaidOut(types[j] as int);
    }
    ItemsAreJoined(Num(INT_WIDTH), TypeCodes(types), TypesBytes(types));
    hide Bytes8, Bytes4, LittleEndian, EncodeAll, CarriesAll, Pow256, Join, TypesBytes, TypeCodes;
  }

  function ColumnsBytes(columns: seq<ColumnImage>): seq<seq<byte>>
    requires forall j | 0 <= j < |columns| :: ColumnOk(columns[j])
  {
    seq(|columns|, j requires 0 <= j < |columns| => ColumnBytes(columns[j]))
  }

  // A frame is its schema and its columns, without a count.
  lemma FrameIsLaidOut(f: FrameImage)
    requires FrameOk(f)
    ensures Latin(f.types) && FrameBytes(f) == SchemaBytes(f.types, f.nrows) + Join(ColumnsBytes(f.columns))
  {
    FrameFits(f);
    SchemaIsLaidOut(f.types, f.nrows);
    hide Encode, Carries, ColumnBytes, ColumnDatum, SchemaBytes, SchemaDatum;
    forall j | 0 <= j < |f.columns|
      ensures Carries(COLUMN, ColumnData(f.columns)[j])
      ensures ColumnsBytes(f.columns)[j] == Encode(COLUMN, ColumnData(f.columns)[j])
    {
      ColumnIsLaidOut(f.columns[j]);
    }
    ItemsAreJoined(COLUMN, ColumnData(f.columns), ColumnsBytes(f.columns));
    hide EncodeAll, CarriesAll, Join, ColumnData, ColumnsBytes;
  }

  // ------------------------------------------------------------------ messages

  function AddressBytes(a: Address): seq<byte> {
    Bytes4(a.ip) + Bytes2(a.port)
  }

  lemma AddressIsLaidOut(a: Address)
    requires AddressOk(a)
    ensures Carries(ADDRESS, AddressDatum(a)) && Encode(ADDRESS, AddressDatum(a)) == AddressBytes(a)
  {
    NumbersAreLaidOut(a.ip);
    NumbersAreLaidOut(a.port);
    hide Bytes4, Bytes2, LittleEndian, Pow256;
  }

  function AddressesBytes(addrs: seq<Address>): seq<seq<byte>> {
    seq(|addrs|, i requires 0 <= i < |addrs| => AddressBytes(addrs[i]))
  }

  // The number of the kind in front, and what follows the head.
  function KindNumber(b: Body): nat {
    match b
    case Put(_, _) => 0
    case Get(_) => 1
    case WaitAndGet(_) => 2
    case Reply(_) => 3
    case Kill => 4
    case Register(_, _) => 5
    case Directory(_) => 6
    case Status(_) => 7
  }

  function BodyBytes(b: Body): seq<byte>
    requires BodyOk(b)
  {
    match b
    case Put(k, v) => KeyBytes(k) + (Bytes8(|v|) + v)
    case Get(k) => KeyBytes(k)
    case WaitAndGet(k) => KeyBytes(k)
    case Reply(v) => Bytes8(|v|) + v
    case Kill => []
    case Register(n, a) => Bytes8(n) + AddressBytes(a)
    case Directory(addrs) => Bytes8(|addrs|) + Join(AddressesBytes(addrs))
    case Status(text) => Text(text)
  }

  lemma ValueIsLaidOut(v: seq<byte>)
    requires ValueOk(v)
    ensures Encode(Blob, T(v)) == Bytes8(|v|) + v
  {
    NumbersAreLaidOut(|v|);
    hide Bytes8, LittleEndian, Pow256;
  }

  lemma DirectoryIsLaidOut(addrs: seq<Address>)
    requires IsSize(|addrs|) && forall i | 0 <= i < |addrs| :: AddressOk(addrs[i])
    ensures Carries(List(ADDRESS), L(AddressData(addrs)))
    ensures Encode(List(ADDRESS), L(AddressData(addrs))) == Bytes8(|addrs|) + Join(AddressesBytes(addrs))
  {
    AddressesFit(addrs);
    hide Encode, Carries, AddressOk, AddressBytes, AddressDatum, Bytes8, CarriesAll, EncodeAll, Join;
    ListIsLaidOut(ADDRESS, AddressData(addrs));
    forall i | 0 <= i < |addrs|
      ensures Carries(ADDRESS, AddressData(addrs)[i])
      ensures AddressesBytes(addrs)[i] == Encode(ADDRESS, AddressData(addrs)[i])
    {
      AddressIsLaidOut(addrs[i]);
    }
    ItemsAreJoined(ADDRESS, AddressData(addrs), AddressesBytes(addrs));
  }

  lemma BodyIsLaidOut(b: Body)
    requires BodyOk(b)
    ensures Carries(BodyShape(KindOf(b)), BodyDatum(b)) && Encode(BodyShape(KindOf(b)), BodyDatum(b)) == BodyBytes(b)
  {
    BodyFits(b);
    hide Bytes8, LittleEndian, Pow256, KeyBytes, KeyDatum, AddressBytes, Text, ToBytes, KeyOk;
    match b
    case Put(k, v) =>
      KeyIsLaidOut(k);
      ValueIsLaidOut(v);
      PairInParts([], KEY, Blob, KeyDatum(k), T(v));
    case Get(k) => KeyIsLaidOut(k);
    case WaitAndGet(k) => KeyIsLaidOut(k);
    case Reply(v) => ValueIsLaidOut(v);
    case Kill =>
    case Register(n, a) =>
      SizeIsLaidOut(n);
      AddressIsLaidOut(a);
      PairInParts([], Num(SIZE_WIDTH), ADDRESS, N(n), AddressDatum(a));
    case Directory(addrs) => DirectoryIsLaidOut(addrs);
    case Status(text) => TextIsLaidOut(text);
  }

  // A message is the number of its kind, sender, target and id, and its body.
  lemma MessageIsLaidOut(m: Message)
    requires MessageOk(m)
    ensures MessageBytes(m)
      == Bytes4(KindNumber(m.body)) + Bytes8(m.sender) + Bytes8(m.target) + Bytes8(m.id) + BodyBytes(m.body)
  {
    KindIsNumbered(m.body);
    hide KindOf, KindNumber;
    BodyIsLaidOut(m.body);
    HeadIsLaidOut(m);
    NumbersAreLaidOut(KindNumber(m.body));
    hide Bytes8, Bytes4, Encode, BodyBytes, LittleEndian, BodyDatum, BodyShape, HeadDatum, Pow256, BodyOk;
  }

  lemma KindIsNumbered(b: Body)
    ensures KindOf(b) == KindNumber(b)
  {
  }

  lemma HeadIsLaidOut(m: Message)
    requires MessageOk(m)
    ensures Carries(HEAD, HeadDatum(m))
    ensures Encode(HEAD, HeadDatum(m)) == Bytes8(m.sender) + Bytes8(m.target) + Bytes8(m.id)
  {
    HeadFits(m);
    SizeIsLaidOut(m.sender);
    SizeIsLaidOut(m.target);
    SizeIsLaidOut(m.id);
    hide Bytes8, LittleEndian, Pow256;
  }

  // On a stream each message follows its length.
  lemma {:induction false} StreamIsLaidOut(ms: seq<Message>)
    requires AllSendable(ms)
    ensures ms == [] ==> StreamOf(ms) == []
    ensures ms != [] ==> AllSendable(ms[1..])
    ensures ms != [] ==> StreamOf(ms) == Bytes8(|MessageBytes(ms[0])|) + MessageBytes(ms[0]) + StreamOf(ms[1..])
  {
    if ms != [] {
      assert Sendable(ms[0]);
      NumbersAreLaidOut(|MessageBytes(ms[0])|);
      hide Bytes8, LittleEndian, MessageBytes, Pow256, MessageOk;
    }
  }

  // ------------------------------------------------------------------ the store

  // What the store holds of a finalized column: segment i, under its name, on
  // node i modulo the number of nodes, as the bytes of elements i * capacity to
  // (i + 1) * capacity - 1.
  lemma SegmentIsLaidOut(c: Column, i: nat)
    requires c.Valid() && c.finalized && i < |c.segments|
    ensures |c.segments| == SegmentCount(|c.pushed|, c.capacity)
    ensures var key := (i % c.store.nodes, c.segments[i].name);
      var part := Slice(c.pushed, i * c.capacity, i * c.capacity + c.capacity);
      key in c.store.items && c.store.items[key] == Bytes8(|part|) + Join(Elements(part))
  {
    assert c.Readable();
    assert IsBytesOf(c.store.items[(NodeOf(i, c.store.nodes), c.segments[i].name)], c.kind,
        Segment(c.pushed, i, c.capacity));
    ArrayIsLaidOut(c.kind, Segment(c.pushed, i, c.capacity));
    hide Slice, Join, Elements, Bytes8, FieldBytes;
  }
}
