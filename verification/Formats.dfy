// The formats of schemas, keys, columns and data frames, and the loops that
// write and read them.

module Formats {
  import opened Wire
  import opened Serial
  import opened Segments
  import opened Columns
  import opened Frames

  // ---------------------------------------------------------------- characters

  predicate Latin(s: string) {
    forall i | 0 <= i < |s| :: s[i] < 256 as char
  }

  function ToBytes(s: string): (b: seq<byte>)
    requires Latin(s)
    ensures |b| == |s|
  {
    seq(|s|, i requires 0 <= i < |s| => s[i] as int)
  }

  function FromBytes(b: seq<byte>): (s: string)
    ensures |s| == |b| && Latin(s)
  {
    seq(|b|, i requires 0 <= i < |b| => b[i] as char)
  }

  lemma TextBack(s: string)
    requires Latin(s)
    ensures FromBytes(ToBytes(s)) == s
  {
  }

  predicate Writable(s: string) {
    Latin(s) && 0 < |s| < Pow256(SIZE_WIDTH)
  }

  // ------------------------------------------------------------------- formats

  const SCHEMA := Pair(List(Num(INT_WIDTH)), Num(SIZE_WIDTH))
  const KEY := Pair(Blob, Num(SIZE_WIDTH))
  const COLUMN := Pair(Num(SIZE_WIDTH), Pair(Blob, List(KEY)))

  function TypeCodes(types: string): seq<Datum>
    requires Latin(types)
  {
    seq(|types|, j requires 0 <= j < |types| => N(types[j] as int))
  }

  function SchemaDatum(types: string, rows: nat): Datum
    requires Latin(types)
  {
    P(L(TypeCodes(types)), N(rows))
  }

  function KeyDatum(k: SegKey): Datum
    requires Latin(k.name)
  {
    P(T(ToBytes(k.name)), N(k.node))
  }

  predicate KeyOk(k: SegKey) {
    Writable(k.name) && IsSize(k.node)
  }

  predicate KeysOk(keys: seq<SegKey>) {
    IsSize(|keys|) && forall i | 0 <= i < |keys| :: KeyOk(keys[i])
  }

  function KeyData(keys: seq<SegKey>): seq<Datum>
    requires forall i | 0 <= i < |keys| :: KeyOk(keys[i])
  {
    seq(|keys|, i requires 0 <= i < |keys| => assert KeyOk(keys[i]); KeyDatum(keys[i]))
  }

  predicate ColumnOk(c: ColumnImage) {
    IsSize(c.size) && Writable(c.colId) && KeysOk(c.segments)
  }

  function ColumnDatum(c: ColumnImage): Datum
    requires ColumnOk(c)
  {
    P(N(c.size), P(T(ToBytes(c.colId)), L(KeyData(c.segments))))
  }

  predicate FrameOk(f: FrameImage) {
    && |f.types| == |f.columns| && IsSize(|f.types|) && IsSize(f.nrows)
    && (forall j | 0 <= j < |f.types| :: f.types[j] in "SIBD")
    && forall j | 0 <= j < |f.columns| :: ColumnOk(f.columns[j])
  }

  function ColumnData(columns: seq<ColumnImage>): seq<Datum>
    requires forall j | 0 <= j < |columns| :: ColumnOk(columns[j])
  {
    seq(|columns|, j requires 0 <= j < |columns| => ColumnDatum(columns[j]))
  }

  // ------------------------------------------------------- data fit their formats

  lemma ByteFitsInt(x: nat)
    requires x < 256
    ensures x < Pow256(INT_WIDTH)
  {
    assert Pow256(1) == 256 && Pow256(2) == 65536 && Pow256(3) == 16777216;
  }

  lemma SchemaFits(types: string, rows: nat)
    requires Latin(types) && IsSize(|types|) && IsSize(rows)
    ensures Carries(SCHEMA, SchemaDatum(types, rows)) && CarriesAll(Num(INT_WIDTH), TypeCodes(types))
  {
    forall j | 0 <= j < |types| ensures Carries(Num(INT_WIDTH), TypeCodes(types)[j]) { ByteFitsInt(types[j] as int); }
    EachCarries(Num(INT_WIDTH), TypeCodes(types));
  }

  lemma KeyFits(k: SegKey)
    requires KeyOk(k)
    ensures Carries(KEY, KeyDatum(k))
  {
  }

  lemma KeysFit(keys: seq<SegKey>)
    requires KeysOk(keys)
    ensures CarriesAll(KEY, KeyData(keys))
  {
    forall i | 0 <= i < |keys| ensures Carries(KEY, KeyData(keys)[i]) { KeyFits(keys[i]); }
    EachCarries(KEY, KeyData(keys));
  }

  lemma ColumnFits(c: ColumnImage)
    requires ColumnOk(c)
    ensures Carries(COLUMN, ColumnDatum(c))
  {
    KeysFit(c.segments);
  }

  lemma ColumnsFit(columns: seq<ColumnImage>)
    requires forall j | 0 <= j < |columns| :: ColumnOk(columns[j])
    ensures CarriesAll(COLUMN, ColumnData(columns))
  {
    forall j | 0 <= j < |columns| ensures Carries(COLUMN, ColumnData(columns)[j]) { ColumnFits(columns[j]); }
    EachCarries(COLUMN, ColumnData(columns));
  }

  lemma FrameFits(f: FrameImage)
    requires FrameOk(f)
    ensures Latin(f.types) && Carries(SCHEMA, SchemaDatum(f.types, f.nrows))
    ensures CarriesAll(COLUMN, ColumnData(f.columns))
  {
    assert forall j | 0 <= j < |f.types| :: f.types[j] < 256 as char;
    SchemaFits(f.types, f.nrows);
    ColumnsFit(f.columns);
  }

  // The bytes of a frame: its schema, then its columns without a count.
  function FrameBytes(f: FrameImage): seq<byte>
    requires FrameOk(f)
  {
    FrameFits(f);
    Encode(SCHEMA, SchemaDatum(f.types, f.nrows)) + EncodeAll(COLUMN, ColumnData(f.columns))
  }

  // ----------------------------------------------------------------- reading back

  function KeyOf(d: Datum): SegKey
    requires Carries(KEY, d)
  {
    SegKey(FromBytes(d.a.s), d.b.n)
  }

  function KeysOf(items: seq<Datum>): seq<SegKey>
    requires CarriesAll(KEY, items)
  {
    EachCarries(KEY, items);
    seq(|items|, i requires 0 <= i < |items| => KeyOf(items[i]))
  }

  function ColumnOfDatum(d: Datum): ColumnImage
    requires Carries(COLUMN, d)
  {
    ColumnImage(d.a.n, FromBytes(d.b.a.s), KeysOf(d.b.b.items))
  }

  function ColumnsOf(items: seq<Datum>): seq<ColumnImage>
    requires CarriesAll(COLUMN, items)
  {
    EachCarries(COLUMN, items);
    seq(|items|, j requires 0 <= j < |items| => ColumnOfDatum(items[j]))
  }

  // The type is read as an int and kept as a char: its low byte.
  function TypeChar(code: nat): char {
    (code % 256) as char
  }

  predicate IsTypeCode(d: Datum) {
    d.N? && TypeChar(d.n) in "SIBD"
  }

  function TypesOfData(items: seq<Datum>): string
    requires forall j | 0 <= j < |items| :: IsTypeCode(items[j])
  {
    seq(|items|, j requires 0 <= j < |items| => assert IsTypeCode(items[j]); TypeChar(items[j].n))
  }

  // The deserializing constructor of a data frame; a type that is none of the
  // four fails an assertion.
  function ReadFrame(s: seq<byte>): Read<FrameImage> {
    match Decode(SCHEMA, s)
    case Failed => Failed
    case Got(schema, rest) =>
      EncodeUndoesDecode(SCHEMA, s);
      if exists j :: 0 <= j < |schema.a.items| && !IsTypeCode(schema.a.items[j]) then Failed
      else match DecodeAll(COLUMN, |schema.a.items|, rest)
        case Failed => Failed
        case Got(columns, end) =>
          EncodeAllUndoes(COLUMN, |schema.a.items|, rest);
          Got(FrameImage(TypesOfData(schema.a.items), schema.b.n, ColumnsOf(columns)), end)
  }

  // A frame is read exactly if its columns are and the low byte of each of its
  // type codes is one of the letters S, I, B and D.
  lemma TypesAreChecked(s: seq<byte>, codes: seq<nat>, rows: nat, rest: seq<byte>)
    requires Decode(SCHEMA, s) == Got(P(L(seq(|codes|, j requires 0 <= j < |codes| => N(codes[j]))), N(rows)), rest)
    ensures ReadFrame(s).Got? <==>
      && DecodeAll(COLUMN, |codes|, rest).Got?
      && forall j | 0 <= j < |codes| ::
           var low := codes[j] % 256; low == 'S' as int || low == 'I' as int || low == 'B' as int || low == 'D' as int
  {
    var items := Decode(SCHEMA, s).value.a.items;
    hide Decode, DecodeAll, ColumnsOf;
    forall j | 0 <= j < |codes|
      ensures items[j] == N(codes[j])
      ensures IsTypeCode(items[j]) <==>
        (var low := codes[j] % 256; low == 'S' as int || low == 'I' as int || low == 'B' as int || low == 'D' as int)
    {
      LettersOfCode(codes[j]);
    }
    hide IsTypeCode, TypesOfData;
  }

  lemma LettersOfCode(code: nat)
    ensures var low := code % 256;
      TypeChar(code) in "SIBD"
      <==> low == 'S' as int || low == 'I' as int || low == 'B' as int || low == 'D' as int
  {
    assert "SIBD" == ['S', 'I', 'B', 'D'];
  }

  lemma KeyBack(k: SegKey)
    requires KeyOk(k)
    ensures Carries(KEY, KeyDatum(k)) && KeyOf(KeyDatum(k)) == k
  {
    KeyFits(k);
    TextBack(k.name);
    hide ToBytes, FromBytes;
  }

  lemma KeysBack(keys: seq<SegKey>)
    requires KeysOk(keys)
    ensures CarriesAll(KEY, KeyData(keys)) && KeysOf(KeyData(keys)) == keys
  {
    KeysFit(keys);
    EachCarries(KEY, KeyData(keys));
    hide CarriesAll, KeyOf, KeyDatum;
    forall i | 0 <= i < |keys| ensures KeysOf(KeyData(keys))[i] == keys[i] { KeyBack(keys[i]); }
  }

  lemma ColumnBack(c: ColumnImage)
    requires ColumnOk(c)
    ensures Carries(COLUMN, ColumnDatum(c)) && ColumnOfDatum(ColumnDatum(c)) == c
  {
    ColumnFits(c);
    TextBack(c.colId);
    KeysBack(c.segments);
    hide ToBytes, FromBytes, KeysOf, KeyData;
  }

  lemma ColumnsBack(columns: seq<ColumnImage>)
    requires forall j | 0 <= j < |columns| :: ColumnOk(columns[j])
    ensures CarriesAll(COLUMN, ColumnData(columns)) && ColumnsOf(ColumnData(columns)) == columns
  {
    ColumnsFit(columns);
    EachCarries(COLUMN, ColumnData(columns));
    hide CarriesAll, ColumnOfDatum, ColumnDatum;
    forall j | 0 <= j < |columns| ensures ColumnsOf(ColumnData(columns))[j] == columns[j] { ColumnBack(columns[j]); }
  }

  // Reading a frame undoes writing it and leaves what follows.
  lemma FrameIsReadBack(f: FrameImage, suffix: seq<byte>)
    requires FrameOk(f)
    ensures ReadFrame(FrameBytes(f) + suffix) == Got(f, suffix)
  {
    FrameFits(f);
    var schema, columns := SchemaDatum(f.types, f.nrows), ColumnData(f.columns);
    var s1, s2 := Encode(SCHEMA, schema), EncodeAll(COLUMN, columns);
    assert FrameBytes(f) + suffix == s1 + (s2 + suffix);
    DecodeUndoesEncode(SCHEMA, schema, s2 + suffix);
    DecodeAllUndoes(COLUMN, columns, suffix);
    ColumnsBack(f.columns);
    TypesBack(f.types);
    hide Encode, EncodeAll, Decode, DecodeAll, ColumnsOf, ColumnData, Carries, CarriesAll, IsTypeCode, TypesOfData,
      TypeCodes;
  }

  lemma TypesBack(types: string)
    requires forall j | 0 <= j < |types| :: types[j] in "SIBD"
    ensures Latin(types) && forall j | 0 <= j < |types| :: IsTypeCode(TypeCodes(types)[j])
    ensures TypesOfData(TypeCodes(types)) == types
  {
    forall j | 0 <= j < |types| ensures types[j] < 256 as char && TypeChar(types[j] as int) == types[j] { }
    hide TypeChar;
  }

  // -------------------------------------------------------- the writing methods

  // What every write keeps: earlier bytes, and a buffer of the serializer's own.
  twostate predicate Wrote(s: Serializer, more: seq<byte>)
    reads s, s.bytes
  {
    && old(s.Valid()) && s.Valid() && s.Contents() == old(s.Contents()) + more
    && (s.bytes == old(s.bytes) || fresh(s.bytes))
  }

  method WriteKey(s: Serializer, k: SegKey)
    requires s.Valid() && KeyOk(k)
    modifies s, s.bytes
    ensures Carries(KEY, KeyDatum(k)) && Wrote(s, Encode(KEY, KeyDatum(k)))
  {
    ghost var was := s.Contents();
    KeyInParts(was, k);
    hide Encode, Pow256, ToBytes, Carries, KeyDatum, Serializer.Valid, Serializer.Contents;
    s.AddString(ToBytes(k.name));
    s.AddNumber(k.node, SIZE_WIDTH);
  }

  lemma KeyInParts(was: seq<byte>, k: SegKey)
    requires KeyOk(k)
    ensures Carries(KEY, KeyDatum(k)) && Carries(Blob, T(ToBytes(k.name))) && Carries(Num(SIZE_WIDTH), N(k.node))
    ensures was + Encode(Blob, T(ToBytes(k.name))) + Encode(Num(SIZE_WIDTH), N(k.node))
      == was + Encode(KEY, KeyDatum(k))
  {
    KeyFits(k);
    hide LittleEndian, Pow256, ToBytes;
    PairInParts(was, Blob, Num(SIZE_WIDTH), T(ToBytes(k.name)), N(k.node));
  }

  method WriteTypeCode(s: Serializer, types: string, j: nat, ghost start: seq<byte>)
    requires Latin(types) && j < |types| && WroteUpTo(s, start, Num(INT_WIDTH), TypeCodes(types), j)
    modifies s, s.bytes
    ensures WroteUpTo(s, start, Num(INT_WIDTH), TypeCodes(types), j + 1)
    ensures s.bytes == old(s.bytes) || fresh(s.bytes)
  {
    ByteFitsInt(types[j] as int);
    NextIsWritten(Num(INT_WIDTH), TypeCodes(types), j, start);
    hide EncodeAll, Encode, CarriesAll, Serializer.Valid, Serializer.Contents;
    s.AddNumber(types[j] as int, INT_WIDTH);
  }

  method WriteTypes(s: Serializer, types: string)
    requires s.Valid() && Latin(types) && IsSize(|types|)
    modifies s, s.bytes
    ensures Carries(List(Num(INT_WIDTH)), L(TypeCodes(types)))
    ensures Wrote(s, Encode(List(Num(INT_WIDTH)), L(TypeCodes(types))))
  {
    ghost var was := s.Contents();
    SchemaFits(types, 0);
    ListInParts(was, Num(INT_WIDTH), TypeCodes(types));
    hide Encode, EncodeAll, Carries, CarriesAll, Pow256, Serializer.Valid, Serializer.Contents, WroteUpTo;
    s.AddNumber(|types|, SIZE_WIDTH);
    ghost var start := s.Contents();
    NothingYet(s, start, Num(INT_WIDTH), TypeCodes(types));
    for j := 0 to |types|
      invariant WroteUpTo(s, start, Num(INT_WIDTH), TypeCodes(types), j)
      invariant s.bytes == old(s.bytes) || fresh(s.bytes)
    {
      WriteTypeCode(s, types, j, start);
    }
    AllWritten(s, start, Num(INT_WIDTH), TypeCodes(types));
  }

  method WriteSchema(s: Serializer, types: string, rows: nat)
    requires s.Valid() && Latin(types) && IsSize(|types|) && IsSize(rows)
    modifies s, s.bytes
    ensures Carries(SCHEMA, SchemaDatum(types, rows)) && Wrote(s, Encode(SCHEMA, SchemaDatum(types, rows)))
  {
    ghost var was := s.Contents();
    SchemaFits(types, rows);
    PairInParts(was, List(Num(INT_WIDTH)), Num(SIZE_WIDTH), L(TypeCodes(types)), N(rows));
    hide Encode, Carries, Pow256, TypeCodes, Serializer.Valid, Serializer.Contents;
    WriteTypes(s, types);
    s.AddNumber(rows, SIZE_WIDTH);
  }

  method WriteNextKey(s: Serializer, keys: seq<SegKey>, j: nat, ghost start: seq<byte>)
    requires KeysOk(keys) && j < |keys| && WroteUpTo(s, start, KEY, KeyData(keys), j)
    modifies s, s.bytes
    ensures WroteUpTo(s, start, KEY, KeyData(keys), j + 1)
    ensures s.bytes == old(s.bytes) || fresh(s.bytes)
  {
    KeyFits(keys[j]);
    NextIsWritten(KEY, KeyData(keys), j, start);
    hide EncodeAll, Encode, CarriesAll, Carries, KeyDatum, Serializer.Valid, Serializer.Contents;
    WriteKey(s, keys[j]);
  }

  method WriteKeys(s: Serializer, keys: seq<SegKey>)
    requires s.Valid() && KeysOk(keys)
    modifies s, s.bytes
    ensures Carries(List(KEY), L(KeyData(keys))) && Wrote(s, Encode(List(KEY), L(KeyData(keys))))
  {
    ghost var was := s.Contents();
    KeysFit(keys);
    ListInParts(was, KEY, KeyData(keys));
    hide Encode, EncodeAll, Carries, CarriesAll, Pow256, Serializer.Valid, Serializer.Contents, WroteUpTo;
    s.AddNumber(|keys|, SIZE_WIDTH);
    ghost var start := s.Contents();
    NothingYet(s, start, KEY, KeyData(keys));
    for j := 0 to |keys|
      invariant WroteUpTo(s, start, KEY, KeyData(keys), j)
      invariant s.bytes == old(s.bytes) || fresh(s.bytes)
    {
      WriteNextKey(s, keys, j, start);
    }
    AllWritten(s, start, KEY, KeyData(keys));
  }

  method WriteColumn(s: Serializer, c: ColumnImage)
    requires s.Valid() && ColumnOk(c)
    modifies s, s.bytes
    ensures Carries(COLUMN, ColumnDatum(c)) && Wrote(s, Encode(COLUMN, ColumnDatum(c)))
  {
    ghost var was := s.Contents();
    ColumnInParts(was, c);
    hide Encode, Carries, Pow256, ToBytes, KeyData, ColumnDatum, KeysOk, Serializer.Valid, Serializer.Contents;
    s.AddNumber(c.size, SIZE_WIDTH);
    s.AddString(ToBytes(c.colId));
    WriteKeys(s, c.segments);
  }

  lemma ColumnInParts(was: seq<byte>, c: ColumnImage)
    requires ColumnOk(c)
    ensures Carries(COLUMN, ColumnDatum(c)) && Carries(Num(SIZE_WIDTH), N(c.size)) && Carries(Blob, T(ToBytes(c.colId)))
    ensures Carries(List(KEY), L(KeyData(c.segments)))
    ensures was + Encode(Num(SIZE_WIDTH), N(c.size)) + Encode(Blob, T(ToBytes(c.colId)))
        + Encode(List(KEY), L(KeyData(c.segments)))
      == was + Encode(COLUMN, ColumnDatum(c))
  {
    var size, id, keys := N(c.size), T(ToBytes(c.colId)), L(KeyData(c.segments));
    KeysFit(c.segments);
    hide LittleEndian, EncodeAll, CarriesAll, Pow256, ToBytes, KeyData;
    var head := was + Encode(Num(SIZE_WIDTH), size);
    PairInParts(head, Blob, List(KEY), id, keys);
    PairInParts(was, Num(SIZE_WIDTH), Pair(Blob, List(KEY)), size, P(id, keys));
    hide Encode;
  }

  method WriteNextColumn(s: Serializer, columns: seq<ColumnImage>, j: nat, ghost start: seq<byte>)
    requires (forall i | 0 <= i < |columns| :: ColumnOk(columns[i])) && j < |columns|
    requires WroteUpTo(s, start, COLUMN, ColumnData(columns), j)
    modifies s, s.bytes
    ensures WroteUpTo(s, start, COLUMN, ColumnData(columns), j + 1)
    ensures s.bytes == old(s.bytes) || fresh(s.bytes)
  {
    ColumnFits(columns[j]);
    NextIsWritten(COLUMN, ColumnData(columns), j, start);
    hide EncodeAll, Encode, CarriesAll, Carries, ColumnDatum, Serializer.Valid, Serializer.Contents;
    WriteColumn(s, columns[j]);
  }

  method WriteFrame(s: Serializer, f: FrameImage)
    requires s.Valid() && FrameOk(f)
    modifies s, s.bytes
    ensures Wrote(s, FrameBytes(f))
  {
    ghost var was := s.Contents();
    FrameFits(f);
    FrameInParts(was, f);
    hide Encode, EncodeAll, Carries, CarriesAll, TypeCodes, FrameBytes, Serializer.Valid, Serializer.Contents,
      WroteUpTo;
    WriteSchema(s, f.types, f.nrows);
    ghost var start := s.Contents();
    NothingYet(s, start, COLUMN, ColumnData(f.columns));
    for j := 0 to |f.columns|
      invariant WroteUpTo(s, start, COLUMN, ColumnData(f.columns), j)
      invariant s.bytes == old(s.bytes) || fresh(s.bytes)
    {
      WriteNextColumn(s, f.columns, j, start);
    }
    AllWritten(s, start, COLUMN, ColumnData(f.columns));
  }

  lemma FrameInParts(was: seq<byte>, f: FrameImage)
    requires FrameOk(f)
    requires Latin(f.types) && Carries(SCHEMA, SchemaDatum(f.types, f.nrows))
    requires CarriesAll(COLUMN, ColumnData(f.columns))
    ensures was + Encode(SCHEMA, SchemaDatum(f.types, f.nrows)) + EncodeAll(COLUMN, ColumnData(f.columns))
      == was + FrameBytes(f)
  {
    var x, y := Encode(SCHEMA, SchemaDatum(f.types, f.nrows)), EncodeAll(COLUMN, ColumnData(f.columns));
    hide Encode, EncodeAll;
    assert was + x + y == was + (x + y);
  }

  // -------------------------------------------------------- the reading methods

  method GetKey(d: Deserializer) returns (ok: bool, k: SegKey)
    requires d.Valid()
    modifies d
    ensures d.Valid() && ok == Decode(KEY, old(d.Remaining())).Got?
    ensures ok ==> var r := Decode(KEY, old(d.Remaining()));
      Carries(KEY, r.value) && k == KeyOf(r.value) && d.Remaining() == r.rest
  {
    k := SegKey("", 0);
    ghost var s := d.Remaining();
    if Decode(KEY, s).Got? { EncodeUndoesDecode(KEY, s); }
    hide ReadNumber, FromBytes, Pow256, Encode, LittleEndian;
    var name, node;
    ok, name := d.GetString();
    if !ok { return; }
    ok, node := d.GetNumber(SIZE_WIDTH);
    if ok { k := SegKey(FromBytes(name), node); }
  }

  method GetKeys(d: Deserializer) returns (ok: bool, keys: seq<SegKey>)
    requires d.Valid()
    modifies d
    ensures d.Valid() && ok == Decode(List(KEY), old(d.Remaining())).Got?
    ensures ok ==> var r := Decode(List(KEY), old(d.Remaining()));
      Carries(List(KEY), r.value) && keys == KeysOf(r.value.items) && d.Remaining() == r.rest
  {
    keys := [];
    ghost var whole := d.Remaining();
    var count;
    ok, count := d.GetNumber(SIZE_WIDTH);
    if !ok { return; }
    ghost var s, done := d.Remaining(), [];
    CountIsSmall(whole);
    ReadingStarts(KEY, count, s);
    for i := 0 to count
      invariant d.Valid() && |done| == i && ReadUpTo(KEY, count, s, done, d.Remaining()) && keys == KeysOf(done)
    {
      var k;
      ok, k, done := GetNextKey(d, count, s, done);
      if !ok { return; }
      keys := keys + [k];
    }
    ReadingEnds(KEY, count, s, done, d.Remaining());
  }

  method GetNextKey(d: Deserializer, ghost total: nat, ghost s: seq<byte>, ghost done: seq<Datum>)
    returns (ok: bool, k: SegKey, ghost more: seq<Datum>)
    requires d.Valid() && ReadUpTo(KEY, total, s, done, d.Remaining()) && |done| < total
    modifies d
    ensures d.Valid()
    ensures !ok ==> DecodeAll(KEY, total, s).Failed?
    ensures ok ==> ReadUpTo(KEY, total, s, more, d.Remaining()) && |more| == |done| + 1
    ensures ok ==> KeysOf(more) == KeysOf(done) + [k]
  {
    more := done;
    ghost var rest := d.Remaining();
    NextIsRead(KEY, total, s, done, rest);
    hide Decode, DecodeAll, KeyOf, Carries;
    ok, k := GetKey(d);
    if ok { more := done + [Decode(KEY, rest).value]; }
  }

  lemma DecodeColumnInParts(s: seq<byte>)
    ensures Decode(COLUMN, s) ==
      match Decode(Num(SIZE_WIDTH), s)
      case Failed => Failed
      case Got(size, s1) =>
        match Decode(Blob, s1)
        case Failed => Failed
        case Got(id, s2) =>
          match Decode(List(KEY), s2)
          case Failed => Failed
          case Got(keys, s3) => Got(P(size, P(id, keys)), s3)
  {
    hide ReadNumber, DecodeAll;
  }

  method GetColumn(d: Deserializer) returns (ok: bool, c: ColumnImage)
    requires d.Valid()
    modifies d
    ensures d.Valid() && ok == Decode(COLUMN, old(d.Remaining())).Got?
    ensures ok ==> var r := Decode(COLUMN, old(d.Remaining()));
      Carries(COLUMN, r.value) && c == ColumnOfDatum(r.value) && d.Remaining() == r.rest
  {
    c := ColumnImage(0, "", []);
    ghost var s := d.Remaining();
    DecodeColumnInParts(s);
    if Decode(COLUMN, s).Got? { EncodeUndoesDecode(COLUMN, s); }
    var size, id, keys;
    ok, size := d.GetNumber(SIZE_WIDTH);
    if !ok { return; }
    assert Decode(Num(SIZE_WIDTH), s) == Got(N(size), d.Remaining());
    ok, id := d.GetString();
    if !ok { return; }
    hide Decode, KeysOf, FromBytes, Encode;
    ok, keys := GetKeys(d);
    if ok { c := ColumnImage(size, FromBytes(id), keys); }
  }

  method GetSchema(d: Deserializer) returns (ok: bool, codes: seq<nat>, rows: nat)
    requires d.Valid()
    modifies d
    ensures d.Valid() && ok == Decode(SCHEMA, old(d.Remaining())).Got?
    ensures ok ==> var r := Decode(SCHEMA, old(d.Remaining()));
      r.value == P(L(seq(|codes|, j requires 0 <= j < |codes| => N(codes[j]))), N(rows)) && d.Remaining() == r.rest
  {
    codes, rows := [], 0;
    ghost var whole := d.Remaining();
    DecodeSchemaInParts(whole);
    var count;
    ok, count := d.GetNumber(SIZE_WIDTH);
    if !ok { return; }
    ghost var s, done := d.Remaining(), [];
    ReadingStarts(Num(INT_WIDTH), count, s);
    hide Decode, DecodeAll;
    for i := 0 to count
      invariant d.Valid() && |codes| == i && done == seq(|codes|, j requires 0 <= j < |codes| => N(codes[j]))
      invariant ReadUpTo(Num(INT_WIDTH), count, s, done, d.Remaining())
    {
      var code;
      ok, code := GetNextCode(d, count, s, done);
      if !ok { return; }
      codes := codes + [code];
      done := done + [N(code)];
    }
    ReadingEnds(Num(INT_WIDTH), count, s, done, d.Remaining());
    ok, rows := d.GetNumber(SIZE_WIDTH);
  }

  method GetNextCode(d: Deserializer, ghost total: nat, ghost s: seq<byte>, ghost done: seq<Datum>)
    returns (ok: bool, code: nat)
    requires d.Valid() && ReadUpTo(Num(INT_WIDTH), total, s, done, d.Remaining()) && |done| < total
    modifies d
    ensures d.Valid()
    ensures !ok ==> DecodeAll(Num(INT_WIDTH), total, s).Failed?
    ensures ok ==> ReadUpTo(Num(INT_WIDTH), total, s, done + [N(code)], d.Remaining())
  {
    NextIsRead(Num(INT_WIDTH), total, s, done, d.Remaining());
    hide DecodeAll;
    ok, code := d.GetNumber(INT_WIDTH);
  }

  lemma DecodeSchemaInParts(s: seq<byte>)
    ensures Decode(SCHEMA, s) ==
      match ReadNumber(SIZE_WIDTH, s)
      case Failed => Failed
      case Got(count, s1) =>
        match DecodeAll(Num(INT_WIDTH), count, s1)
        case Failed => Failed
        case Got(codes, s2) =>
          match ReadNumber(SIZE_WIDTH, s2)
          case Failed => Failed
          case Got(rows, s3) => Got(P(L(codes), N(rows)), s3)
  {
    hide ReadNumber, DecodeAll;
  }

  method GetFrame(d: Deserializer) returns (ok: bool, f: FrameImage)
    requires d.Valid()
    modifies d
    ensures d.Valid() && ok == ReadFrame(old(d.Remaining())).Got?
    ensures ok ==> Got(f, d.Remaining()) == ReadFrame(old(d.Remaining()))
  {
    f := FrameImage("", 0, []);
    ghost var whole := d.Remaining();
    var codes, rows, types, columns;
    ok, codes, rows := GetSchema(d);
    if !ok { return; }
    EncodeUndoesDecode(SCHEMA, whole);
    ghost var items, s := Decode(SCHEMA, whole).value.a.items, d.Remaining();
    if DecodeAll(COLUMN, |codes|, s).Got? { EncodeAllUndoes(COLUMN, |codes|, s); }
    hide Decode, DecodeAll, IsTypeCode, EncodeAll, Encode, Carries, CarriesAll, ColumnsOf, TypesOfData;
    ok, types, columns := GetColumns(d, codes, items);
    f := FrameImage(types, rows, columns);
  }

  method GetColumns(d: Deserializer, codes: seq<nat>, ghost items: seq<Datum>)
    returns (ok: bool, types: string, columns: seq<ColumnImage>)
    requires d.Valid() && |items| == |codes| && forall j | 0 <= j < |codes| :: items[j] == N(codes[j])
    modifies d
    ensures d.Valid()
    ensures ok <==>
      && (forall j | 0 <= j < |items| :: IsTypeCode(items[j]))
      && DecodeAll(COLUMN, |codes|, old(d.Remaining())).Got?
    ensures ok ==> var r := DecodeAll(COLUMN, |codes|, old(d.Remaining()));
      && CarriesAll(COLUMN, r.value) && types == TypesOfData(items)
      && columns == ColumnsOf(r.value) && d.Remaining() == r.rest
  {
    ghost var s, done := d.Remaining(), [];
    columns, types := [], "";
    ReadingStarts(COLUMN, |codes|, s);
    hide Decode, DecodeAll, TypeChar, Encode;
    for i := 0 to |codes|
      invariant d.Valid() && |done| == i && ReadUpTo(COLUMN, |codes|, s, done, d.Remaining())
      invariant columns == ColumnsOf(done) && |types| == i
      invariant forall j | 0 <= j < i :: IsTypeCode(items[j]) && types[j] == TypeChar(codes[j])
    {
      if TypeChar(codes[i]) !in "SIBD" {
        assert !IsTypeCode(items[i]);
        return false, types, columns;
      }
      var c;
      ok, c, done := GetNextColumn(d, |codes|, s, done);
      if !ok { return; }
      columns := columns + [c];
      types := types + [TypeChar(codes[i])];
    }
    ReadingEnds(COLUMN, |codes|, s, done, d.Remaining());
    assert types == TypesOfData(items);
    ok := true;
  }

  method GetNextColumn(d: Deserializer, ghost total: nat, ghost s: seq<byte>, ghost done: seq<Datum>)
    returns (ok: bool, c: ColumnImage, ghost more: seq<Datum>)
    requires d.Valid() && ReadUpTo(COLUMN, total, s, done, d.Remaining()) && |done| < total
    modifies d
    ensures d.Valid()
    ensures !ok ==> DecodeAll(COLUMN, total, s).Failed?
    ensures ok ==> ReadUpTo(COLUMN, total, s, more, d.Remaining()) && |more| == |done| + 1
    ensures ok ==> CarriesAll(COLUMN, more) && ColumnsOf(more) == ColumnsOf(done) + [c]
  {
    more := done;
    ghost var rest := d.Remaining();
    NextIsRead(COLUMN, total, s, done, rest);
    hide Decode, DecodeAll, ColumnOfDatum, Carries;
    ok, c := GetColumn(d);
    if ok { more := done + [Decode(COLUMN, rest).value]; }
  }
}
