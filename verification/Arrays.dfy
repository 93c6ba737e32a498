// The values that columns hold, the fixed-capacity array that a column segment
// is stored as, and its bytes.

module Arrays {
  import opened Ints
  import opened Wire
  import opened Serial

  const DOUBLE_WIDTH := 8
  const BOOL_WIDTH := 1

  // S, I, D, B: texts, ints, doubles, bools.
  type Kind = c: char | c in "SIDB" witness 'S'

  type Chars = s: seq<byte> | |s| < LONG_SPAN
  type Bits = x: nat | x < LONG_SPAN

  datatype Field =
    | Text(s: Chars)
    | Whole(i: int32)
    | Real(bits: Bits)  // an opaque eight-byte value
    | Truth(b: bool)

  function TypeOf(f: Field): Kind {
    match f
    case Text(_) => 'S'
    case Whole(_) => 'I'
    case Real(_) => 'D'
    case Truth(_) => 'B'
  }

  const NO_TEXT := Text([])

  predicate OfKind(kind: Kind, xs: seq<Field>) {
    forall i | 0 <= i < |xs| :: TypeOf(xs[i]) == kind
  }

  // No element is the empty text, which cannot be written.
  predicate NoEmpty(xs: seq<Field>) {
    forall i | 0 <= i < |xs| :: xs[i] != NO_TEXT
  }

  // ------------------------------------------------------------------ the format

  function ElemShape(kind: Kind): Shape {
    match kind
    case 'S' => Blob
    case 'I' => Num(INT_WIDTH)
    case 'D' => Num(DOUBLE_WIDTH)
    case _ => Num(BOOL_WIDTH)
  }

  // A negative int is written as its two's complement.
  function Code(x: int32): nat {
    if x < 0 then x + INT_SPAN else x
  }

  function Decoded(n: nat): int32
    requires n < INT_SPAN
  {
    if n < 0x8000_0000 then n else n - INT_SPAN
  }

  function CodeOf(f: Field): Datum {
    match f
    case Text(s) => T(s)
    case Whole(i) => N(Code(i))
    case Real(bits) => N(bits)
    case Truth(b) => N(if b then 1 else 0)
  }

  lemma Widths()
    ensures Pow256(INT_WIDTH) == INT_SPAN && Pow256(SIZE_WIDTH) == Pow256(DOUBLE_WIDTH) == LONG_SPAN
    ensures Pow256(BOOL_WIDTH) == 256
  {
    assert Pow256(1) == 256 && Pow256(2) == 65536 && Pow256(3) == 16777216 && Pow256(4) == 0x1_0000_0000;
    assert Pow256(5) == 0x100_0000_0000 && Pow256(6) == 0x1_0000_0000_0000 && Pow256(7) == 0x100_0000_0000_0000;
  }

  function FieldOf(kind: Kind, d: Datum): Field
    requires Carries(ElemShape(kind), d)
  {
    Widths();
    match kind
    case 'S' => Text(d.s)
    case 'I' => Whole(Decoded(d.n))
    case 'D' => Real(d.n)
    case _ => Truth(d.n != 0)
  }

  // The format carries every field but the empty text.
  lemma FieldFits(f: Field)
    ensures Carries(ElemShape(TypeOf(f)), CodeOf(f)) <==> f != NO_TEXT
    ensures f != NO_TEXT ==> FieldOf(TypeOf(f), CodeOf(f)) == f
  {
    Widths();
    hide Pow256;
  }

  function Codes(xs: seq<Field>): seq<Datum> {
    seq(|xs|, i requires 0 <= i < |xs| => CodeOf(xs[i]))
  }

  function ArrayShape(kind: Kind): Shape {
    List(ElemShape(kind))
  }

  lemma CodesFit(kind: Kind, xs: seq<Field>)
    requires OfKind(kind, xs) && |xs| < LONG_SPAN
    ensures CarriesAll(ElemShape(kind), Codes(xs)) <==> NoEmpty(xs)
    ensures Carries(ArrayShape(kind), L(Codes(xs))) <==> NoEmpty(xs)
  {
    Widths();
    EachCarries(ElemShape(kind), Codes(xs));
    hide Pow256, CarriesAll;
    forall i | 0 <= i < |xs| ensures Carries(ElemShape(kind), Codes(xs)[i]) <==> xs[i] != NO_TEXT { FieldFits(xs[i]); }
    hide Carries;
    assert forall i | 0 <= i < |xs| :: Carries(ElemShape(kind), Codes(xs)[i]) <==> xs[i] != NO_TEXT;
    ShapeOfArray(kind, xs);
  }

  lemma ShapeOfArray(kind: Kind, xs: seq<Field>)
    requires |xs| < Pow256(SIZE_WIDTH)
    ensures Carries(ArrayShape(kind), L(Codes(xs))) <==> CarriesAll(ElemShape(kind), Codes(xs))
  {
    hide Pow256, CarriesAll;
  }

  function FieldsOf(kind: Kind, items: seq<Datum>): seq<Field>
    requires CarriesAll(ElemShape(kind), items)
  {
    EachCarries(ElemShape(kind), items);
    seq(|items|, i requires 0 <= i < |items| => FieldOf(kind, items[i]))
  }

  // What the deserializing constructor makes of bytes.
  function ReadFields(kind: Kind, s: seq<byte>): Read<seq<Field>> {
    match Decode(ArrayShape(kind), s)
    case Failed => Failed
    case Got(d, rest) =>
      EncodeUndoesDecode(ArrayShape(kind), s);
      Got(FieldsOf(kind, d.items), rest)
  }

  predicate Stores(kind: Kind, xs: seq<Field>) {
    OfKind(kind, xs) && NoEmpty(xs) && |xs| < LONG_SPAN
  }

  function FieldBytes(kind: Kind, xs: seq<Field>): seq<byte>
    requires Stores(kind, xs)
  {
    CodesFit(kind, xs);
    Encode(ArrayShape(kind), L(Codes(xs)))
  }

  // An array that can be written, even an empty one, is read back from its
  // bytes.
  lemma FieldsAreReadBack(kind: Kind, xs: seq<Field>, suffix: seq<byte>)
    requires Stores(kind, xs)
    ensures ReadFields(kind, FieldBytes(kind, xs) + suffix) == Got(xs, suffix)
  {
    CodesFit(kind, xs);
    DecodeUndoesEncode(ArrayShape(kind), L(Codes(xs)), suffix);
    hide Encode, Decode, Pow256, Carries, FieldOf, ElemShape;
    var r := ReadFields(kind, FieldBytes(kind, xs) + suffix);
    assert r.Got? && r.rest == suffix && |r.value| == |xs|;
    forall i | 0 <= i < |xs| ensures r.value[i] == xs[i] {
      FieldFits(xs[i]);
      assert Codes(xs)[i] == CodeOf(xs[i]);
    }
    assert r.value == xs;
  }

  // ------------------------------------------------------------------- writing

  // add_int, add_double, add_bool or add_string; fails on an empty text.
  method WriteField(s: Serializer, f: Field) returns (ok: bool)
    requires s.Valid()
    modifies s, s.bytes
    ensures s.Valid() && (s.bytes == old(s.bytes) || fresh(s.bytes))
    ensures ok <==> f != NO_TEXT
    ensures ok ==> Carries(ElemShape(TypeOf(f)), CodeOf(f))
    ensures ok ==> s.Contents() == old(s.Contents()) + Encode(ElemShape(TypeOf(f)), CodeOf(f))
  {
    Widths();
    FieldFits(f);
    hide Pow256, LittleEndian, Serializer.Valid, Serializer.Contents;
    match f {
      case Text(t) =>
        if |t| == 0 { return false; }
        s.AddString(t);
      case Whole(i) => s.AddNumber(Code(i), INT_WIDTH);
      case Real(bits) => s.AddNumber(bits, DOUBLE_WIDTH);
      case Truth(b) => s.AddNumber(if b then 1 else 0, BOOL_WIDTH);
    }
    ok := true;
  }

  method WriteNextField(s: Serializer, ghost kind: Kind, xs: seq<Field>, i: nat, ghost start: seq<byte>)
    returns (ok: bool)
    requires OfKind(kind, xs) && i < |xs| && WroteUpTo(s, start, ElemShape(kind), Codes(xs), i)
    modifies s, s.bytes
    ensures s.Valid() && (s.bytes == old(s.bytes) || fresh(s.bytes))
    ensures ok <==> xs[i] != NO_TEXT
    ensures ok ==> WroteUpTo(s, start, ElemShape(kind), Codes(xs), i + 1)
  {
    FieldFits(xs[i]);
    if xs[i] != NO_TEXT { NextIsWritten(ElemShape(kind), Codes(xs), i, start); }
    hide EncodeAll, Encode, CarriesAll, Carries, CodeOf, ElemShape, Serializer.Valid, Serializer.Contents;
    ok := WriteField(s, xs[i]);
  }

  // The loop of serialize: fails if and only if some text is empty.
  method WriteFields(s: Serializer, ghost kind: Kind, xs: seq<Field>) returns (ok: bool)
    requires s.Valid() && OfKind(kind, xs) && |xs| < LONG_SPAN
    modifies s, s.bytes
    ensures s.Valid() && (s.bytes == old(s.bytes) || fresh(s.bytes))
    ensures ok <==> NoEmpty(xs)
    ensures ok ==> s.Contents() == old(s.Contents()) + FieldBytes(kind, xs)
  {
    hide Encode, EncodeAll, Carries, CarriesAll, Pow256, Codes, FieldBytes, ElemShape, Serializer.Valid,
      Serializer.Contents, WroteUpTo, OfKind;
    ghost var was := s.Contents();
    FieldsInParts(was, kind, xs);
    s.AddNumber(|xs|, SIZE_WIDTH);
    ghost var start := s.Contents();
    NothingYet(s, start, ElemShape(kind), Codes(xs));
    for i := 0 to |xs|
      invariant WroteUpTo(s, start, ElemShape(kind), Codes(xs), i) && NoEmpty(xs[..i])
      invariant s.bytes == old(s.bytes) || fresh(s.bytes)
    {
      ok := WriteNextField(s, kind, xs, i, start);
      if !ok { return; }
      NoEmptyNext(xs, i);
    }
    AllWritten(s, start, ElemShape(kind), Codes(xs));
    ok := true;
  }

  lemma NoEmptyNext(xs: seq<Field>, i: nat)
    requires i < |xs| && NoEmpty(xs[..i]) && xs[i] != NO_TEXT
    ensures NoEmpty(xs[..i + 1])
  {
  }

  lemma FieldsInParts(was: seq<byte>, kind: Kind, xs: seq<Field>)
    requires OfKind(kind, xs) && |xs| < LONG_SPAN
    ensures |Codes(xs)| == |xs| < Pow256(SIZE_WIDTH) && Carries(Num(SIZE_WIDTH), N(|xs|))
    ensures NoEmpty(xs) ==> CarriesAll(ElemShape(kind), Codes(xs))
    ensures NoEmpty(xs) ==>
      was + Encode(Num(SIZE_WIDTH), N(|xs|)) + EncodeAll(ElemShape(kind), Codes(xs)) == was + FieldBytes(kind, xs)
  {
    Widths();
    CodesFit(kind, xs);
    if NoEmpty(xs) { ListInParts(was, ElemShape(kind), Codes(xs)); }
    hide Pow256, Encode, EncodeAll, CarriesAll, ElemShape;
  }

  // ------------------------------------------------------------------- reading

  // get_int, get_double, get_bool or get_string.
  method ReadField(d: Deserializer, kind: Kind) returns (ok: bool, f: Field)
    requires d.Valid()
    modifies d
    ensures d.Valid() && ok == Decode(ElemShape(kind), old(d.Remaining())).Got?
    ensures ok ==> Carries(ElemShape(kind), Decode(ElemShape(kind), old(d.Remaining())).value)
    ensures ok ==> f == FieldOf(kind, Decode(ElemShape(kind), old(d.Remaining())).value)
    ensures ok ==> d.Remaining() == Decode(ElemShape(kind), old(d.Remaining())).rest
  {
    Widths();
    ghost var s := d.Remaining();
    if Decode(ElemShape(kind), s).Got? { EncodeUndoesDecode(ElemShape(kind), s); }
    hide Pow256, LittleEndian, FromLittleEndian, Encode;
    f := NO_TEXT;
    var n;
    match kind
    case 'S' =>
      var t;
      ok, t := d.GetString();
      if ok { f := Text(t); }
    case 'I' =>
      ok, n := d.GetNumber(INT_WIDTH);
      if ok { f := Whole(Decoded(n)); }
    case 'D' =>
      ok, n := d.GetNumber(DOUBLE_WIDTH);
      if ok { f := Real(n); }
    case _ =>
      ok, n := d.GetNumber(BOOL_WIDTH);
      if ok { f := Truth(n != 0); }
  }

  method ReadNextField(d: Deserializer, kind: Kind, ghost total: nat, ghost s: seq<byte>, ghost done: seq<Datum>)
    returns (ok: bool, f: Field, ghost more: seq<Datum>)
    requires d.Valid() && ReadUpTo(ElemShape(kind), total, s, done, d.Remaining()) && |done| < total
    modifies d
    ensures d.Valid()
    ensures !ok ==> DecodeAll(ElemShape(kind), total, s).Failed?
    ensures ok ==> ReadUpTo(ElemShape(kind), total, s, more, d.Remaining()) && |more| == |done| + 1
    ensures ok ==> TypeOf(f) == kind && FieldsOf(kind, more) == FieldsOf(kind, done) + [f]
  {
    more := done;
    ghost var rest := d.Remaining();
    NextIsRead(ElemShape(kind), total, s, done, rest);
    if Decode(ElemShape(kind), rest).Got? { ReadIsOfKind(kind, Decode(ElemShape(kind), rest).value); }
    hide Decode, DecodeAll, FieldOf, Carries, ElemShape;
    ok, f := ReadField(d, kind);
    if ok { more := done + [Decode(ElemShape(kind), rest).value]; }
  }

  lemma ReadIsOfKind(kind: Kind, d: Datum)
    requires Carries(ElemShape(kind), d)
    ensures TypeOf(FieldOf(kind, d)) == kind
  {
  }

  lemma ArrayInParts(kind: Kind, s: seq<byte>)
    requires ReadFields(kind, s).Got?
    ensures ReadNumber(SIZE_WIDTH, s).Got?
    ensures var r := ReadNumber(SIZE_WIDTH, s);
      var items := DecodeAll(ElemShape(kind), r.value, r.rest);
      && items.Got? && CarriesAll(ElemShape(kind), items.value)
      && ReadFields(kind, s) == Got(FieldsOf(kind, items.value), items.rest)
  {
    EncodeUndoesDecode(ArrayShape(kind), s);
    hide DecodeAll, ReadNumber, ElemShape, FieldOf, CarriesAll;
  }

  // ---------------------------------------------------------------- the array

  class FieldArray {
    const kind: Kind
    var items: array<Field>
    var size: nat
    var capacity: nat

    ghost predicate Valid()
      reads this, items
    {
      size <= capacity == items.Length && forall i | 0 <= i < size :: TypeOf(items[i]) == kind
    }

    ghost function Contents(): seq<Field>
      requires Valid()
      reads this, items
    {
      items[..size]
    }

    constructor (kind: Kind, maxSize: nat)
      ensures Valid() && fresh(items) && Contents() == [] && capacity == maxSize && this.kind == kind
    {
      this.kind := kind;
      size := 0;
      capacity := maxSize;
      items := new Field[maxSize];
    }

    // There must be room: the source asserts it.
    method PushBack(x: Field)
      requires Valid() && size < capacity && TypeOf(x) == kind
      modifies this`size, items
      ensures Valid() && Contents() == old(Contents()) + [x]
    {
      items[size] := x;
      size := size + 1;
    }

    method Get(i: nat) returns (x: Field)
      requires Valid() && i < size
      ensures x == Contents()[i]
    {
      x := items[i];
    }

    method Values() returns (xs: seq<Field>)
      requires Valid()
      ensures xs == Contents()
    {
      xs := items[..size];
    }

    method Serialize(s: Serializer) returns (ok: bool)
      requires Valid() && s.Valid() && size < LONG_SPAN && s.bytes as object != items as object
      modifies s, s.bytes
      ensures Valid() && Contents() == old(Contents())
      ensures s.Valid() && (s.bytes == old(s.bytes) || fresh(s.bytes))
      ensures ok <==> NoEmpty(Contents())
      ensures ok ==> OfKind(kind, Contents()) && s.Contents() == old(s.Contents()) + FieldBytes(kind, Contents())
    {
      var xs := Values();
      hide FieldBytes, Serializer.Contents;
      ok := WriteFields(s, kind, xs);
    }

    // The capacity of an array that is read is its size.
    constructor Deserialize(kind: Kind, d: Deserializer)
      requires d.Valid() && ReadFields(kind, d.Remaining()).Got?
      modifies d
      ensures Valid() && fresh(items) && capacity == size && this.kind == kind
      ensures d.Valid() && Got(Contents(), d.Remaining()) == ReadFields(kind, old(d.Remaining()))
    {
      ghost var whole := d.Remaining();
      ArrayInParts(kind, whole);
      var ok, count := d.GetNumber(SIZE_WIDTH);
      ghost var s, done := d.Remaining(), [];
      ReadingStarts(ElemShape(kind), count, s);
      this.kind := kind;
      size := 0;
      capacity := count;
      items := new Field[count];
      new;
      hide Decode, DecodeAll, Pow256, ReadFields, ReadNumber, Carries, CarriesAll, ElemShape, FieldOf, ReadUpTo;
      for i := 0 to count
        invariant Valid() && fresh(items) && capacity == count && size == i == |done|
        invariant d.Valid() && ReadUpTo(ElemShape(kind), count, s, done, d.Remaining())
        invariant CarriesAll(ElemShape(kind), done) && Contents() == FieldsOf(kind, done)
      {
        var f;
        ok, f, done := ReadNextField(d, kind, count, s, done);
        PushBack(f);
      }
      ReadingEnds(ElemShape(kind), count, s, done, d.Remaining());
    }
  }
}
