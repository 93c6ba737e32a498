// The byte format: numbers are little-endian of a fixed width, texts and lists
// carry their length in front. A shape describes a format; each composite
// object of the system has one.

module Wire {
  type byte = x: int | 0 <= x < 256

  function Pow256(n: nat): nat {
    if n == 0 then 1 else 256 * Pow256(n - 1)
  }

  const SIZE_WIDTH := 8
  const INT_WIDTH := 4

  predicate IsSize(n: nat) {
    n < Pow256(SIZE_WIDTH)
  }

  datatype Shape = Num(width: nat) | Blob | Pair(fst: Shape, snd: Shape) | List(elem: Shape)

  datatype Datum = N(n: nat) | T(s: seq<byte>) | P(a: Datum, b: Datum) | L(items: seq<Datum>)

  datatype Read<A> = Failed | Got(value: A, rest: seq<byte>)

  lemma Associative(a: seq<byte>, b: seq<byte>, c: seq<byte>)
    ensures (a + b) + c == a + (b + c)
  {
  }

  // ------------------------------------------------------------------- numbers

  function LittleEndian(x: nat, width: nat): (r: seq<byte>)
    ensures |r| == width
  {
    if width == 0 then [] else [x % 256] + LittleEndian(x / 256, width - 1)
  }

  function FromLittleEndian(s: seq<byte>): nat {
    if s == [] then 0 else s[0] + 256 * FromLittleEndian(s[1..])
  }

  lemma {:induction false} NumberRoundTrip(x: nat, width: nat)
    requires x < Pow256(width)
    ensures FromLittleEndian(LittleEndian(x, width)) == x
  {
    if width > 0 {
      assert x / 256 < Pow256(width - 1);
      NumberRoundTrip(x / 256, width - 1);
      assert LittleEndian(x, width)[1..] == LittleEndian(x / 256, width - 1);
    }
  }

  lemma {:induction false} BytesRoundTrip(s: seq<byte>)
    ensures FromLittleEndian(s) < Pow256(|s|)
    ensures LittleEndian(FromLittleEndian(s), |s|) == s
  {
    if s != [] {
      BytesRoundTrip(s[1..]);
      LowByte(s[0], FromLittleEndian(s[1..]));
      assert s == [s[0]] + s[1..];
    }
  }

  lemma LowByte(b: byte, y: nat)
    ensures (b + 256 * y) % 256 == b && (b + 256 * y) / 256 == y
  {
  }

  // --------------------------------------------------------------------- shapes

  // A datum that the format can carry; an empty text cannot be written.
  predicate Carries(sh: Shape, d: Datum)
    decreases sh, 0
  {
    match sh
    case Num(width) => d.N? && d.n < Pow256(width)
    case Blob => d.T? && 0 < |d.s| < Pow256(SIZE_WIDTH)
    case Pair(fst, snd) => d.P? && Carries(fst, d.a) && Carries(snd, d.b)
    case List(elem) => d.L? && |d.items| < Pow256(SIZE_WIDTH) && CarriesAll(elem, d.items)
  }

  predicate CarriesAll(elem: Shape, items: seq<Datum>)
    decreases elem, |items| + 1
  {
    items == [] || (Carries(elem, items[0]) && CarriesAll(elem, items[1..]))
  }

  function Encode(sh: Shape, d: Datum): seq<byte>
    requires Carries(sh, d)
    decreases sh, 0
  {
    match sh
    case Num(width) => LittleEndian(d.n, width)
    case Blob => LittleEndian(|d.s|, SIZE_WIDTH) + d.s
    case Pair(fst, snd) => Encode(fst, d.a) + Encode(snd, d.b)
    case List(elem) => LittleEndian(|d.items|, SIZE_WIDTH) + EncodeAll(elem, d.items)
  }

  function EncodeAll(elem: Shape, items: seq<Datum>): seq<byte>
    requires CarriesAll(elem, items)
    decreases elem, |items| + 1
  {
    if items == [] then [] else Encode(elem, items[0]) + EncodeAll(elem, items[1..])
  }

  function ReadNumber(width: nat, s: seq<byte>): Read<nat> {
    if |s| < width then Failed else Got(FromLittleEndian(s[..width]), s[width..])
  }

  function Decode(sh: Shape, s: seq<byte>): Read<Datum>
    decreases sh, 0
  {
    match sh
    case Num(width) => (
      match ReadNumber(width, s)
      case Failed => Failed
      case Got(x, rest) => Got(N(x), rest))
    case Blob => (
      match ReadNumber(SIZE_WIDTH, s)
      case Failed => Failed
      case Got(len, rest) => if len == 0 || |rest| < len then Failed else Got(T(rest[..len]), rest[len..]))
    case Pair(fst, snd) => (
      match Decode(fst, s)
      case Failed => Failed
      case Got(a, rest) =>
        match Decode(snd, rest)
        case Failed => Failed
        case Got(b, end) => Got(P(a, b), end))
    case List(elem) => (
      match ReadNumber(SIZE_WIDTH, s)
      case Failed => Failed
      case Got(count, rest) =>
        match DecodeAll(elem, count, rest)
        case Failed => Failed
        case Got(items, end) => Got(L(items), end))
  }

  function DecodeAll(elem: Shape, count: nat, s: seq<byte>): (r: Read<seq<Datum>>)
    ensures r.Got? ==> |r.value| == count
    decreases elem, count + 1
  {
    if count == 0 then Got([], s)
    else match Decode(elem, s)
      case Failed => Failed
      case Got(first, rest) =>
        match DecodeAll(elem, count - 1, rest)
        case Failed => Failed
        case Got(items, end) => Got([first] + items, end)
  }

  // ------------------------------------------------------------ self-delimiting

  lemma ReadNumberBack(x: nat, width: nat, suffix: seq<byte>)
    requires x < Pow256(width)
    ensures ReadNumber(width, LittleEndian(x, width) + suffix) == Got(x, suffix)
  {
    NumberRoundTrip(x, width);
    var s := LittleEndian(x, width);
    assert (s + suffix)[..width] == s && (s + suffix)[width..] == suffix;
  }

  lemma ReadNumberInverse(width: nat, s: seq<byte>)
    requires |s| >= width
    ensures ReadNumber(width, s).value < Pow256(width)
    ensures s == LittleEndian(ReadNumber(width, s).value, width) + ReadNumber(width, s).rest
  {
    BytesRoundTrip(s[..width]);
  }

  // Decoding undoes encoding and leaves whatever follows.
  lemma {:induction false} DecodeUndoesEncode(sh: Shape, d: Datum, suffix: seq<byte>)
    requires Carries(sh, d)
    ensures Decode(sh, Encode(sh, d) + suffix) == Got(d, suffix)
    decreases sh, 0
  {
    hide ReadNumber, LittleEndian, Pow256;
    match sh
    case Num(width) => ReadNumberBack(d.n, width, suffix);
    case Blob =>
      assert Encode(sh, d) + suffix == LittleEndian(|d.s|, SIZE_WIDTH) + (d.s + suffix);
      ReadNumberBack(|d.s|, SIZE_WIDTH, d.s + suffix);
    case Pair(fst, snd) =>
      assert Encode(sh, d) + suffix == Encode(fst, d.a) + (Encode(snd, d.b) + suffix);
      DecodeUndoesEncode(fst, d.a, Encode(snd, d.b) + suffix);
      DecodeUndoesEncode(snd, d.b, suffix);
    case List(elem) =>
      assert Encode(sh, d) + suffix == LittleEndian(|d.items|, SIZE_WIDTH) + (EncodeAll(elem, d.items) + suffix);
      ReadNumberBack(|d.items|, SIZE_WIDTH, EncodeAll(elem, d.items) + suffix);
      DecodeAllUndoes(elem, d.items, suffix);
  }

  lemma {:induction false} DecodeAllUndoes(elem: Shape, items: seq<Datum>, suffix: seq<byte>)
    requires CarriesAll(elem, items)
    ensures DecodeAll(elem, |items|, EncodeAll(elem, items) + suffix) == Got(items, suffix)
    decreases elem, |items| + 1
  {
    hide Encode, Decode, Carries;
    if items == [] {
      assert EncodeAll(elem, items) + suffix == suffix;
    } else {
      var more := EncodeAll(elem, items[1..]) + suffix;
      assert EncodeAll(elem, items) + suffix == Encode(elem, items[0]) + more;
      DecodeUndoesEncode(elem, items[0], more);
      DecodeAllUndoes(elem, items[1..], suffix);
      assert items == [items[0]] + items[1..];
    }
  }

  // Whatever is decoded was encoded: each datum has one encoding.
  lemma {:induction false} EncodeUndoesDecode(sh: Shape, s: seq<byte>)
    requires Decode(sh, s).Got?
    ensures var r := Decode(sh, s); Carries(sh, r.value) && s == Encode(sh, r.value) + r.rest
    decreases sh, 0
  {
    hide ReadNumber, LittleEndian, Pow256;
    match sh
    case Num(width) => ReadNumberFound(width, s);
    case Blob =>
      ReadNumberFound(SIZE_WIDTH, s);
    case Pair(fst, snd) =>
      EncodeUndoesDecode(fst, s);
      EncodeUndoesDecode(snd, Decode(fst, s).rest);
    case List(elem) =>
      ReadNumberFound(SIZE_WIDTH, s);
      EncodeAllUndoes(elem, ReadNumber(SIZE_WIDTH, s).value, ReadNumber(SIZE_WIDTH, s).rest);
  }

  lemma ReadNumberFound(width: nat, s: seq<byte>)
    requires ReadNumber(width, s).Got?
    ensures var r := ReadNumber(width, s); r.value < Pow256(width) && s == LittleEndian(r.value, width) + r.rest
  {
    ReadNumberInverse(width, s);
  }

  lemma {:induction false} EncodeAllUndoes(elem: Shape, count: nat, s: seq<byte>)
    requires DecodeAll(elem, count, s).Got?
    ensures var r := DecodeAll(elem, count, s); CarriesAll(elem, r.value) && s == EncodeAll(elem, r.value) + r.rest
    decreases elem, count + 1
  {
    hide Encode, Decode, Carries;
    if count == 0 {
      assert s == [] + s;
    } else {
      EncodeUndoesDecode(elem, s);
      EncodeAllUndoes(elem, count - 1, Decode(elem, s).rest);
      var r := DecodeAll(elem, count, s);
      assert r.value[1..] == DecodeAll(elem, count - 1, Decode(elem, s).rest).value;
    }
  }

  // The bytes at the front of s are the encoding of d exactly when decoding
  // gives d and leaves the rest.
  lemma SelfDelimiting(sh: Shape, d: Datum, s: seq<byte>, rest: seq<byte>)
    ensures Decode(sh, s) == Got(d, rest) <==> Carries(sh, d) && s == Encode(sh, d) + rest
  {
    if Decode(sh, s) == Got(d, rest) { EncodeUndoesDecode(sh, s); }
    if Carries(sh, d) && s == Encode(sh, d) + rest { DecodeUndoesEncode(sh, d, rest); }
  }

  // -------------------------------------------------------- one item at a time

  lemma {:induction false} EachCarries(elem: Shape, items: seq<Datum>)
    ensures CarriesAll(elem, items) <==> forall i | 0 <= i < |items| :: Carries(elem, items[i])
    decreases |items|
  {
    hide Carries;
    if items != [] {
      EachCarries(elem, items[1..]);
      assert forall i | 0 < i < |items| :: items[i] == items[1..][i - 1];
    }
  }

  lemma {:induction false} EncodeNext(elem: Shape, items: seq<Datum>, last: Datum)
    requires CarriesAll(elem, items) && Carries(elem, last)
    ensures CarriesAll(elem, items + [last])
    ensures EncodeAll(elem, items + [last]) == EncodeAll(elem, items) + Encode(elem, last)
    decreases |items|
  {
    hide Carries, Encode;
    if items == [] {
      assert items + [last] == [last] && [last][1..] == [];
      assert EncodeAll(elem, [last]) == Encode(elem, last) + [];
    } else {
      EncodeNext(elem, items[1..], last);
      assert (items + [last])[1..] == items[1..] + [last];
    }
  }

  // What is decoded after some items are there.
  function Resumed(done: seq<Datum>, r: Read<seq<Datum>>): Read<seq<Datum>> {
    match r
    case Failed => Failed
    case Got(items, rest) => Got(done + items, rest)
  }

  lemma DecodeNext(elem: Shape, done: seq<Datum>, count: nat, s: seq<byte>)
    requires count > 0
    ensures Resumed(done, DecodeAll(elem, count, s)) ==
      match Decode(elem, s)
      case Failed => Failed
      case Got(first, rest) => Resumed(done + [first], DecodeAll(elem, count - 1, rest))
  {
    hide Decode;
    match Decode(elem, s)
    case Failed =>
    case Got(first, rest) =>
      match DecodeAll(elem, count - 1, rest)
      case Failed =>
      case Got(items, end) => assert done + ([first] + items) == (done + [first]) + items;
  }

  // --------------------------------------------------- writing and reading in parts

  lemma PairInParts(was: seq<byte>, fst: Shape, snd: Shape, a: Datum, b: Datum)
    requires Carries(fst, a) && Carries(snd, b)
    ensures Carries(Pair(fst, snd), P(a, b))
    ensures was + Encode(fst, a) + Encode(snd, b) == was + Encode(Pair(fst, snd), P(a, b))
  {
    var x, y := Encode(fst, a), Encode(snd, b);
    assert was + x + y == was + (x + y);
  }

  lemma ListInParts(was: seq<byte>, elem: Shape, items: seq<Datum>)
    requires IsSize(|items|) && CarriesAll(elem, items)
    ensures Carries(List(elem), L(items)) && Carries(Num(SIZE_WIDTH), N(|items|))
    ensures was + Encode(Num(SIZE_WIDTH), N(|items|)) + EncodeAll(elem, items) == was + Encode(List(elem), L(items))
  {
    hide LittleEndian, EncodeAll, CarriesAll, Pow256;
    var x, y := Encode(Num(SIZE_WIDTH), N(|items|)), EncodeAll(elem, items);
    assert was + x + y == was + (x + y);
  }

  lemma NextIsWritten(elem: Shape, items: seq<Datum>, j: nat, start: seq<byte>)
    requires j < |items| && CarriesAll(elem, items[..j]) && Carries(elem, items[j])
    ensures CarriesAll(elem, items[..j + 1])
    ensures start + EncodeAll(elem, items[..j]) + Encode(elem, items[j]) == start + EncodeAll(elem, items[..j + 1])
  {
    assert items[..j + 1] == items[..j] + [items[j]];
    EncodeNext(elem, items[..j], items[j]);
    hide EncodeAll, Encode, Carries, CarriesAll;
  }

  // In the middle of reading a list of total items: what is read so far and
  // what decoding the rest gives are what decoding everything gives.
  ghost predicate ReadUpTo(elem: Shape, total: nat, s: seq<byte>, done: seq<Datum>, rest: seq<byte>) {
    && |done| <= total && CarriesAll(elem, done)
    && Resumed(done, DecodeAll(elem, total - |done|, rest)) == DecodeAll(elem, total, s)
  }

  lemma ReadingStarts(elem: Shape, total: nat, s: seq<byte>)
    ensures ReadUpTo(elem, total, s, [], s)
  {
    hide DecodeAll;
    var r := DecodeAll(elem, total, s);
    assert r.Got? ==> [] + r.value == r.value;
  }

  lemma NextIsRead(elem: Shape, total: nat, s: seq<byte>, done: seq<Datum>, rest: seq<byte>)
    requires ReadUpTo(elem, total, s, done, rest) && |done| < total
    ensures Decode(elem, rest).Failed? ==> DecodeAll(elem, total, s).Failed?
    ensures Decode(elem, rest).Got? ==> Carries(elem, Decode(elem, rest).value)
    ensures Decode(elem, rest).Got? ==>
      ReadUpTo(elem, total, s, done + [Decode(elem, rest).value], Decode(elem, rest).rest)
  {
    DecodeNext(elem, done, total - |done|, rest);
    if Decode(elem, rest).Got? {
      EncodeUndoesDecode(elem, rest);
      EachCarries(elem, done);
      EachCarries(elem, done + [Decode(elem, rest).value]);
    }
    hide Decode, DecodeAll, CarriesAll, Carries, Encode;
  }

  lemma ReadingEnds(elem: Shape, total: nat, s: seq<byte>, done: seq<Datum>, rest: seq<byte>)
    requires ReadUpTo(elem, total, s, done, rest) && |done| == total
    ensures DecodeAll(elem, total, s) == Got(done, rest)
  {
    assert done + [] == done;
  }

  lemma CountIsSmall(s: seq<byte>)
    requires ReadNumber(SIZE_WIDTH, s).Got?
    ensures IsSize(ReadNumber(SIZE_WIDTH, s).value)
  {
    ReadNumberFound(SIZE_WIDTH, s);
  }
}
