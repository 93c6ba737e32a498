// The 32-bit ints of the source, and the conversions to and from them.

module Ints {
  type int32 = x: int | -0x8000_0000 <= x < 0x8000_0000

  const INT_SPAN := 0x1_0000_0000
  const LONG_SPAN := 0x1_0000_0000_0000_0000

  // Conversion of a wider number to int: its low 32 bits, read as signed.
  function ToInt32(x: int): (r: int32)
    ensures (x - r) % INT_SPAN == 0
  {
    var low := x % INT_SPAN;
    if low < 0x8000_0000 then low else low - INT_SPAN
  }

  // A signed long, in two's complement.
  function ToInt64(x: int): (r: int)
    ensures (x - r) % LONG_SPAN == 0 && -0x8000_0000_0000_0000 <= r < 0x8000_0000_0000_0000
  {
    var low := x % LONG_SPAN;
    if low < 0x8000_0000_0000_0000 then low else low - LONG_SPAN
  }

  // The implicit conversion of an int argument to size_t.
  function ToSize(v: int32): (r: nat)
    ensures (r - v) % LONG_SPAN == 0 && r < 0x1_0000_0000_0000_0000
  {
    if v >= 0 then v else v + LONG_SPAN
  }

  // The conversion keeps exactly the numbers that fit.
  lemma IntsFitExactly(x: int)
    ensures ToInt32(x) == x <==> -0x8000_0000 <= x < 0x8000_0000
  {
  }

  lemma SameInt32(x: int, y: int)
    requires (x - y) % INT_SPAN == 0
    ensures ToInt32(x) == ToInt32(y)
  {
  }

  lemma MultipleOfLong(d: int)
    requires d % LONG_SPAN == 0
    ensures d % INT_SPAN == 0
  {
    var k := d / LONG_SPAN;
    assert d == (k * 0x1_0000_0000) * INT_SPAN;
  }

  // A detour through a long does not change the int, negated or not.
  lemma IntOfLong(x: int)
    ensures ToInt32(ToInt64(x)) == ToInt32(x)
    ensures ToInt32(0 - ToInt64(x)) == ToInt32(0 - x)
  {
    hide ToInt32;
    MultipleOfLong(x - ToInt64(x));
    hide ToInt64;
    SameInt32(x, ToInt64(x));
    SameInt32(0 - ToInt64(x), 0 - x);
  }

  // An accumulator that overflows at every step ends as if it overflowed once.
  lemma AccumulatorWraps(x: int, digit: int)
    ensures ToInt64(ToInt64(x) * 10 + digit) == ToInt64(x * 10 + digit)
  {
    TenTimes(x - ToInt64(x));
    hide ToInt64;
    SameInt64(x * 10 + digit, ToInt64(x) * 10 + digit);
  }

  lemma TenTimes(d: int)
    requires d % LONG_SPAN == 0
    ensures (d * 10) % LONG_SPAN == 0
  {
    var k := d / LONG_SPAN;
    assert d * 10 == (k * 10) * LONG_SPAN;
  }

  lemma SameInt64(x: int, y: int)
    requires (x - y) % LONG_SPAN == 0
    ensures ToInt64(x) == ToInt64(y)
  {
  }
}
