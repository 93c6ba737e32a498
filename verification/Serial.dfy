// The serializer's growing buffer and the deserializer's moving cursor.

module Serial {
  import opened Wire

  const INITIAL_CAPACITY := 8

  class Serializer {
    var bytes: array<byte>
    var size: nat
    var capacity: nat

    ghost predicate Valid()
      reads this, bytes
    {
      size <= capacity == bytes.Length && capacity >= INITIAL_CAPACITY
    }

    ghost function Contents(): seq<byte>
      requires Valid()
      reads this, bytes
    {
      bytes[..size]
    }

    constructor ()
      ensures Valid() && fresh(bytes) && Contents() == [] && capacity == 8
    {
      size := 0;
      capacity := INITIAL_CAPACITY;
      bytes := new byte[INITIAL_CAPACITY];
    }

    method GetBytes() returns (s: seq<byte>)
      requires Valid()
      ensures s == Contents()
    {
      s := bytes[..size];
    }

    // Looks for the first factor, from 2 on, that makes room for more than
    // minCapacity, and moves the bytes to a buffer of that many times the size.
    method Expand(minCapacity: nat)
      requires Valid() && minCapacity > capacity
      modifies this
      ensures Valid() && size == old(size) && Contents() == old(Contents()) && fresh(bytes)
      ensures capacity > minCapacity
      ensures exists factor: nat | factor >= 2 && capacity == old(capacity) * factor ::
        forall f: nat | 2 <= f < factor :: old(capacity) * f <= minCapacity
    {
      var factor := FindFactor(minCapacity, capacity);
      hide FirstFactor;
      var newBytes := new byte[capacity * factor];
      for i := 0 to size
        invariant newBytes[..i] == bytes[..i]
        modifies newBytes
      {
        newBytes[i] := bytes[i];
      }
      bytes := newBytes;
      capacity := capacity * factor;
    }

    method Reserve(newSize: nat)
      requires Valid()
      modifies this
      ensures Valid() && newSize <= capacity && size == old(size) && Contents() == old(Contents())
      ensures bytes == old(bytes) || fresh(bytes)
    {
      if newSize > capacity { Expand(newSize); }
    }

    // Copies bytes behind the ones that are there.
    method Append(s: seq<byte>)
      requires Valid()
      modifies this, bytes
      ensures Valid() && Contents() == old(Contents()) + s
      ensures bytes == old(bytes) || fresh(bytes)
    {
      Reserve(size + |s|);
      CopyTo(bytes, size, s);
      assert bytes[..size + |s|] == bytes[..size] + bytes[size..size + |s|];
      size := size + |s|;
    }

    // add_int, add_size_t and the other numbers, by their width.
    method AddNumber(x: nat, width: nat)
      requires Valid() && x < Pow256(width)
      modifies this, bytes
      ensures Valid() && Contents() == old(Contents()) + Encode(Num(width), N(x))
      ensures bytes == old(bytes) || fresh(bytes)
    {
      Append(LittleEndian(x, width));
    }

    method AddString(s: seq<byte>)
      requires Valid() && 0 < |s| < Pow256(SIZE_WIDTH)
      modifies this, bytes
      ensures Valid() && Contents() == old(Contents()) + Encode(Blob, T(s))
      ensures bytes == old(bytes) || fresh(bytes)
    {
      hide LittleEndian, Pow256;
      AddNumber(|s|, SIZE_WIDTH);
      Append(s);
    }
  }

  // memcpy to place at of the buffer.
  method CopyTo(bytes: array<byte>, at: nat, s: seq<byte>)
    requires at + |s| <= bytes.Length
    modifies bytes
    ensures bytes[..at] == old(bytes[..at]) && bytes[at..at + |s|] == s
  {
    for i := 0 to |s|
      invariant bytes[..at] == old(bytes[..at]) && bytes[at..at + i] == s[..i]
    {
      bytes[at + i] := s[i];
    }
    assert s[..|s|] == s;
  }

  ghost predicate FirstFactor(factor: nat, minCapacity: nat, capacity: nat) {
    factor >= 2 && minCapacity < capacity * factor && forall f: nat | 2 <= f < factor :: minCapacity >= capacity * f
  }

  method FindFactor(minCapacity: nat, capacity: nat) returns (factor: nat)
    requires capacity > 0
    ensures FirstFactor(factor, minCapacity, capacity) && capacity * factor > minCapacity
  {
    factor := 2;
    while minCapacity >= capacity * factor
      invariant factor >= 2 && forall f: nat | 2 <= f < factor :: minCapacity >= capacity * f
      decreases minCapacity - capacity * factor
    {
      assert capacity * (factor + 1) == capacity * factor + capacity;
      factor := factor + 1;
    }
  }

  class Deserializer {
    const bytes: seq<byte>
    var current: nat

    ghost predicate Valid()
      reads this
    {
      current <= |bytes|
    }

    function Remaining(): seq<byte>
      requires Valid()
      reads this
    {
      bytes[current..]
    }

    constructor (bytes: seq<byte>)
      ensures Valid() && this.bytes == bytes && Remaining() == bytes
    {
      this.bytes := bytes;
      current := 0;
    }

    // Failed stands for a failing assertion.
    method GetNumber(width: nat) returns (ok: bool, x: nat)
      requires Valid()
      modifies this
      ensures Valid() && ok == ReadNumber(width, old(Remaining())).Got?
      ensures ok ==> Got(x, Remaining()) == ReadNumber(width, old(Remaining()))
    {
      ok, x := false, 0;
      if |bytes| - current < width { return; }
      x := FromLittleEndian(bytes[current..current + width]);
      assert bytes[current..][..width] == bytes[current..current + width];
      assert bytes[current..][width..] == bytes[current + width..];
      current := current + width;
      ok := true;
    }

    method GetString() returns (ok: bool, s: seq<byte>)
      requires Valid()
      modifies this
      ensures Valid() && ok == Decode(Blob, old(Remaining())).Got?
      ensures ok ==> Got(T(s), Remaining()) == Decode(Blob, old(Remaining()))
    {
      s := [];
      var len;
      ok, len := GetNumber(SIZE_WIDTH);
      if !ok || len == 0 || |bytes| - current < len { return false, s; }
      s := bytes[current..current + len];
      assert bytes[current..][..len] == s && bytes[current..][len..] == bytes[current + len..];
      current := current + len;
    }
  }

  // ------------------------------------------------------------ writing a list

  // In the middle of writing a list: the first j items are there.
  ghost predicate WroteUpTo(s: Serializer, start: seq<byte>, elem: Shape, items: seq<Datum>, j: nat)
    reads s, s.bytes
  {
    && s.Valid() && j <= |items| && CarriesAll(elem, items[..j])
    && s.Contents() == start + EncodeAll(elem, items[..j])
  }

  lemma NothingYet(s: Serializer, start: seq<byte>, elem: Shape, items: seq<Datum>)
    requires s.Valid() && s.Contents() == start
    ensures WroteUpTo(s, start, elem, items, 0)
  {
    assert items[..0] == [] && start + [] == start;
  }

  lemma AllWritten(s: Serializer, start: seq<byte>, elem: Shape, items: seq<Datum>)
    requires WroteUpTo(s, start, elem, items, |items|)
    ensures s.Valid() && CarriesAll(elem, items) && s.Contents() == start + EncodeAll(elem, items)
  {
    assert items[..|items|] == items;
    hide EncodeAll, CarriesAll, Serializer.Valid, Serializer.Contents;
  }
}
