// Names of column segments: the column's id, an underscore and the segment's
// number, cut to the 14 characters that fit the name buffer.

module SegmentNames {
  const NAME_LIMIT := 14

  function Pow10(w: nat): nat {
    if w == 0 then 1 else 10 * Pow10(w - 1)
  }

  function Digit(d: nat): char
    requires d < 10
  {
    "0123456789"[d]
  }

  function Decimal(k: nat): string {
    if k < 10 then [Digit(k)] else Decimal(k / 10) + [Digit(k % 10)]
  }

  function Cut(s: string, limit: nat): string {
    if |s| <= limit then s else s[..limit]
  }

  function SegmentName(id: string, k: nat): string {
    Cut(id + "_" + Decimal(k), NAME_LIMIT)
  }

  // The name is the first 14 characters, or all if there are fewer.
  lemma NameIsCut(id: string, k: nat)
    ensures SegmentName(id, k) <= id + "_" + Decimal(k)
    ensures var full := |id| + 1 + |Decimal(k)|; |SegmentName(id, k)| == if full < 14 then full else 14
  {
  }

  // How many numbers can follow the id without being cut.
  function Limit(id: string): nat
    requires |id| <= 10
  {
    Pow10(NAME_LIMIT - 1 - |id|)
  }

  lemma {:induction false} DecimalIsInjective(a: nat, b: nat)
    requires Decimal(a) == Decimal(b)
    ensures a == b
  {
    if a < 10 && b < 10 {
    } else if a >= 10 && b >= 10 {
      var da, db := Decimal(a / 10), Decimal(b / 10);
      assert Decimal(a)[..|Decimal(a)| - 1] == da && Decimal(b)[..|Decimal(b)| - 1] == db;
      assert Decimal(a)[|Decimal(a)| - 1] == Digit(a % 10) && Decimal(b)[|Decimal(b)| - 1] == Digit(b % 10);
      DecimalIsInjective(a / 10, b / 10);
    } else {
      DecimalIsNotEmpty(a / 10);
      DecimalIsNotEmpty(b / 10);
    }
  }

  lemma {:induction false} DecimalIsNotEmpty(k: nat)
    ensures |Decimal(k)| >= 1
  {
    if k >= 10 { DecimalIsNotEmpty(k / 10); }
  }

  // A number has at most w digits exactly when it is below 10^w.
  lemma {:induction false} DecimalLength(k: nat, w: nat)
    requires w >= 1
    ensures |Decimal(k)| <= w <==> k < Pow10(w)
  {
    if w == 1 {
      if k >= 10 { DecimalIsNotEmpty(k / 10); }
      assert Pow10(1) == 10 * Pow10(0);
    } else if k < 10 {
      PowIsPositive(w - 1);
    } else {
      DecimalLength(k / 10, w - 1);
      assert k / 10 < Pow10(w - 1) <==> k < 10 * Pow10(w - 1);
    }
  }

  lemma {:induction false} PowIsPositive(w: nat)
    ensures Pow10(w) >= 1
  {
    if w > 0 { PowIsPositive(w - 1); }
  }

  function Zeros(n: nat): string {
    if n == 0 then "" else Zeros(n - 1) + "0"
  }

  lemma {:induction false} DecimalOfPow(w: nat)
    ensures Decimal(Pow10(w)) == "1" + Zeros(w)
    ensures |Zeros(w)| == w
  {
    if w > 0 {
      DecimalOfPow(w - 1);
      PowIsPositive(w - 1);
      DecimalTimesTen(Pow10(w - 1));
      hide Decimal, Digit;
    }
  }

  lemma DecimalTimesTen(n: nat)
    requires n >= 1
    ensures Decimal(10 * n) == Decimal(n) + "0"
  {
  }

  lemma SmallNumbersAreNotCut(id: string, k: nat)
    requires |id| <= 10 && k < Limit(id)
    ensures SegmentName(id, k) == id + "_" + Decimal(k)
  {
    DecimalLength(k, NAME_LIMIT - 1 - |id|);
  }

  lemma NamesOfOneColumn(id: string, i: nat, j: nat)
    requires |id| <= 10 && i < Limit(id) && j < Limit(id)
    ensures SegmentName(id, i) == SegmentName(id, j) <==> i == j
  {
    SmallNumbersAreNotCut(id, i);
    SmallNumbersAreNotCut(id, j);
    if SegmentName(id, i) == SegmentName(id, j) {
      var p := id + "_";
      assert (p + Decimal(i))[|p|..] == Decimal(i) && (p + Decimal(j))[|p|..] == Decimal(j);
      DecimalIsInjective(i, j);
    }
  }

  // The first number that does not fit loses its last digit.
  lemma FirstCutNameCollides(id: string)
    requires |id| <= 10
    ensures var w := NAME_LIMIT - 1 - |id|;
      Pow10(w - 1) < Limit(id) && SegmentName(id, Pow10(w)) == SegmentName(id, Pow10(w - 1))
  {
    var w := NAME_LIMIT - 1 - |id|;
    PowIsPositive(w - 1);
    DecimalOfPow(w);
    DecimalOfPow(w - 1);
    assert Zeros(w) == Zeros(w - 1) + "0";
    assert Pow10(w - 1) < Pow10(w);
    hide Zeros, Pow10, Decimal, Digit, Cut;
    SmallNumbersAreNotCut(id, Pow10(w - 1));
    var kept := id + "_" + ("1" + Zeros(w - 1));
    ZeroAtTheEnd(id, Zeros(w - 1));
    LastCharacterIsCut(kept, "0");
  }

  lemma ZeroAtTheEnd(id: string, zeros: string)
    ensures id + "_" + ("1" + (zeros + "0")) == id + "_" + ("1" + zeros) + "0"
  {
  }

  lemma LastCharacterIsCut(s: string, c: string)
    requires |s| == NAME_LIMIT
    ensures Cut(s + c, NAME_LIMIT) == s
  {
  }

  predicate DistinctNames(id: string, n: nat) {
    forall i: nat, j: nat | i < j < n :: SegmentName(id, i) != SegmentName(id, j)
  }

  // The segments of a column have distinct names exactly up to 10^(13-|id|)
  // segments: a thousand for the usual id of ten letters.
  lemma NamesAreDistinctExactly(id: string, n: nat)
    requires |id| <= 10
    ensures DistinctNames(id, n) <==> n <= Limit(id)
  {
    if n <= Limit(id) {
      forall i: nat, j: nat | i < j < n ensures SegmentName(id, i) != SegmentName(id, j) {
        NamesOfOneColumn(id, i, j);
      }
    } else {
      FirstCutNameCollides(id);
      var w := NAME_LIMIT - 1 - |id|;
      assert SegmentName(id, Pow10(w - 1)) == SegmentName(id, Pow10(w));
    }
  }

  predicate PlainId(id: string) {
    |id| <= 10 && '_' !in id
  }

  // Columns with different ids never share a segment name.
  lemma NamesOfTwoColumns(a: string, i: nat, b: string, j: nat)
    requires PlainId(a) && PlainId(b) && a != b
    ensures SegmentName(a, i) != SegmentName(b, j)
  {
    var x, y := SegmentName(a, i), SegmentName(b, j);
    assert x[..|a|] == a && x[|a|] == '_';
    assert y[..|b|] == b && y[|b|] == '_';
    assert forall k | 0 <= k < |a| :: x[k] == a[k] && a[k] != '_';
    assert forall k | 0 <= k < |b| :: y[k] == b[k] && b[k] != '_';
    assert |a| == |b| ==> x[..|a|] != y[..|a|];
  }

  // No segment name is the empty name of a column's first cache key.
  lemma NamesAreNotEmpty(id: string, k: nat)
    requires PlainId(id)
    ensures SegmentName(id, k) != ""
  {
  }
}
