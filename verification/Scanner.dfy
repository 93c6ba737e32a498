// Fields of a line: what the quoting scanner finds, and slices of a line that
// are trimmed and read as integers.

module Scanner {
  import opened Ints
  import opened SegmentNames

  // --------------------------------------------------------------- the scanner

  // Outside a field, or inside one that has the given text so far.
  datatype State = Outside | Inside(text: string, quoted: bool)

  function FieldsFrom(s: string, st: State): seq<string> {
    if s == "" then []
    else match st
      case Outside => FieldsFrom(s[1..], if s[0] == '<' then Inside("", false) else Outside)
      case Inside(text, quoted) =>
        if s[0] == '>' && !quoted then [text] + FieldsFrom(s[1..], Outside)
        else FieldsFrom(s[1..], Inside(text + [s[0]], if s[0] == '"' then !quoted else quoted))
  }

  function FieldsOf(line: string): seq<string> {
    FieldsFrom(line, Outside)
  }

  // Where the first NUL of a line is, or its end.
  function StrLen(line: string): (n: nat)
    ensures n <= |line| && '\0' !in line[..n] && (n < |line| ==> line[n] == '\0')
  {
    if line == "" || line[0] == '\0' then 0
    else
      assert line[..1 + StrLen(line[1..])] == [line[0]] + line[1..][..StrLen(line[1..])];
      1 + StrLen(line[1..])
  }

  // What a scan sees of a line: the chars before the first NUL.
  function CString(line: string): (s: string)
    ensures s <= line && '\0' !in s && (|s| < |line| ==> line[|s|] == '\0')
  {
    line[..StrLen(line)]
  }

  // A text that can stand in a field: its quotes are balanced and each '>' is
  // between quotes.
  predicate Balanced(f: string, quoted: bool) {
    if f == "" then !quoted
    else if f[0] == '"' then Balanced(f[1..], !quoted)
    else (f[0] == '>' ==> quoted) && Balanced(f[1..], quoted)
  }

  // Fields with any text between them that opens no field.
  datatype Printed = Printed(gap: string, field: string)

  predicate Printable(p: Printed) {
    '<' !in p.gap && Balanced(p.field, false)
  }

  function Print(ps: seq<Printed>): string {
    if ps == [] then "" else ps[0].gap + "<" + ps[0].field + ">" + Print(ps[1..])
  }

  function FieldsPrinted(ps: seq<Printed>): seq<string> {
    if ps == [] then [] else [ps[0].field] + FieldsPrinted(ps[1..])
  }

  // What may follow the last field: nothing that completes another one.
  predicate Unfinished(tail: string) {
    FieldsOf(tail) == []
  }

  lemma {:induction false} GapIsSkipped(gap: string, rest: string)
    requires '<' !in gap
    ensures FieldsFrom(gap + rest, Outside) == FieldsFrom(rest, Outside)
  {
    if gap == "" {
      assert gap + rest == rest;
    } else {
      assert (gap + rest)[1..] == gap[1..] + rest;
      assert gap[0] in gap;
      GapIsSkipped(gap[1..], rest);
    }
  }

  lemma {:induction false} FieldIsTaken(text: string, f: string, quoted: bool, rest: string)
    requires Balanced(f, quoted)
    ensures FieldsFrom(f + ">" + rest, Inside(text, quoted)) == [text + f] + FieldsFrom(rest, Outside)
    decreases |f|
  {
    var s := f + ">" + rest;
    if f == "" {
      assert s[1..] == rest && text + f == text;
    } else {
      assert s[0] == f[0] && s[1..] == f[1..] + ">" + rest;
      FieldIsTaken(text + [f[0]], f[1..], if f[0] == '"' then !quoted else quoted, rest);
      assert text + [f[0]] + f[1..] == text + f;
    }
  }

  lemma OneIsTaken(p: Printed, rest: string)
    requires Printable(p)
    ensures FieldsOf(p.gap + "<" + p.field + ">" + rest) == [p.field] + FieldsOf(rest)
  {
    var body := p.field + ">" + rest;
    BracketOpens(body);
    hide FieldsFrom, Balanced;
    assert p.gap + "<" + p.field + ">" + rest == p.gap + ("<" + body);
    GapIsSkipped(p.gap, "<" + body);
    FieldIsTaken("", p.field, false, rest);
    assert "" + p.field == p.field;
  }

  lemma BracketOpens(body: string)
    ensures FieldsFrom("<" + body, Outside) == FieldsFrom(body, Inside("", false))
  {
    assert ("<" + body)[1..] == body;
  }

  // Scanning undoes printing.
  lemma {:induction false} ScanUndoesPrint(ps: seq<Printed>, tail: string)
    requires (forall i | 0 <= i < |ps| :: Printable(ps[i])) && Unfinished(tail)
    ensures FieldsOf(Print(ps) + tail) == FieldsPrinted(ps)
  {
    hide FieldsOf, Printable;
    if ps == [] {
      assert Print(ps) + tail == tail;
    } else {
      var p, rest := ps[0], Print(ps[1..]) + tail;
      ScanUndoesPrint(ps[1..], tail);
      OneIsTaken(p, rest);
      assert Print(ps) + tail == p.gap + "<" + p.field + ">" + rest;
    }
  }

  function GapEnd(s: string): (k: nat)
    ensures k <= |s| && '<' !in s[..k] && (k < |s| ==> s[k] == '<')
  {
    if s == "" || s[0] == '<' then 0
    else
      assert s[..1 + GapEnd(s[1..])] == [s[0]] + s[1..][..GapEnd(s[1..])];
      1 + GapEnd(s[1..])
  }

  function Close(s: string, quoted: bool): (k: nat)
    ensures k <= |s|
  {
    if s == "" || (s[0] == '>' && !quoted) then 0
    else 1 + Close(s[1..], if s[0] == '"' then !quoted else quoted)
  }

  lemma {:induction false} CloseIsRight(s: string, text: string, quoted: bool)
    ensures Close(s, quoted) < |s| ==> s[Close(s, quoted)] == '>' && Balanced(s[..Close(s, quoted)], quoted)
    ensures Close(s, quoted) == |s| ==> FieldsFrom(s, Inside(text, quoted)) == []
  {
    if s != "" && !(s[0] == '>' && !quoted) {
      var q := if s[0] == '"' then !quoted else quoted;
      CloseIsRight(s[1..], text + [s[0]], q);
      assert s[..Close(s, quoted)] == [s[0]] + s[1..][..Close(s[1..], q)];
    }
  }

  function Quotes(s: string): nat {
    multiset(s)['"']
  }

  // If s[i] is a '>' there is an odd number of quotes before it, open of them
  // before s.
  predicate QuotedAt(s: string, i: nat, open: nat)
    requires i < |s|
  {
    s[i] == '>' ==> (open + Quotes(s[..i])) % 2 == 1
  }

  predicate AllQuoted(s: string, open: nat) {
    forall i: nat | i < |s| :: QuotedAt(s, i, open)
  }

  lemma QuotesNext(c: char, rest: string)
    ensures Quotes([c] + rest) == (if c == '"' then 1 else 0) + Quotes(rest)
  {
  }

  lemma QuotedAtNext(s: string, i: nat, open: nat)
    requires i + 1 < |s|
    ensures QuotedAt(s, i + 1, open) <==> QuotedAt(s[1..], i, open + if s[0] == '"' then 1 else 0)
  {
    assert s[..i + 1] == [s[0]] + s[1..][..i];
    QuotesNext(s[0], s[1..][..i]);
    hide Quotes;
  }

  lemma AllQuotedNext(s: string, open: nat)
    requires s != ""
    ensures var more := open + if s[0] == '"' then 1 else 0;
      && (AllQuoted(s, open) <==> (s[0] == '>' ==> open % 2 == 1) && AllQuoted(s[1..], more))
      && open + Quotes(s) == more + Quotes(s[1..])
  {
    var rest, more := s[1..], open + if s[0] == '"' then 1 else 0;
    assert s == [s[0]] + rest;
    QuotesNext(s[0], rest);
    assert s[..0] == "" && Quotes("") == 0;
    assert QuotedAt(s, 0, open) <==> (s[0] == '>' ==> open % 2 == 1);
    hide Quotes, QuotedAt;
    forall i: nat | i < |rest| ensures QuotedAt(s, i + 1, open) <==> QuotedAt(rest, i, more) {
      QuotedAtNext(s, i, open);
    }
    if (s[0] == '>' ==> open % 2 == 1) && AllQuoted(rest, more) {
      forall i: nat | i < |s| ensures QuotedAt(s, i, open) {
        if i > 0 { assert QuotedAt(rest, i - 1, more); }
      }
    }
  }

  lemma {:induction false} BalancedByCount(f: string, open: nat)
    ensures Balanced(f, open % 2 == 1) <==> (open + Quotes(f)) % 2 == 0 && AllQuoted(f, open)
  {
    if f == "" {
      assert Quotes(f) == 0;
    } else {
      AllQuotedNext(f, open);
      BalancedByCount(f[1..], open + if f[0] == '"' then 1 else 0);
      hide Quotes, AllQuoted;
    }
  }

  // A field can be printed exactly if it has an even number of quotes, and an
  // odd number before each '>'.
  lemma BalancedExactly(f: string)
    ensures Balanced(f, false) <==>
      Quotes(f) % 2 == 0 && forall i | 0 <= i < |f| && f[i] == '>' :: Quotes(f[..i]) % 2 == 1
  {
    hide Quotes, Balanced;
    BalancedByCount(f, 0);
    assert AllQuoted(f, 0) <==> forall i: nat | i < |f| :: QuotedAt(f, i, 0);
    assert forall i: nat | i < |f| :: QuotedAt(f, i, 0) <==> (f[i] == '>' ==> Quotes(f[..i]) % 2 == 1);
  }

  lemma {:induction false} StaysOpen(body: string, text: string, open: nat)
    ensures FieldsFrom(body, Inside(text, open % 2 == 1)) == [] <==> AllQuoted(body, open)
  {
    if body != "" {
      AllQuotedNext(body, open);
      if !(body[0] == '>' && open % 2 == 0) {
        StaysOpen(body[1..], text + [body[0]], open + if body[0] == '"' then 1 else 0);
      }
      hide Quotes, AllQuoted;
    }
  }

  // A line completes no field exactly if each '>' behind its first '<' has an
  // odd number of quotes between the two.
  lemma UnfinishedExactly(s: string, k: nat)
    requires k <= |s| && '<' !in s[..k] && (k < |s| ==> s[k] == '<')
    ensures Unfinished(s) <==> forall j | k < j < |s| && s[j] == '>' :: Quotes(s[k + 1..j]) % 2 == 1
  {
    hide Quotes, QuotedAt;
    assert s == s[..k] + s[k..];
    GapIsSkipped(s[..k], s[k..]);
    if k < |s| {
      var body := s[k + 1..];
      assert s[k..][1..] == body;
      StaysOpen(body, "", 0);
      hide FieldsFrom;
      forall j | k < j < |s| ensures QuotedAt(body, j - k - 1, 0) <==> (s[j] == '>' ==> Quotes(s[k + 1..j]) % 2 == 1) {
        QuotedBehind(s, k, j);
      }
      forall i: nat | i < |body| ensures QuotedAt(body, i, 0) <==> BehindIsQuoted(s, k, k + 1 + i) {
        QuotedBehind(s, k, k + 1 + i);
      }
    }
  }

  predicate BehindIsQuoted(s: string, k: nat, j: nat)
    requires k < j < |s|
  {
    s[j] == '>' ==> Quotes(s[k + 1..j]) % 2 == 1
  }

  lemma QuotedBehind(s: string, k: nat, j: nat)
    requires k < j < |s|
    ensures QuotedAt(s[k + 1..], j - k - 1, 0) <==> BehindIsQuoted(s, k, j)
  {
    assert s[k + 1..][..j - k - 1] == s[k + 1..j];
    hide Quotes;
  }

  // A line completes no field, or it is a printed field and a rest.
  lemma NothingOrAField(s: string) returns (p: Printed, rest: string)
    ensures Unfinished(s) || (s == p.gap + "<" + p.field + ">" + rest && Printable(p))
    ensures Unfinished(s) || |rest| < |s|
  {
    var k := GapEnd(s);
    p, rest := Printed(s[..k], ""), "";
    assert s == s[..k] + s[k..];
    GapIsSkipped(s[..k], s[k..]);
    if k < |s| {
      var body := s[k + 1..];
      assert s[k..][1..] == body;
      CloseIsRight(body, "", false);
      hide Close, GapEnd, Balanced;
      var c := Close(body, false);
      if c < |body| {
        p, rest := Printed(s[..k], body[..c]), body[c + 1..];
        Reassembled(s, k, c);
      }
    }
  }

  lemma Reassembled(s: string, k: nat, c: nat)
    requires k < |s| && s[k] == '<' && c < |s[k + 1..]| && s[k + 1..][c] == '>'
    ensures s == s[..k] + "<" + s[k + 1..][..c] + ">" + s[k + 1..][c + 1..]
  {
  }

  // Every line is a print of its fields, so ScanUndoesPrint is about all lines.
  lemma {:induction false} EveryLineIsAPrint(s: string) returns (ps: seq<Printed>, tail: string)
    ensures s == Print(ps) + tail && Unfinished(tail)
    ensures forall i | 0 <= i < |ps| :: Printable(ps[i])
    decreases |s|
  {
    hide Unfinished, Printable;
    var p, rest := NothingOrAField(s);
    if Unfinished(s) {
      ps, tail := [], s;
    } else {
      var more, end := EveryLineIsAPrint(rest);
      ps, tail := [p] + more, end;
      assert ps[1..] == more;
    }
  }

  // ------------------------------------------------------------------- slices

  function TrimmedStart(s: string, c: char): string {
    if s != "" && s[0] == c then TrimmedStart(s[1..], c) else s
  }

  function TrimmedEnd(s: string, c: char): string {
    if s != "" && s[|s| - 1] == c then TrimmedEnd(s[..|s| - 1], c) else s
  }

  function Trimmed(s: string, c: char): string {
    TrimmedEnd(TrimmedStart(s, c), c)
  }

  predicate AllAre(s: string, c: char) {
    forall i | 0 <= i < |s| :: s[i] == c
  }

  lemma {:induction false} StartIsCut(s: string, c: char) returns (i: nat)
    ensures i <= |s| && TrimmedStart(s, c) == s[i..] && AllAre(s[..i], c) && (i < |s| ==> s[i] != c)
  {
    i := 0;
    if s != "" && s[0] == c {
      var k := StartIsCut(s[1..], c);
      i := k + 1;
      assert s[..i] == [c] + s[1..][..k];
    }
  }

  lemma {:induction false} EndIsCut(s: string, c: char) returns (j: nat)
    ensures j <= |s| && TrimmedEnd(s, c) == s[..j] && AllAre(s[j..], c) && (j > 0 ==> s[j - 1] != c)
  {
    j := |s|;
    if s != "" && s[|s| - 1] == c {
      var init := s[..|s| - 1];
      j := EndIsCut(init, c);
      assert s[..j] == init[..j] && s[j..] == init[j..] + [c];
    }
  }

  // Trimming cuts only the character, and cuts it completely from both ends.
  lemma TrimmedIsTheCore(s: string, c: char) returns (i: nat, j: nat)
    ensures i <= j <= |s| && Trimmed(s, c) == s[i..j]
    ensures forall k | 0 <= k < i || j <= k < |s| :: s[k] == c
    ensures i < j ==> s[i] != c && s[j - 1] != c
  {
    i := StartIsCut(s, c);
    var rest := s[i..];
    var k := EndIsCut(rest, c);
    j := i + k;
    assert rest[..k] == s[i..j] && rest[k..] == s[j..];
    forall x | 0 <= x < i ensures s[x] == c { assert s[..i][x] == s[x]; }
    forall x | j <= x < |s| ensures s[x] == c { assert rest[k..][x - j] == s[x]; }
  }

  predicate IsDigit(c: char) {
    '0' <= c <= '9'
  }

  function DigitPrefix(s: string): (k: nat)
    ensures k <= |s| && (forall i | 0 <= i < k :: IsDigit(s[i])) && (k < |s| ==> !IsDigit(s[k]))
  {
    if s == "" || !IsDigit(s[0]) then 0 else 1 + DigitPrefix(s[1..])
  }

  function DigitValue(c: char): int
    requires IsDigit(c)
  {
    c as int - '0' as int
  }

  function ValueOf(digits: string): int
    requires forall i | 0 <= i < |digits| :: IsDigit(digits[i])
  {
    if digits == "" then 0 else ValueOf(digits[..|digits| - 1]) * 10 + DigitValue(digits[|digits| - 1])
  }

  function Unsigned(s: string): int {
    ValueOf(s[..DigitPrefix(s)])
  }

  // The number in front of s: a sign, digits, and anything after them.
  function IntOf(s: string): int32 {
    if s != "" && s[0] == '-' then ToInt32(0 - Unsigned(s[1..]))
    else if s != "" && s[0] == '+' then ToInt32(Unsigned(s[1..]))
    else ToInt32(Unsigned(s))
  }

  lemma {:induction false} PrefixIs(s: string, k: nat)
    requires k <= |s| && (forall i | 0 <= i < k :: IsDigit(s[i])) && (k < |s| ==> !IsDigit(s[k]))
    ensures DigitPrefix(s) == k
  {
  }

  // The digits in front of a text, in a long that may overflow at any step.
  method ReadDigits(str: string, first: nat, end: nat) returns (result: int)
    requires first <= end <= |str|
    ensures result == ToInt64(Unsigned(str[first..end]))
  {
    result := 0;
    var i := first;
    ZeroFits();
    hide ToInt64, ValueOf, DigitValue, DigitPrefix;
    while i < end && IsDigit(str[i])
      invariant first <= i <= end && forall k | first <= k < i :: IsDigit(str[k])
      invariant result == ToInt64(ValueOf(str[first..i]))
    {
      OneMoreDigit(str, first, i);
      result := ToInt64(result * 10 + DigitValue(str[i]));
      i := i + 1;
    }
    ghost var digits := str[first..end];
    PrefixIs(digits, i - first);
    assert digits[..i - first] == str[first..i];
  }

  lemma OneMoreDigit(str: string, first: nat, i: nat)
    requires first <= i < |str| && forall k | first <= k <= i :: IsDigit(str[k])
    ensures ToInt64(ValueOf(str[first..i + 1])) == ToInt64(ToInt64(ValueOf(str[first..i])) * 10 + DigitValue(str[i]))
  {
    var more := str[first..i + 1];
    assert more[..|more| - 1] == str[first..i];
    hide ToInt64, DigitValue;
    AccumulatorWraps(ValueOf(str[first..i]), DigitValue(str[i]));
  }

  lemma ZeroFits()
    ensures ToInt64(ValueOf("")) == 0 && forall str: string, i: nat | i <= |str| :: str[i..i] == ""
  {
  }

  class StrSlice {
    const str: string
    var start: nat
    var end: nat

    ghost predicate Valid()
      reads this
    {
      start <= end <= |str|
    }

    function Text(): string
      requires Valid()
      reads this
    {
      str[start..end]
    }

    constructor (str: string, start: nat, end: nat)
      requires start <= end <= |str|
      ensures Valid() && this.str == str && Text() == str[start..end]
    {
      this.str := str;
      this.start := start;
      this.end := end;
    }

    method Trim(c: char)
      requires Valid()
      modifies this
      ensures Valid() && Text() == Trimmed(old(Text()), c)
    {
      ghost var whole := Text();
      while start < end && str[start] == c
        invariant Valid() && end == old(end)
        invariant TrimmedStart(Text(), c) == TrimmedStart(whole, c)
      {
        assert Text()[1..] == str[start + 1..end];
        start := start + 1;
      }
      assert Text() == TrimmedStart(whole, c);
      while start < end && str[end - 1] == c
        invariant Valid() && TrimmedEnd(Text(), c) == Trimmed(whole, c)
      {
        assert Text()[..|Text()| - 1] == str[start..end - 1];
        end := end - 1;
      }
    }

    method ToInt() returns (r: int)
      requires Valid()
      ensures r == IntOf(Text())
    {
      hide ToInt32, ToInt64, Unsigned;
      var negative, first := false, start;
      if start < end && (str[start] == '-' || str[start] == '+') {
        negative := str[start] == '-';
        first := start + 1;
        assert Text()[1..] == str[first..end];
      }
      var result := ReadDigits(str, first, end);
      ghost var whole := Unsigned(str[first..end]);
      LongIsCut(whole);
      r := ToInt32(if negative then ToInt64(0 - result) else result);
    }
  }

  // Overflow of the long does not show in the int, negated or not.
  lemma LongIsCut(x: int)
    ensures ToInt32(ToInt64(x)) == ToInt32(x)
    ensures ToInt32(ToInt64(0 - ToInt64(x))) == ToInt32(0 - x)
  {
    hide ToInt32, ToInt64;
    IntOfLong(x);
    IntOfLong(0 - ToInt64(x));
  }

  lemma DigitIsRead(d: nat)
    requires d < 10
    ensures IsDigit(Digit(d)) && DigitValue(Digit(d)) == d
  {
  }

  lemma {:induction false} ValueOfDecimal(n: nat)
    ensures forall i | 0 <= i < |Decimal(n)| :: IsDigit(Decimal(n)[i])
    ensures ValueOf(Decimal(n)) == n
  {
    DigitIsRead(n % 10);
    hide Digit, IsDigit, DigitValue;
    if n < 10 {
      assert Decimal(n)[..0] == "";
    } else {
      ValueOfDecimal(n / 10);
      assert Decimal(n)[..|Decimal(n)| - 1] == Decimal(n / 10);
    }
  }

  lemma UnsignedOfDecimal(n: nat, tail: string)
    requires tail == "" || !IsDigit(tail[0])
    ensures Unsigned(Decimal(n) + tail) == n
  {
    ValueOfDecimal(n);
    hide Decimal, ValueOf, DigitPrefix;
    PrefixIs(Decimal(n) + tail, |Decimal(n)|);
    assert (Decimal(n) + tail)[..|Decimal(n)|] == Decimal(n);
  }

  // Decimal numbers are read back, with or without a sign, as far as a 32-bit
  // int goes; what follows a number is ignored.
  lemma DecimalsAreReadBack(n: nat, tail: string)
    requires tail == "" || !IsDigit(tail[0])
    ensures IntOf(Decimal(n) + tail) == IntOf("+" + (Decimal(n) + tail)) == ToInt32(n)
    ensures IntOf("-" + (Decimal(n) + tail)) == ToInt32(0 - n)
  {
    var s := Decimal(n) + tail;
    UnsignedOfDecimal(n, tail);
    DecimalIsNotEmpty(n);
    ValueOfDecimal(n);
    assert IsDigit(s[0]);
    hide ToInt32, Decimal, Unsigned, ValueOf;
    SignedNumbers(s);
  }

  predicate IsSign(s: string) {
    s == "" || s == "+" || s == "-"
  }

  // Does not go on with a digit.
  predicate NoDigitNext(tail: string) {
    tail == "" || !('0' <= tail[0] <= '9')
  }

  predicate NoSignNext(tail: string) {
    tail == "" || (tail[0] != '+' && tail[0] != '-')
  }

  // A text without a digit in front, after at most one sign, gives 0.
  lemma NoNumberIsZero(sign: string, tail: string)
    requires IsSign(sign) && NoDigitNext(tail) && (sign == "" ==> NoSignNext(tail))
    ensures IntOf(sign + tail) == 0
  {
    assert "" + tail == tail && sign + "" + tail == sign + tail;
    hide IntOf, IsSign, NoSignNext;
    DigitsInFront(sign, "", tail);
  }

  // Each further digit of a number counts once and what is before it tenfold,
  // as far as a 32-bit int goes; leading zeros are digits like others.
  lemma NextDigitCounts(sign: string, digits: string, c: char, tail: string)
    requires IsSign(sign) && '0' <= c <= '9' && (forall i | 0 <= i < |digits| :: '0' <= digits[i] <= '9')
    requires NoDigitNext(tail)
    ensures var before, after := IntOf(sign + digits), IntOf(sign + digits + [c] + tail);
      var d := c as int - '0' as int;
      (after - (before * 10 + if sign == "-" then 0 - d else d)) % 0x1_0000_0000 == 0
  {
    hide IntOf, IsSign, NoSignNext;
    var more := digits + [c];
    assert more[..|digits|] == digits && sign + more + tail == sign + digits + [c] + tail;
    assert ValueOf(more) == ValueOf(digits) * 10 + DigitValue(c);
    NumbersInFront(sign, digits, more, tail);
    hide ValueOf, ToInt32;
    var before, after := IntOf(sign + digits), IntOf(sign + digits + [c] + tail);
    var v, d := ValueOf(digits), DigitValue(c);
    if sign == "-" {
      assert (0 - v) * 10 + (0 - d) == 0 - (v * 10 + d);
      TenfoldIsCongruent(0 - v, 0 - d, before, after);
    } else {
      TenfoldIsCongruent(v, d, before, after);
    }
  }

  lemma NumbersInFront(sign: string, digits: string, more: string, tail: string)
    requires IsSign(sign) && (forall i | 0 <= i < |digits| :: IsDigit(digits[i]))
    requires |more| > 0 && (forall i | 0 <= i < |more| :: IsDigit(more[i])) && NoDigitNext(tail)
    ensures IntOf(sign + digits) == ToInt32(if sign == "-" then 0 - ValueOf(digits) else ValueOf(digits))
    ensures IntOf(sign + more + tail) == ToInt32(if sign == "-" then 0 - ValueOf(more) else ValueOf(more))
  {
    hide IntOf, IsSign, ValueOf, ToInt32, IsDigit;
    DigitsInFront(sign, digits, "");
    DigitsInFront(sign, more, tail);
    assert sign + digits + "" == sign + digits;
  }

  lemma TenfoldIsCongruent(v: int, d: int, before: int, after: int)
    requires before == ToInt32(v) && after == ToInt32(v * 10 + d)
    ensures (after - (before * 10 + d)) % 0x1_0000_0000 == 0
  {
    hide ToInt32;
    var a := MultipleOfSpan(v - before);
    var b := MultipleOfSpan(v * 10 + d - after);
    SpansAreWhole(10 * a - b);
  }

  lemma MultipleOfSpan(x: int) returns (k: int)
    requires x % INT_SPAN == 0
    ensures x == k * 0x1_0000_0000
  {
    k := x / INT_SPAN;
  }

  lemma SpansAreWhole(k: int)
    ensures (k * 0x1_0000_0000) % 0x1_0000_0000 == 0
  {
  }

  lemma DigitsInFront(sign: string, digits: string, tail: string)
    requires IsSign(sign) && (forall i | 0 <= i < |digits| :: IsDigit(digits[i])) && NoDigitNext(tail)
    requires sign == "" && digits == "" ==> NoSignNext(tail)
    ensures IntOf(sign + digits + tail) == ToInt32(if sign == "-" then 0 - ValueOf(digits) else ValueOf(digits))
  {
    var s := digits + tail;
    hide IntOf, ValueOf, DigitPrefix, IsSign, ToInt32;
    UnsignedInFront(digits, tail);
    assert sign + digits + tail == sign + s;
    if sign == "" { NoSignInFront(digits, tail); }
    hide IsDigit, NoSignNext;
    SignInFront(sign, s);
  }

  lemma UnsignedInFront(digits: string, tail: string)
    requires (forall i | 0 <= i < |digits| :: IsDigit(digits[i])) && NoDigitNext(tail)
    ensures Unsigned(digits + tail) == ValueOf(digits)
  {
    hide ValueOf;
    PrefixIs(digits + tail, |digits|);
    assert (digits + tail)[..|digits|] == digits;
  }

  lemma SignInFront(sign: string, s: string)
    requires IsSign(sign) && (sign == "" ==> NoSignNext(s))
    ensures IntOf(sign + s) == ToInt32(if sign == "-" then 0 - Unsigned(s) else Unsigned(s))
  {
    hide ToInt32, Unsigned;
    if sign == "" { assert sign + s == s; } else { assert (sign + s)[1..] == s && (sign + s)[0] == sign[0]; }
  }

  lemma NoSignInFront(digits: string, tail: string)
    requires forall i | 0 <= i < |digits| :: IsDigit(digits[i])
    requires digits == "" ==> NoSignNext(tail)
    ensures NoSignNext(digits + tail)
  {
    if digits != "" { assert (digits + tail)[0] == digits[0]; } else { assert digits + tail == tail; }
  }

  // Every text is of this form.
  lemma EveryTextHasThatForm(s: string) returns (sign: string, digits: string, tail: string)
    ensures s == sign + digits + tail && IsSign(sign) && (forall i | 0 <= i < |digits| :: '0' <= digits[i] <= '9')
    ensures NoDigitNext(tail) && (sign == "" && digits == "" ==> NoSignNext(tail))
  {
    var n := if s != "" && (s[0] == '+' || s[0] == '-') then 1 else 0;
    sign := s[..n];
    assert n == 1 ==> s[..1] == [s[0]];
    var rest := s[n..];
    var k := DigitPrefix(rest);
    digits, tail := rest[..k], rest[k..];
    assert s == sign + digits + tail;
  }

  lemma SignedNumbers(s: string)
    requires s != "" && IsDigit(s[0])
    ensures IntOf(s) == IntOf("+" + s) == ToInt32(Unsigned(s)) && IntOf("-" + s) == ToInt32(0 - Unsigned(s))
  {
    hide ToInt32, Unsigned;
    assert ("+" + s)[1..] == s && ("-" + s)[1..] == s;
  }
}
