// Guessing the type of a column from its fields, and what the guess promises
// to the conversion of those fields.

module Guessing {
  import opened Ints
  import opened Scanner

  // The types a column can be guessed to have, in the order of the chain.
  datatype Guess = Unknown | Bool | Integer | Double | Text

  function Rank(g: Guess): nat {
    match g
    case Unknown => 0
    case Bool => 1
    case Integer => 2
    case Double => 3
    case Text => 4
  }

  function Join(a: Guess, b: Guess): Guess {
    if Rank(a) >= Rank(b) then a else b
  }

  predicate IsNumeric(c: char) {
    c == '-' || c == '+' || c == '.' || IsDigit(c)
  }

  predicate HasNumeric(s: string) {
    exists i :: 0 <= i < |s| && IsNumeric(s[i])
  }

  // What one field does to the guess of its column, branch by branch.
  function GuessStep(g: Guess, field: string): Guess {
    var s := Trimmed(field, ' ');
    if s == "" || g == Text then g
    else if HasNumeric(s) && '.' !in s then
      if (IntOf(s) == 0 || IntOf(s) == 1) && g != Integer && g != Double then Bool
      else if g != Double then Integer
      else g
    else if HasNumeric(s) && '.' in s then Double
    else Text
  }

  // The type that a field has by itself. One numeric character is enough to
  // count as a number.
  function ClassOf(field: string): Guess {
    var s := Trimmed(field, ' ');
    if s == "" then Unknown
    else if '.' in s then Double
    else if !HasNumeric(s) then Text
    else if IntOf(s) == 0 || IntOf(s) == 1 then Bool
    else Integer
  }

  lemma StepIsJoin(g: Guess, field: string)
    ensures GuessStep(g, field) == Join(g, ClassOf(field))
  {
    var s := Trimmed(field, ' ');
    hide Trimmed, IntOf;
    if '.' in s {
      var i :| 0 <= i < |s| && s[i] == '.';
      assert IsNumeric(s[i]);
    }
  }

  function GuessAll(g: Guess, fields: seq<string>): Guess {
    if fields == [] then g else GuessStep(GuessAll(g, fields[..|fields| - 1]), fields[|fields| - 1])
  }

  // The guess is the join of all classes: an upper bound that is reached.
  lemma {:induction false} GuessIsTheJoin(g: Guess, fields: seq<string>)
    ensures Rank(g) <= Rank(GuessAll(g, fields))
    ensures forall f | f in fields :: Rank(ClassOf(f)) <= Rank(GuessAll(g, fields))
    ensures GuessAll(g, fields) == g || exists f :: f in fields && ClassOf(f) == GuessAll(g, fields)
  {
    hide GuessStep, ClassOf;
    if fields != [] {
      var init, last := fields[..|fields| - 1], fields[|fields| - 1];
      GuessIsTheJoin(g, init);
      StepIsJoin(GuessAll(g, init), last);
      assert last in fields;
      assert fields == init + [last];
    }
  }

  // The guess depends only on which fields there are, not on their order.
  lemma OrderDoesNotMatter(a: seq<string>, b: seq<string>)
    requires forall f :: f in a <==> f in b
    ensures GuessAll(Unknown, a) == GuessAll(Unknown, b)
  {
    GuessIsTheJoin(Unknown, a);
    GuessIsTheJoin(Unknown, b);
    hide GuessAll, ClassOf;
  }

  // ------------------------------------------------------ guesses by characters

  lemma CharsOfNumbers(c: char)
    ensures IsNumeric(c) <==> c in "+-.0123456789"
  {
    if IsDigit(c) { assert c == "+-.0123456789"[3 + (c as int - '0' as int)]; }
  }

  // No char of a number is in the field.
  predicate NoNumber(field: string) {
    forall k | 0 <= k < |field| :: field[k] !in "+-.0123456789"
  }

  predicate IsBlank(field: string) {
    forall k | 0 <= k < |field| :: field[k] == ' '
  }

  lemma BlankIsTrimmedAway(field: string)
    ensures Trimmed(field, ' ') == "" <==> IsBlank(field)
    ensures forall c | c != ' ' :: c in Trimmed(field, ' ') <==> c in field
  {
    var i, j := TrimmedIsTheCore(field, ' ');
    hide Trimmed;
    var core := field[i..j];
    forall k | 0 <= k < |core| ensures core[k] == field[i + k] { }
    forall c | c != ' ' && c in field ensures c in core {
      var k :| 0 <= k < |field| && field[k] == c;
      assert i <= k < j && core[k - i] == c;
    }
  }

  // The class of a field by its characters: blank, some dot, none of the
  // characters of a number, or else by the number in front.
  lemma ClassByCharacters(field: string)
    ensures ClassOf(field) == Unknown <==> IsBlank(field)
    ensures ClassOf(field) == Double <==> '.' in field
    ensures ClassOf(field) == Text <==> !IsBlank(field) && NoNumber(field)
    ensures var n := IntOf(Trimmed(field, ' '));
      ClassOf(field) == Bool <==> '.' !in field && !NoNumber(field) && (n == 0 || n == 1)
  {
    BlankIsTrimmedAway(field);
    var s := Trimmed(field, ' ');
    hide Trimmed, IntOf;
    NumericByCharacters(s);
    SameNumbers(field, s);
    hide NoNumber, HasNumeric;
  }

  lemma SameNumbers(field: string, s: string)
    requires forall c | c != ' ' :: c in s <==> c in field
    ensures NoNumber(field) <==> NoNumber(s)
    ensures '.' in field ==> !NoNumber(field)
    ensures IsBlank(field) ==> NoNumber(field) && '.' !in field
  {
    if !NoNumber(field) {
      var k :| 0 <= k < |field| && field[k] in "+-.0123456789";
      assert field[k] in s;
      var i :| 0 <= i < |s| && s[i] == field[k];
    }
    if !NoNumber(s) {
      var k :| 0 <= k < |s| && s[k] in "+-.0123456789";
      assert s[k] in field;
      var i :| 0 <= i < |field| && field[i] == s[k];
    }
    if '.' in field {
      var i :| 0 <= i < |field| && field[i] == '.';
    }
  }

  lemma NumericByCharacters(s: string)
    ensures HasNumeric(s) <==> !NoNumber(s)
  {
    forall k | 0 <= k < |s| ensures IsNumeric(s[k]) <==> s[k] in "+-.0123456789" { CharsOfNumbers(s[k]); }
    hide IsNumeric;
  }

  // A column is guessed to be of strings if some field is not blank and has no
  // character of a number; else of doubles if some field has a dot; else of
  // ints if the number in front of some field is neither 0 nor 1; else of
  // bools, unless all fields are blank.
  lemma GuessByCharacters(fields: seq<string>)
    ensures var strings := exists f :: f in fields && !IsBlank(f) && NoNumber(f);
      var doubles := exists f :: f in fields && '.' in f;
      var ints := exists f :: f in fields && !IsBlank(f) && IntOf(Trimmed(f, ' ')) !in {0, 1};
      var some := exists f :: f in fields && !IsBlank(f);
      GuessAll(Unknown, fields) ==
        if strings then Text else if doubles then Double else if ints then Integer else if some then Bool else Unknown
  {
    GuessIsTheJoin(Unknown, fields);
    forall f | f in fields
      ensures ClassOf(f) == Text <==> !IsBlank(f) && NoNumber(f)
      ensures ClassOf(f) == Double <==> '.' in f
      ensures ClassOf(f) == Unknown <==> IsBlank(f)
      ensures ClassOf(f) == Integer ==> IntOf(Trimmed(f, ' ')) !in {0, 1}
      ensures ClassOf(f) == Bool ==> IntOf(Trimmed(f, ' ')) in {0, 1}
    {
      ClassByCharacters(f);
      ClassByNumber(f);
    }
    hide GuessAll, ClassOf, IntOf, Trimmed, IsBlank, NoNumber;
  }

  lemma ClassByNumber(field: string)
    ensures ClassOf(field) == Integer ==> IntOf(Trimmed(field, ' ')) !in {0, 1}
    ensures ClassOf(field) == Bool ==> IntOf(Trimmed(field, ' ')) in {0, 1}
  {
    hide IntOf, Trimmed;
  }

  // ---------------------------------------------------------------- conversion

  const MAX_STRING := 255

  // A parsed field; a double is kept as the text that is handed to atof.
  datatype Value = Str(s: string) | Int(i: int32) | Real(text: string) | Truth(b: bool)

  datatype Outcome = AssertionFails | Gives(value: Value)

  // What is appended to a column of the given type for a field.
  function Convert(g: Guess, field: string): Outcome {
    var s := Trimmed(field, ' ');
    if s == "" then AssertionFails
    else match g
      case Text =>
        var t := Trimmed(s, '"');
        if |t| <= MAX_STRING then Gives(Str(t)) else AssertionFails
      case Integer => Gives(Int(IntOf(s)))
      case Double => Gives(Real(s))
      case Bool => if IntOf(s) == 0 || IntOf(s) == 1 then Gives(Truth(IntOf(s) == 1)) else AssertionFails
      case Unknown => AssertionFails
  }

  // What a field becomes: only the blanks around it are cut, and in a string
  // column the quotes inside these; of blanks alone nothing is made.
  lemma ConvertExactly(g: Guess, f: string) returns (a: nat, b: nat, i: nat, j: nat)
    ensures a <= i <= j <= b <= |f|
    ensures forall k | 0 <= k < a || b <= k < |f| :: f[k] == ' '
    ensures a < b ==> f[a] != ' ' && f[b - 1] != ' '
    ensures forall k | a <= k < i || j <= k < b :: f[k] == '"'
    ensures i < j ==> f[i] != '"' && f[j - 1] != '"'
    ensures a == b ==> Convert(g, f) == AssertionFails
    ensures a < b && g == Text ==> Convert(g, f) == if j - i <= 255 then Gives(Str(f[i..j])) else AssertionFails
    ensures a < b && g == Integer ==> Convert(g, f) == Gives(Int(IntOf(f[a..b])))
    ensures a < b && g == Double ==> Convert(g, f) == Gives(Real(f[a..b]))
    ensures a < b && g == Bool && IntOf(f[a..b]) == 0 ==> Convert(g, f) == Gives(Truth(false))
    ensures a < b && g == Bool && IntOf(f[a..b]) == 1 ==> Convert(g, f) == Gives(Truth(true))
    ensures a < b && g == Bool && IntOf(f[a..b]) !in {0, 1} ==> Convert(g, f) == AssertionFails
    ensures g == Unknown ==> Convert(g, f) == AssertionFails
  {
    a, b := TrimmedIsTheCore(f, ' ');
    var core := f[a..b];
    var p, q := TrimmedIsTheCore(core, '"');
    i, j := a + p, a + q;
    assert core[p..q] == f[i..j];
    forall k | a <= k < b ensures f[k] == core[k - a] { }
    hide Trimmed, IntOf;
  }

  // A string without quotes, and without blanks at its ends, is itself.
  lemma PlainStringIsItself(f: string)
    requires 0 < |f| <= 255 && f[0] != ' ' && f[0] != '"' && f[|f| - 1] != ' ' && f[|f| - 1] != '"'
    ensures Convert(Text, f) == Gives(Str(f))
  {
    var a, b, i, j := ConvertExactly(Text, f);
    hide Convert;
    assert a == 0 && b == |f|;
    assert i == 0 && j == |f| && f[0..|f|] == f;
  }

  function Finished(g: Guess): Guess {
    if g == Unknown then Bool else g
  }

  // What is left to the file: fields that are not blank, and strings that are
  // not too long.
  predicate Acceptable(g: Guess, field: string) {
    var s := Trimmed(field, ' ');
    s != "" && (g == Text ==> |Trimmed(s, '"')| <= MAX_STRING)
  }

  // A field that took part in the guess is converted without a failure
  // exactly when it is acceptable; the bool assertion never fails.
  lemma GuessedFieldsConvert(fields: seq<string>, f: string)
    requires f in fields
    ensures var g := Finished(GuessAll(Unknown, fields)); Convert(g, f).Gives? <==> Acceptable(g, f)
  {
    GuessIsTheJoin(Unknown, fields);
    hide GuessAll, GuessStep, Trimmed, IntOf, HasNumeric;
  }

  // What a column of a type holds.
  predicate IsFor(g: Guess, v: Value) {
    match v
    case Str(s) => g == Text && |s| <= MAX_STRING
    case Int(_) => g == Integer
    case Real(_) => g == Double
    case Truth(_) => g == Bool
  }

  lemma ConvertedIsFor(g: Guess, field: string)
    requires Convert(g, field).Gives?
    ensures IsFor(g, Convert(g, field).value)
  {
    hide Trimmed, IntOf;
  }

  predicate Converts(g: Guess, fields: seq<string>) {
    forall i | 0 <= i < |fields| :: Convert(g, fields[i]).Gives?
  }

  function Converted(g: Guess, fields: seq<string>): seq<Value>
    requires Converts(g, fields)
  {
    seq(|fields|, i requires 0 <= i < |fields| => Convert(g, fields[i]).value)
  }
}
