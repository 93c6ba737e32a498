// The parser: two passes over the first lines guess the types of the columns,
// a third pass converts the whole file.

module Parser {
  import opened Scanner
  import opened Guessing
  import opened Lines

  const GUESS_SCHEMA_LINES := 500

  datatype Mode = DetectNumColumns | DetectSchema | Parse

  // The guesses and the columns; ok until an assertion fails.
  datatype Tables = Tables(guesses: seq<Guess>, columns: seq<seq<Value>>, ok: bool)

  // What field j of a line does in each mode.
  function TakeField(mode: Mode, t: Tables, j: nat, field: string): Tables {
    match mode
    case DetectNumColumns => t
    case DetectSchema =>
      if j < |t.guesses| then t.(guesses := t.guesses[j := GuessStep(t.guesses[j], field)]) else t.(ok := false)
    case Parse =>
      if j < |t.guesses| && j < |t.columns| && Convert(t.guesses[j], field).Gives?
      then t.(columns := t.columns[j := t.columns[j] + [Convert(t.guesses[j], field).value]])
      else t.(ok := false)
  }

  function TakeFields(mode: Mode, t: Tables, fields: seq<string>): Tables {
    if fields == [] then t
    else
      var before := TakeFields(mode, t, fields[..|fields| - 1]);
      if before.ok then TakeField(mode, before, |fields| - 1, fields[|fields| - 1]) else before
  }

  function TakeRows(mode: Mode, t: Tables, rows: seq<seq<string>>): Tables {
    if rows == [] then t
    else
      var before := TakeRows(mode, t, rows[..|rows| - 1]);
      if before.ok then TakeFields(mode, before, rows[|rows| - 1]) else before
  }

  // The fields of a line; the scan ends at the first NUL.
  function LineFields(line: string): seq<string> {
    FieldsOf(CString(line))
  }

  function RowsOf(lines: seq<string>): seq<seq<string>> {
    seq(|lines|, i requires 0 <= i < |lines| => LineFields(lines[i]))
  }

  function MostFields(rows: seq<seq<string>>): nat {
    if rows == [] then 0
    else
      var m := MostFields(rows[..|rows| - 1]);
      if |rows[|rows| - 1]| > m then |rows[|rows| - 1]| else m
  }

  // The fields of column j, line by line.
  function ColumnTexts(rows: seq<seq<string>>, j: nat): seq<string> {
    if rows == [] then []
    else ColumnTexts(rows[..|rows| - 1], j) + if j < |rows[|rows| - 1]| then [rows[|rows| - 1][j]] else []
  }

  // -------------------------------------------------------- guessing by columns

  predicate Within(rows: seq<seq<string>>, n: nat) {
    forall i | 0 <= i < |rows| :: |rows[i]| <= n
  }

  lemma {:induction false} MostFieldsIsTheMaximum(rows: seq<seq<string>>)
    ensures Within(rows, MostFields(rows))
    ensures rows != [] ==> exists i :: 0 <= i < |rows| && |rows[i]| == MostFields(rows)
  {
    if rows != [] {
      var init := rows[..|rows| - 1];
      MostFieldsIsTheMaximum(init);
      forall i | 0 <= i < |rows| ensures |rows[i]| <= MostFields(rows) {
        if i < |init| { assert rows[i] == init[i]; }
      }
      if |rows[|rows| - 1]| <= MostFields(init) && init != [] {
        var i :| 0 <= i < |init| && |init[i]| == MostFields(init);
        assert rows[i] == init[i];
      } else {
        assert |rows[|rows| - 1]| == MostFields(rows);
      }
    }
  }

  lemma {:induction false} FieldsAreGuessed(t: Tables, fields: seq<string>)
    requires t.ok && |fields| <= |t.guesses|
    ensures var u := TakeFields(DetectSchema, t, fields);
      && u.ok && u.columns == t.columns && |u.guesses| == |t.guesses|
      && forall j | 0 <= j < |t.guesses| ::
           u.guesses[j] == if j < |fields| then GuessStep(t.guesses[j], fields[j]) else t.guesses[j]
  {
    hide GuessStep;
    if fields != [] { FieldsAreGuessed(t, fields[..|fields| - 1]); }
  }

  lemma {:induction false} RowsAreGuessed(t: Tables, rows: seq<seq<string>>)
    requires t.ok && Within(rows, |t.guesses|)
    ensures var u := TakeRows(DetectSchema, t, rows);
      && u.ok && u.columns == t.columns && |u.guesses| == |t.guesses|
      && forall j | 0 <= j < |t.guesses| :: u.guesses[j] == GuessAll(t.guesses[j], ColumnTexts(rows, j))
  {
    hide GuessStep, TakeFields;
    if rows != [] {
      var init, last := rows[..|rows| - 1], rows[|rows| - 1];
      RowsAreGuessed(t, init);
      FieldsAreGuessed(TakeRows(DetectSchema, t, init), last);
      forall j | 0 <= j < |t.guesses|
        ensures var before := GuessAll(t.guesses[j], ColumnTexts(init, j));
          GuessAll(t.guesses[j], ColumnTexts(rows, j)) == if j < |last| then GuessStep(before, last[j]) else before
      {
        var texts := ColumnTexts(rows, j);
        if j < |last| {
          assert texts[..|texts| - 1] == ColumnTexts(init, j);
        } else {
          assert texts == ColumnTexts(init, j);
        }
      }
    }
  }

  // ------------------------------------------------------- converting by columns

  predicate LineConverts(guesses: seq<Guess>, fields: seq<string>) {
    |fields| <= |guesses| && forall j | 0 <= j < |fields| :: Convert(guesses[j], fields[j]).Gives?
  }

  lemma {:induction false} FieldsAreConverted(t: Tables, fields: seq<string>)
    requires t.ok && |t.columns| == |t.guesses|
    ensures var u := TakeFields(Parse, t, fields);
      && u.guesses == t.guesses && |u.columns| == |t.columns|
      && (u.ok <==> LineConverts(t.guesses, fields))
      && (u.ok ==> forall j | 0 <= j < |t.columns| ::
           u.columns[j] == t.columns[j] + if j < |fields| then [Convert(t.guesses[j], fields[j]).value] else [])
  {
    hide Convert;
    if fields != [] { FieldsAreConverted(t, fields[..|fields| - 1]); }
  }

  lemma {:induction false} RowsAreConverted(t: Tables, rows: seq<seq<string>>)
    requires t.ok && |t.columns| == |t.guesses|
    ensures var u := TakeRows(Parse, t, rows);
      && u.guesses == t.guesses && |u.columns| == |t.columns|
      && (u.ok <==> forall i | 0 <= i < |rows| :: LineConverts(t.guesses, rows[i]))
      && (u.ok ==> forall j | 0 <= j < |t.columns| ::
           Converts(t.guesses[j], ColumnTexts(rows, j))
           && u.columns[j] == t.columns[j] + Converted(t.guesses[j], ColumnTexts(rows, j)))
  {
    hide Convert, TakeFields;
    if rows != [] {
      var init, last := rows[..|rows| - 1], rows[|rows| - 1];
      RowsAreConverted(t, init);
      var before := TakeRows(Parse, t, init);
      if before.ok { FieldsAreConverted(before, last); }
    }
  }

  // ------------------------------------------------------------- what is promised

  function FirstRows<T>(rows: seq<T>): (first: seq<T>)
    ensures first <= rows && |first| == if |rows| < 500 then |rows| else 500
  {
    if |rows| <= GUESS_SCHEMA_LINES then rows else rows[..GUESS_SCHEMA_LINES]
  }

  // The types that guessSchema ends with.
  function TypesOf(sample: seq<seq<string>>): seq<Guess> {
    seq(MostFields(sample), j requires 0 <= j => Finished(GuessAll(Unknown, ColumnTexts(sample, j))))
  }

  function FinishedAll(guesses: seq<Guess>): seq<Guess> {
    seq(|guesses|, j requires 0 <= j < |guesses| => Finished(guesses[j]))
  }

  function Empty(types: seq<Guess>): Tables {
    Tables(types, seq(|types|, j => []), true)
  }

  function Unguessed(n: nat): Tables {
    Tables(seq(n, j => Unknown), [], true)
  }

  // What parseFile ends with.
  function Parsed(rows: seq<seq<string>>): Tables {
    var types := TypesOf(FirstRows(rows));
    TakeRows(Parse, Empty(types), rows)
  }

  lemma {:induction false} FieldIsInColumn(rows: seq<seq<string>>, i: nat, j: nat)
    requires i < |rows| && j < |rows[i]|
    ensures rows[i][j] in ColumnTexts(rows, j)
  {
    var init := rows[..|rows| - 1];
    if i < |init| {
      FieldIsInColumn(init, i, j);
    } else {
      var texts := ColumnTexts(rows, j);
      assert texts[|texts| - 1] == rows[i][j];
    }
  }

  predicate AllAcceptable(rows: seq<seq<string>>, types: seq<Guess>) {
    forall i | 0 <= i < |rows| :: LineAcceptable(rows[i], types)
  }

  predicate LineAcceptable(fields: seq<string>, types: seq<Guess>) {
    |fields| <= |types| && forall j | 0 <= j < |fields| :: Acceptable(types[j], fields[j])
  }

  // A field that a bool column takes, if it is not blank.
  predicate IsBit(field: string) {
    IntOf(Trimmed(field, ' ')) in {0, 1}
  }

  // The lines that no guess has seen have 0 or 1 in each bool column.
  predicate LaterBools(rows: seq<seq<string>>, types: seq<Guess>) {
    forall i, j | GUESS_SCHEMA_LINES <= i < |rows| && 0 <= j < |rows[i]| && j < |types| ::
      types[j] == Bool ==> IsBit(rows[i][j])
  }

  lemma ConvertsExactly(g: Guess, field: string)
    requires g != Unknown
    ensures Convert(g, field).Gives? <==> Acceptable(g, field) && (g == Bool ==> IsBit(field))
  {
    hide Trimmed, IntOf;
  }

  // A file is parsed without a failing assertion exactly when no line has more
  // fields than the first 500, fields are not blank, strings are short enough,
  // and the later lines have 0 or 1 in the bool columns.
  lemma GuessIsSoundForTheParse(rows: seq<seq<string>>)
    ensures var types := TypesOf(FirstRows(rows));
      Parsed(rows).ok <==> AllAcceptable(rows, types) && LaterBools(rows, types)
  {
    var sample := FirstRows(rows);
    var types := TypesOf(sample);
    RowsAreConverted(Empty(types), rows);
    forall i, j | 0 <= i < |rows| && 0 <= j < |rows[i]| && j < |types|
      ensures Convert(types[j], rows[i][j]).Gives? <==> IsTaken(i, types[j], rows[i][j])
    {
      ConvertsExactly(types[j], rows[i][j]);
      if i < GUESS_SCHEMA_LINES {
        FieldIsInColumn(sample, i, j);
        GuessedFieldsConvert(ColumnTexts(sample, j), rows[i][j]);
      }
    }
    hide Convert, IsTaken, Acceptable, GuessAll, Finished, TakeRows, ColumnTexts, MostFields, IsBit;
    LinesAreTaken(rows, types);
  }

  // What line i needs of a field.
  predicate IsTaken(i: nat, g: Guess, field: string) {
    Acceptable(g, field) && (i >= GUESS_SCHEMA_LINES && g == Bool ==> IsBit(field))
  }

  lemma LinesAreTaken(rows: seq<seq<string>>, types: seq<Guess>)
    requires forall i, j | 0 <= i < |rows| && 0 <= j < |rows[i]| && j < |types| ::
      Convert(types[j], rows[i][j]).Gives? <==> IsTaken(i, types[j], rows[i][j])
    ensures (forall i | 0 <= i < |rows| :: LineConverts(types, rows[i]))
      <==> AllAcceptable(rows, types) && LaterBools(rows, types)
  {
    hide Convert, Acceptable, IsBit;
    if forall i | 0 <= i < |rows| :: LineConverts(types, rows[i]) {
      forall i | 0 <= i < |rows| ensures LineAcceptable(rows[i], types) { assert LineConverts(types, rows[i]); }
      forall i, j | 0 <= i < |rows| && 0 <= j < |rows[i]| ensures j < |types| && IsTaken(i, types[j], rows[i][j]) {
        assert LineConverts(types, rows[i]);
        assert Convert(types[j], rows[i][j]).Gives?;
      }
    }
    if AllAcceptable(rows, types) && LaterBools(rows, types) {
      forall i | 0 <= i < |rows| ensures LineConverts(types, rows[i]) {
        assert LineAcceptable(rows[i], types);
        assert forall j | 0 <= j < |rows[i]| :: IsTaken(i, types[j], rows[i][j]);
      }
    }
  }

  predicate EqualLengths(columns: seq<seq<Value>>) {
    forall j | 0 <= j < |columns| :: |columns[j]| == |columns[0]|
  }

  // No line is shorter than the others, except lines without any field.
  predicate Rectangular(rows: seq<seq<string>>) {
    forall i | 0 <= i < |rows| :: |rows[i]| == 0 || |rows[i]| == MostFields(rows)
  }

  lemma {:induction false} ColumnLengths(rows: seq<seq<string>>, n: nat)
    requires Within(rows, n) && n > 0
    ensures |ColumnTexts(rows, n - 1)| <= |ColumnTexts(rows, 0)|
    ensures |ColumnTexts(rows, n - 1)| == |ColumnTexts(rows, 0)| <==> forall i | 0 <= i < |rows| :: |rows[i]| in {0, n}
  {
    if rows != [] { ColumnLengths(rows[..|rows| - 1], n); }
  }

  lemma {:induction false} MiddleColumnLength(rows: seq<seq<string>>, n: nat, j: nat)
    requires Within(rows, n) && j < n
    ensures |ColumnTexts(rows, n - 1)| <= |ColumnTexts(rows, j)| <= |ColumnTexts(rows, 0)|
  {
    if rows != [] { MiddleColumnLength(rows[..|rows| - 1], n, j); }
  }

  // The columns of a parsed file have equal lengths, as the data frame asserts,
  // exactly when every line has all fields or none.
  lemma ColumnsAreEqualExactly(rows: seq<seq<string>>)
    requires Parsed(rows).ok && MostFields(FirstRows(rows)) > 0
    ensures EqualLengths(Parsed(rows).columns) <==> Rectangular(rows)
  {
    var n := MostFields(rows);
    ParsedLengths(rows);
    MostFieldsIsTheMaximum(rows);
    ColumnLengths(rows, n);
    var columns := Parsed(rows).columns;
    hide MostFields, Parsed, ColumnTexts, Within;
    forall j | 0 <= j < n ensures |columns[n - 1]| <= |columns[j]| <= |columns[0]| {
      MiddleColumnLength(rows, n, j);
    }
  }

  lemma ParsedLengths(rows: seq<seq<string>>)
    requires Parsed(rows).ok
    ensures |Parsed(rows).columns| == MostFields(rows) == MostFields(FirstRows(rows))
    ensures forall j | 0 <= j < MostFields(rows) :: |Parsed(rows).columns[j]| == |ColumnTexts(rows, j)|
  {
    var types := TypesOf(FirstRows(rows));
    RowsAreConverted(Empty(types), rows);
    assert Within(rows, |types|) by {
      forall i | 0 <= i < |rows| ensures |rows[i]| <= |types| { assert LineConverts(types, rows[i]); }
    }
    WidestOfFirst(rows);
    hide TakeRows, MostFields, ColumnTexts, Finished, GuessAll, FirstRows, Convert;
  }

  lemma WidestOfFirst(rows: seq<seq<string>>)
    requires Within(rows, MostFields(FirstRows(rows)))
    ensures MostFields(rows) == MostFields(FirstRows(rows))
  {
    MostFieldsIsTheMaximum(rows);
    MostFieldsIsTheMaximum(FirstRows(rows));
    hide MostFields;
    if rows != [] {
      var i :| 0 <= i < |FirstRows(rows)| && |FirstRows(rows)[i]| == MostFields(FirstRows(rows));
      assert rows[i] == FirstRows(rows)[i];
    }
  }

  // The numbers of the lines that have a field j, in order.
  predicate LinesWith(at: seq<nat>, rows: seq<seq<string>>, j: nat) {
    && (forall k, l | 0 <= k < l < |at| :: at[k] < at[l])
    && (forall k | 0 <= k < |at| :: at[k] < |rows| && j < |rows[at[k]]|)
    && forall i | 0 <= i < |rows| && j < |rows[i]| :: i in at
  }

  lemma OneMoreLine(at: seq<nat>, init: seq<seq<string>>, row: seq<string>, j: nat)
    requires LinesWith(at, init, j)
    ensures LinesWith(if j < |row| then at + [|init|] else at, init + [row], j)
  {
    var rows, more := init + [row], if j < |row| then at + [|init|] else at;
    forall k | 0 <= k < |more| ensures more[k] < |rows| && j < |rows[more[k]]| {
      if k < |at| { assert rows[at[k]] == init[at[k]]; }
    }
    forall i | 0 <= i < |rows| && j < |rows[i]| ensures i in more {
      if i < |init| { assert rows[i] == init[i] && i in at; } else { assert more[|more| - 1] == i; }
    }
  }

  predicate TextsOfLines(at: seq<nat>, rows: seq<seq<string>>, j: nat, texts: seq<string>) {
    LinesWith(at, rows, j) && |at| == |texts| && forall k | 0 <= k < |at| :: rows[at[k]][j] == texts[k]
  }

  lemma OneMoreText(at: seq<nat>, init: seq<seq<string>>, row: seq<string>, j: nat, texts: seq<string>)
    requires TextsOfLines(at, init, j, texts)
    ensures j < |row| ==> TextsOfLines(at + [|init|], init + [row], j, texts + [row[j]])
    ensures j >= |row| ==> TextsOfLines(at, init + [row], j, texts)
  {
    OneMoreLine(at, init, row, j);
    forall k | 0 <= k < |at| ensures (init + [row])[at[k]] == init[at[k]] { }
  }

  lemma {:induction false} ColumnTextsAre(rows: seq<seq<string>>, j: nat) returns (at: seq<nat>)
    ensures TextsOfLines(at, rows, j, ColumnTexts(rows, j))
  {
    if rows == [] {
      at := [];
    } else {
      hide TextsOfLines;
      var init, row := rows[..|rows| - 1], rows[|rows| - 1];
      at := ColumnTextsAre(init, j);
      OneMoreText(at, init, row, j, ColumnTexts(init, j));
      assert rows == init + [row] && ColumnTexts(init, j) + [] == ColumnTexts(init, j);
      if j < |row| { at := at + [|init|]; }
    }
  }

  // Column j of a parsed file has, in the order of the lines, what the type that
  // the first 500 lines give makes of the fields j of all lines that have one.
  lemma ColumnsAreTheLines(rows: seq<seq<string>>, j: nat) returns (at: seq<nat>)
    requires Parsed(rows).ok && j < MostFields(FirstRows(rows))
    ensures |Parsed(rows).guesses| == |Parsed(rows).columns| == MostFields(FirstRows(rows))
    ensures var g := GuessAll(Unknown, ColumnTexts(FirstRows(rows), j));
      Parsed(rows).guesses[j] == if g == Unknown then Bool else g
    ensures LinesWith(at, rows, j) && |at| == |Parsed(rows).columns[j]|
    ensures forall k | 0 <= k < |at| ::
      Convert(Parsed(rows).guesses[j], rows[at[k]][j]) == Gives(Parsed(rows).columns[j][k])
  {
    at := ColumnTextsAre(rows, j);
    RowsAreConverted(Empty(TypesOf(FirstRows(rows))), rows);
    hide TakeRows, MostFields, ColumnTexts, FirstRows, Convert, GuessAll;
  }

  // Row i of the columns is line i, if every line has all fields.
  lemma {:induction false} ColumnsHoldTheLines(rows: seq<seq<string>>, j: nat)
    requires forall i | 0 <= i < |rows| :: j < |rows[i]|
    ensures |ColumnTexts(rows, j)| == |rows| && forall i | 0 <= i < |rows| :: ColumnTexts(rows, j)[i] == rows[i][j]
  {
    if rows != [] { ColumnsHoldTheLines(rows[..|rows| - 1], j); }
  }

  // 500 is a real limit: one later line can break the guess of a good file.
  lemma LaterLineFails() returns (rows: seq<seq<string>>)
    ensures |rows| == 501 && Rectangular(rows)
    ensures AllAcceptable(rows, TypesOf(FirstRows(rows))) && !Parsed(rows).ok
  {
    var zero: seq<string>, two: seq<string> := ["0"], ["2"];
    var sample := seq(GUESS_SCHEMA_LINES, i => zero);
    rows := sample + [two];
    assert FirstRows(rows) == sample && rows[0] == zero && rows[GUESS_SCHEMA_LINES] == two;
    MostFieldsIsTheMaximum(rows);
    ZerosAreBool(sample);
    Digits();
    RowsAreConverted(Empty([Bool]), rows);
    hide TakeRows, Convert, Acceptable, MostFields, ColumnTexts, TypesOf;
    assert !LineConverts([Bool], rows[GUESS_SCHEMA_LINES]);
  }

  lemma ZerosAreBool(sample: seq<seq<string>>)
    requires sample != [] && forall i | 0 <= i < |sample| :: sample[i] == ["0"]
    ensures TypesOf(sample) == [Bool]
  {
    hide GuessAll, ColumnTexts, MostFields;
    MostFieldsIsTheMaximum(sample);
    assert forall i | 0 <= i < |sample| :: |sample[i]| == 1;
    assert MostFields(sample) == 1;
    ColumnsHoldTheLines(sample, 0);
    ZerosGuessBool(ColumnTexts(sample, 0));
    assert TypesOf(sample)[0] == Bool;
  }

  lemma {:induction false} ZerosGuessBool(texts: seq<string>)
    requires texts != [] && forall i | 0 <= i < |texts| :: texts[i] == "0"
    ensures GuessAll(Unknown, texts) == Bool
  {
    var init := texts[..|texts| - 1];
    StepIsJoin(GuessAll(Unknown, init), "0");
    Digits();
    hide GuessStep, ClassOf, Convert, Acceptable;
    if init != [] { ZerosGuessBool(init); }
  }

  lemma Digits()
    ensures ClassOf("0") == Bool && Acceptable(Bool, "0") && Acceptable(Bool, "2") && Convert(Bool, "2").AssertionFails?
  {
    assert "0"[..1] == "0" && "2"[..1] == "2" && "2"[..0] == "" && "0"[..0] == "";
    assert Unsigned("0") == 0 && Unsigned("2") == 2;
    assert IsNumeric("0"[0]);
  }

  // ---------------------------------------------------------------- the parser

  // The scanner's flags and field start as a state.
  function StateAt(line: string, i: nat, inField: bool, inString: bool, fieldStart: nat): State
    requires inField ==> fieldStart < i <= |line|
  {
    if inField then Inside(line[fieldStart + 1..i], inString) else Outside
  }

  lemma NothingLeft(st: State)
    ensures FieldsFrom("", st) == []
  {
  }

  lemma OutsideHere(line: string, i: nat, fieldStart: nat)
    ensures StateAt(line, i, false, false, fieldStart) == Outside
  {
  }

  // One character further, no field is completed.
  lemma StateAdvances(line: string, i: nat, inField: bool, inString: bool, fieldStart: nat)
    requires i < |line| && (inField ==> fieldStart < i)
    ensures line[i] == '<' && !inField ==>
      FieldsFrom(line[i..], Outside) == FieldsFrom(line[i + 1..], StateAt(line, i + 1, true, false, i))
    ensures line[i] != '<' && !inField ==> FieldsFrom(line[i..], Outside) == FieldsFrom(line[i + 1..], Outside)
    ensures inField && line[i] == '>' && !inString ==>
      FieldsFrom(line[i..], StateAt(line, i, true, false, fieldStart))
        == [line[fieldStart + 1..i]] + FieldsFrom(line[i + 1..], Outside)
    ensures inField && (line[i] != '>' || inString) ==>
      FieldsFrom(line[i..], StateAt(line, i, true, inString, fieldStart))
        == FieldsFrom(line[i + 1..],
             StateAt(line, i + 1, true, if line[i] == '"' then !inString else inString, fieldStart))
  {
    assert line[i..][1..] == line[i + 1..];
    assert line[i + 1..i + 1] == "";
    assert inField ==> line[fieldStart + 1..i] + [line[i]] == line[fieldStart + 1..i + 1];
  }

  lemma NextTaken(mode: Mode, t: Tables, seen: seq<string>, field: string)
    requires TakeFields(mode, t, seen).ok
    ensures TakeFields(mode, t, seen + [field]) == TakeField(mode, TakeFields(mode, t, seen), |seen|, field)
  {
    assert (seen + [field])[..|seen|] == seen;
    hide TakeField;
  }

  lemma {:induction false} FailureStays(mode: Mode, t: Tables, seen: seq<string>, more: seq<string>)
    requires !TakeFields(mode, t, seen).ok
    ensures TakeFields(mode, t, seen + more) == TakeFields(mode, t, seen)
  {
    if more == [] {
      assert seen + more == seen;
    } else {
      FailureStays(mode, t, seen, more[..|more| - 1]);
      assert (seen + more)[..|seen + more| - 1] == seen + more[..|more| - 1];
    }
  }

  class SorParser {
    const reader: LineReader
    var guesses: seq<Guess>
    var columns: seq<seq<Value>>
    var numColumns: nat

    constructor (reader: LineReader)
      ensures this.reader == reader && guesses == [] && columns == []
    {
      this.reader := reader;
      guesses, columns, numColumns := [], [], 0;
    }

    function State(ok: bool): Tables
      reads this
    {
      Tables(guesses, columns, ok)
    }

    method GuessFieldType(slice: StrSlice, fieldNum: nat)
      requires slice.Valid() && fieldNum < |guesses|
      modifies this`guesses, slice
      ensures guesses == old(guesses)[fieldNum := GuessStep(old(guesses)[fieldNum], old(slice.Text()))]
    {
      ghost var field := slice.Text();
      slice.Trim(' ');
      var s := slice.Text();
      if |s| == 0 { return; }
      var isNumeric, hasDot := false, false;
      for i := 0 to |s|
        invariant isNumeric <==> exists k :: 0 <= k < i && IsNumeric(s[k])
        invariant hasDot <==> '.' in s[..i]
      {
        if IsNumeric(s[i]) {
          isNumeric := true;
          if s[i] == '.' { hasDot := true; }
        }
      }
      assert s[..|s|] == s;
      hide Trimmed, IntOf;
      if guesses[fieldNum] != Text {
        if isNumeric && !hasDot {
          var val := slice.ToInt();
          if (val == 0 || val == 1) && guesses[fieldNum] != Integer && guesses[fieldNum] != Double {
            guesses := guesses[fieldNum := Bool];
          } else if guesses[fieldNum] != Double {
            guesses := guesses[fieldNum := Integer];
          }
        } else if isNumeric && hasDot {
          guesses := guesses[fieldNum := Double];
        } else {
          guesses := guesses[fieldNum := Text];
        }
      }
    }

    // Not ok stands for a failing assertion.
    method AppendField(slice: StrSlice, fieldNum: nat) returns (ok: bool)
      requires slice.Valid()
      modifies this`columns, slice
      ensures State(ok) == TakeField(Parse, old(State(true)), fieldNum, old(slice.Text()))
    {
      slice.Trim(' ');
      ok := false;
      hide Trimmed, IntOf;
      if fieldNum >= |columns| || fieldNum >= |guesses| || |slice.Text()| == 0 { return; }
      match guesses[fieldNum] {
        case Text =>
          slice.Trim('"');
          if |slice.Text()| > MAX_STRING { return; }
          columns := columns[fieldNum := columns[fieldNum] + [Str(slice.Text())]];
        case Integer =>
          var i := slice.ToInt();
          columns := columns[fieldNum := columns[fieldNum] + [Int(i)]];
        case Double =>
          columns := columns[fieldNum := columns[fieldNum] + [Real(slice.Text())]];
        case Bool =>
          var i := slice.ToInt();
          if i != 0 && i != 1 { return; }
          columns := columns[fieldNum := columns[fieldNum] + [Truth(i == 1)]];
        case Unknown => return;
      }
      ok := true;
    }

    // What _scanLine does with a completed field.
    method Take(line: string, start: nat, end: nat, mode: Mode, fieldNum: nat) returns (ok: bool)
      requires start <= end <= |line|
      modifies this`guesses, this`columns
      ensures State(ok) == TakeField(mode, old(State(true)), fieldNum, line[start..end])
    {
      ok := true;
      if mode == DetectSchema {
        if fieldNum >= |guesses| { return false; }
        var slice := new StrSlice(line, start, end);
        GuessFieldType(slice, fieldNum);
      } else if mode == Parse {
        var slice := new StrSlice(line, start, end);
        ok := AppendField(slice, fieldNum);
      }
    }

    method ScanLine(line: string, mode: Mode) returns (numFields: nat, ok: bool)
      modifies this`guesses, this`columns
      ensures State(ok) == TakeFields(mode, old(State(true)), LineFields(line))
      ensures ok ==> numFields == |LineFields(line)|
    {
      var chars := CString(line);
      numFields, ok := 0, true;
      var fieldStart, inField, inString := 0, false, false;
      ghost var seen, t := [], State(true);
      hide TakeField, FieldsFrom, StateAt;
      assert chars[0..] == chars;
      for i := 0 to |chars|
        invariant inField ==> fieldStart < i
        invariant inString ==> inField
        invariant ok && numFields == |seen| && State(true) == TakeFields(mode, t, seen)
        invariant FieldsOf(chars) == seen + FieldsFrom(chars[i..], StateAt(chars, i, inField, inString, fieldStart))
      {
        StateAdvances(chars, i, inField, inString, fieldStart);
        if !inField {
          if chars[i] == '<' {
            inField, fieldStart := true, i;
          }
        } else if chars[i] == '"' {
          inString := !inString;
        } else if chars[i] == '>' && !inString {
          ghost var field := chars[fieldStart + 1..i];
          NextTaken(mode, t, seen, field);
          ok := Take(chars, fieldStart + 1, i, mode, numFields);
          seen := seen + [field];
          assert FieldsOf(chars) == seen + FieldsFrom(chars[i + 1..], StateAt(chars, i + 1, false, false, fieldStart));
          OutsideHere(chars, i + 1, fieldStart);
          if !ok {
            FailureStays(mode, t, seen, FieldsFrom(chars[i + 1..], Outside));
            return;
          }
          inField := false;
          numFields := numFields + 1;
        }
      }
      NothingLeft(StateAt(chars, |chars|, inField, inString, fieldStart));
      assert chars[|chars|..] == "" && FieldsOf(chars) == seen;
    }

    ghost predicate Ready()
      reads reader, reader.file, reader.buf
    {
      reader.Valid() && reader.currentLine == Null
    }

    // All fields of the file, line by line.
    ghost function Rows(): seq<seq<string>> {
      RowsOf(LinesOf(reader.file.content))
    }

    // The lines that the reader still gives.
    ghost function Left(): seq<string>
      requires Ready()
      reads reader, reader.file, reader.buf
    {
      LinesOf(reader.Rest())
    }

    method NextLine() returns (line: Text)
      requires Ready()
      modifies reader`bufLength, reader`pos, reader`readSize, reader`currentLine, reader.file, reader.buf
      ensures Ready()
      ensures old(Left()) == [] ==> line == Null && Left() == []
      ensures old(Left()) != [] ==> line == Chars(old(Left())[0]) && Left() == old(Left())[1..]
    {
      FirstOfLines(reader.Rest());
      hide LinesOf, LineEnd, AfterLine;
      line := reader.ReadLine();
    }

    // Reads up to GUESS_SCHEMA_LINES lines and scans each: the loop of either
    // pass of guessSchema.
    method ScanFirstLines(mode: Mode) returns (mostFields: nat)
      requires Ready() && reader.Rest() == reader.file.content
      requires CannotFail(mode, State(true), FirstRows(Rows()))
      modifies this`guesses, this`columns
      modifies reader`bufLength, reader`pos, reader`readSize, reader`currentLine, reader.file, reader.buf
      ensures Ready() && mostFields == MostFields(FirstRows(Rows()))
      ensures State(true) == TakeRows(mode, old(State(true)), FirstRows(Rows()))
    {
      assert GUESS_SCHEMA_LINES > 0;
      hide *;
      mostFields := 0;
      ghost var t, rows, all := State(true), [], Rows();
      NothingScanned(mode);
      for i := 0 to GUESS_SCHEMA_LINES
        invariant Ready() && |rows| == i && Scanned(mode, t, all, rows, mostFields)
      {
        var done;
        done, rows, mostFields := ReadAndScan(mode, t, all, rows, mostFields);
        if done { return; }
      }
      LimitReached(mode, t, all, rows, mostFields);
    }

    lemma NothingScanned(mode: Mode)
      requires Ready() && reader.Rest() == reader.file.content
      ensures Scanned(mode, State(true), Rows(), [], 0)
    {
      hide RowsOf, LinesOf;
      StartOfRows(mode, State(true));
      assert Rows() == [] + RowsOf(Left());
    }

    lemma LimitReached(mode: Mode, t: Tables, all: seq<seq<string>>, rows: seq<seq<string>>, mostFields: nat)
      requires Ready() && |rows| == GUESS_SCHEMA_LINES && Scanned(mode, t, all, rows, mostFields)
      ensures mostFields == MostFields(FirstRows(all)) && State(true) == TakeRows(mode, t, FirstRows(all))
    {
      RowAhead(all, rows, Left());
      hide FirstRows, MostFields, TakeRows, RowsOf, Left;
    }

    // One round of the loop: done if there is no line.
    method ReadAndScan(mode: Mode, ghost t: Tables, ghost all: seq<seq<string>>, ghost rows: seq<seq<string>>,
        mostFields: nat)
      returns (done: bool, ghost more: seq<seq<string>>, most: nat)
      requires Ready() && Scanned(mode, t, all, rows, mostFields) && |rows| < GUESS_SCHEMA_LINES
      requires CannotFail(mode, t, FirstRows(all))
      modifies this`guesses, this`columns
      modifies reader`bufLength, reader`pos, reader`readSize, reader`currentLine, reader.file, reader.buf
      ensures Ready()
      ensures done ==> most == MostFields(FirstRows(all)) && State(true) == TakeRows(mode, t, FirstRows(all))
      ensures !done ==> |more| == |rows| + 1 && Scanned(mode, t, all, more, most)
    {
      RowAhead(all, rows, Left());
      hide LineFields, LinesOf, MostFields, TakeRows, CannotFail, RowsOf, FirstRows, Left, Ready;
      var line := NextLine();
      if line.Null? { return true, rows, mostFields; }
      done := false;
      more, most := ScanOne(mode, line.s, t, all, rows, mostFields);
    }

    // Not ok if no line has a field: the source asserts that one has.
    method GuessSchema() returns (ok: bool)
      requires Ready() && reader.Rest() == reader.file.content && columns == []
      modifies this
      modifies reader`bufLength, reader`pos, reader`readSize, reader`currentLine, reader.file, reader.buf
      ensures Ready() && ok == (MostFields(FirstRows(Rows())) > 0)
      ensures ok ==> State(true) == Empty(TypesOf(FirstRows(Rows())))
    {
      CountingRows(State(true), FirstRows(Rows()));
      assert CannotFail(DetectNumColumns, State(true), FirstRows(Rows()));
      hide *;
      var most := ScanFirstLines(DetectNumColumns);
      assert columns == [] by { assert State(true).columns == []; }
      ok := most != 0;
      if ok { GuessTypes(most); }
    }

    // The second pass of guessSchema.
    method GuessTypes(most: nat)
      requires Ready() && most == MostFields(FirstRows(Rows())) && columns == []
      modifies this
      modifies reader`bufLength, reader`pos, reader`readSize, reader`currentLine, reader.file, reader.buf
      ensures Ready() && State(true) == Empty(TypesOf(FirstRows(Rows())))
    {
      ghost var sample := FirstRows(Rows());
      GuessesAreTypes(sample);
      hide *;
      StartGuessing(most);
      var _ := ScanFirstLines(DetectSchema);
      GuessesAre(TakeRows(DetectSchema, Unguessed(most), sample));
      InitializeColumns();
    }

    lemma GuessesAre(t: Tables)
      requires State(true) == t
      ensures guesses == t.guesses && columns == t.columns
    {
    }

    method StartGuessing(most: nat)
      requires Ready() && columns == []
      modifies this
      modifies reader`bufLength, reader`pos, reader`readSize, reader`currentLine, reader.file
      ensures Ready() && reader.Rest() == reader.file.content
      ensures State(true) == Unguessed(most) && numColumns == most
    {
      hide LineReader.Valid, LineReader.Rest;
      GoBack();
      guesses := seq(most, j => Unknown);
      numColumns := most;
    }

    method GoBack()
      requires Ready()
      modifies reader`bufLength, reader`pos, reader`readSize, reader`currentLine, reader.file
      ensures Ready() && reader.Rest() == reader.file.content
    {
      reader.Reset();
    }

    // A column without a guess becomes a bool column.
    method InitializeColumns()
      requires columns == [] && numColumns == |guesses|
      modifies this`guesses, this`columns
      ensures State(true) == Empty(FinishedAll(old(guesses)))
    {
      for i := 0 to numColumns
        invariant |columns| == i && |guesses| == numColumns
        invariant forall j | 0 <= j < i :: guesses[j] == Finished(old(guesses)[j]) && columns[j] == []
        invariant forall j | i <= j < numColumns :: guesses[j] == old(guesses)[j]
      {
        if guesses[i] == Unknown { guesses := guesses[i := Bool]; }
        columns := columns + [[]];
      }
    }

    method ParseFile() returns (ok: bool)
      requires Ready()
      modifies this`guesses, this`columns
      modifies reader`bufLength, reader`pos, reader`readSize, reader`currentLine, reader.file, reader.buf
      ensures Ready() && State(ok) == TakeRows(Parse, old(State(true)), Rows())
    {
      ok := true;
      ghost var t, rows, all := State(true), [], Rows();
      hide *;
      GoBack();
      NothingRead(t);
      while true
        invariant Ready() && all == rows + RowsOf(Left()) && State(true) == TakeRows(Parse, t, rows)
        decreases |Left()|
      {
        var done;
        done, ok, rows := ParseLine(t, all, rows);
        if done { return; }
      }
    }

    lemma NothingRead(t: Tables)
      requires Ready() && reader.Rest() == reader.file.content
      ensures TakeRows(Parse, t, []) == t && Rows() == [] + RowsOf(Left())
    {
      hide RowsOf, LinesOf;
    }

    // One round of the loop: done if there is no line or an assertion fails.
    method ParseLine(ghost t: Tables, ghost all: seq<seq<string>>, ghost rows: seq<seq<string>>)
      returns (done: bool, ok: bool, ghost more: seq<seq<string>>)
      requires Ready() && all == rows + RowsOf(Left()) && State(true) == TakeRows(Parse, t, rows)
      modifies this`guesses, this`columns
      modifies reader`bufLength, reader`pos, reader`readSize, reader`currentLine, reader.file, reader.buf
      ensures Ready() && !done ==> all == more + RowsOf(Left()) && |Left()| < |old(Left())|
      ensures Ready() && !done ==> State(true) == TakeRows(Parse, t, more)
      ensures Ready() && (done ==> State(ok) == TakeRows(Parse, t, all))
    {
      ghost var left := Left();
      RowAhead(all, rows, left);
      hide LineFields, LinesOf, TakeRows, TakeFields, RowsOf, Left, Ready;
      var line := NextLine();
      ok := true;
      more := rows;
      if line.Null? {
        NoRowsLeft(all, rows);
        return true, true, rows;
      }
      ghost var row := LineFields(line.s);
      OneMoreRow(Parse, t, rows, row);
      var _, fine := ScanLine(line.s, Parse);
      ok := fine;
      more := rows + [row];
      done := !ok;
      if done { FailedRowsStay(Parse, t, more, RowsOf(left[1..])); }
    }

    // The scanned rows, and the lines that are left.
    ghost predicate Scanned(mode: Mode, t: Tables, all: seq<seq<string>>, rows: seq<seq<string>>, mostFields: nat)
      requires Ready()
      reads this, reader, reader.file, reader.buf
    {
      && all == rows + RowsOf(Left())
      && State(true) == TakeRows(mode, t, rows) && mostFields == MostFields(rows)
    }

    method ScanOne(mode: Mode, line: string, ghost t: Tables, ghost all: seq<seq<string>>, ghost rows: seq<seq<string>>,
        mostFields: nat)
      returns (ghost more: seq<seq<string>>, most: nat)
      requires CannotFail(mode, t, FirstRows(all)) && rows + [LineFields(line)] <= FirstRows(all)
      requires State(true) == TakeRows(mode, t, rows) && mostFields == MostFields(rows)
      modifies this`guesses, this`columns
      ensures more == rows + [LineFields(line)]
      ensures State(true) == TakeRows(mode, t, more) && most == MostFields(more)
    {
      more := rows + [LineFields(line)];
      hide TakeFields, LineFields, MostFields, TakeRows, CannotFail, FirstRows;
      NextRow(mode, t, rows, LineFields(line), FirstRows(all));
      var numFields, ok := ScanLine(line, mode);
      most := if numFields > mostFields then numFields else mostFields;
    }
  }

  lemma {:induction false} FailedRowsStay(mode: Mode, t: Tables, rows: seq<seq<string>>, more: seq<seq<string>>)
    requires !TakeRows(mode, t, rows).ok
    ensures TakeRows(mode, t, rows + more) == TakeRows(mode, t, rows)
  {
    hide TakeFields;
    if more == [] {
      assert rows + more == rows;
    } else {
      FailedRowsStay(mode, t, rows, more[..|more| - 1]);
      assert (rows + more)[..|rows + more| - 1] == rows + more[..|more| - 1];
    }
  }

  lemma OneMoreRow(mode: Mode, t: Tables, rows: seq<seq<string>>, row: seq<string>)
    requires TakeRows(mode, t, rows).ok
    ensures TakeRows(mode, t, rows + [row]) == TakeFields(mode, TakeRows(mode, t, rows), row)
  {
    hide TakeFields;
    assert (rows + [row])[..|rows|] == rows;
  }

  // The guesses after the second pass are the types, up to columns of which
  // every field is blank.
  lemma GuessesAreTypes(rows: seq<seq<string>>)
    ensures var n := MostFields(rows);
      var t := TakeRows(DetectSchema, Unguessed(n), rows);
      CannotFail(DetectSchema, Unguessed(n), rows)
      && t.columns == [] && |t.guesses| == n
      && TypesOf(rows) == FinishedAll(t.guesses)
  {
    MostFieldsIsTheMaximum(rows);
    RowsAreGuessed(Unguessed(MostFields(rows)), rows);
    hide TakeRows, GuessAll, ColumnTexts, MostFields, Finished;
  }

  // In these modes no line can fail.
  predicate CannotFail(mode: Mode, t: Tables, rows: seq<seq<string>>) {
    t.ok && (mode == DetectNumColumns || (mode == DetectSchema && Within(rows, |t.guesses|)))
  }

  lemma {:induction false} CountingTakesNothing(t: Tables, fields: seq<string>)
    ensures TakeFields(DetectNumColumns, t, fields) == t
  {
    if fields != [] { CountingTakesNothing(t, fields[..|fields| - 1]); }
  }

  lemma {:induction false} CountingRows(t: Tables, rows: seq<seq<string>>)
    ensures TakeRows(DetectNumColumns, t, rows) == t
  {
    if rows != [] {
      CountingRows(t, rows[..|rows| - 1]);
      CountingTakesNothing(t, rows[|rows| - 1]);
    }
  }

  lemma DoesNotFail(mode: Mode, t: Tables, rows: seq<seq<string>>, all: seq<seq<string>>)
    requires CannotFail(mode, t, all) && rows <= all
    ensures TakeRows(mode, t, rows).ok
  {
    if mode == DetectNumColumns { CountingRows(t, rows); } else { RowsAreGuessed(t, rows); }
  }

  lemma RowAhead(all: seq<seq<string>>, rows: seq<seq<string>>, left: seq<string>)
    requires all == rows + RowsOf(left)
    ensures |rows| == GUESS_SCHEMA_LINES || (left == [] && |rows| < GUESS_SCHEMA_LINES) ==> rows == FirstRows(all)
    ensures left != [] ==> all == rows + [LineFields(left[0])] + RowsOf(left[1..])
    ensures left != [] && |rows| < GUESS_SCHEMA_LINES ==> rows + [LineFields(left[0])] <= FirstRows(all)
  {
    hide LineFields;
    if left != [] {
      assert RowsOf(left) == [LineFields(left[0])] + RowsOf(left[1..]);
      assert all == rows + [LineFields(left[0])] + RowsOf(left[1..]);
    }
  }

  lemma NoRowsLeft(all: seq<seq<string>>, rows: seq<seq<string>>)
    requires all == rows + RowsOf([])
    ensures all == rows
  {
  }

  lemma StartOfRows(mode: Mode, t: Tables)
    ensures TakeRows(mode, t, []) == t && MostFields([]) == 0
  {
  }

  lemma NextRow(mode: Mode, t: Tables, rows: seq<seq<string>>, row: seq<string>, all: seq<seq<string>>)
    requires CannotFail(mode, t, all) && rows + [row] <= all
    ensures TakeFields(mode, TakeRows(mode, t, rows), row).ok
    ensures TakeRows(mode, t, rows + [row]) == TakeFields(mode, TakeRows(mode, t, rows), row)
    ensures MostFields(rows + [row]) == if |row| > MostFields(rows) then |row| else MostFields(rows)
  {
    DoesNotFail(mode, t, rows, all);
    DoesNotFail(mode, t, rows + [row], all);
    assert (rows + [row])[..|rows|] == rows;
  }

  lemma FirstOfLines(rest: string)
    ensures rest == "" ==> LinesOf(rest) == []
    ensures rest != "" ==> LinesOf(rest) == [rest[..LineEnd(rest)]] + LinesOf(AfterLine(rest))
  {
  }

  // ------------------------------------------------------------- a whole file

  // guessSchema and parseFile on a file of text; not ok stands for a failing
  // assertion.
  method ParseWhole(content: string) returns (ok: bool, types: seq<Guess>, columns: seq<seq<Value>>)
    ensures var rows := RowsOf(LinesOf(content));
      && (ok <==> MostFields(FirstRows(rows)) > 0 && Parsed(rows).ok)
      && (ok ==> types == Parsed(rows).guesses && columns == Parsed(rows).columns)
  {
    hide LineReader.Valid, LineReader.Rest, LineReader.Consumed;
    var file := new File(content);
    var reader := new LineReader(file);
    var parser := new SorParser(reader);
    types, columns := [], [];
    assert parser.Ready() && parser.Rows() == RowsOf(LinesOf(content));
    hide SorParser.Ready, SorParser.Rows, MostFields, TakeRows, TypesOf, Empty, FirstRows, RowsOf, LinesOf;
    ok := parser.GuessSchema();
    if !ok { return; }
    ok := parser.ParseFile();
    if !ok { return; }
    types, columns := parser.guesses, parser.columns;
  }
}
