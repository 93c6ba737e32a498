// A SoR file read into a stored data frame: parsed, its columns checked for
// equal lengths, and every segment written as bytes.

module SorFrames {
  import opened Ints
  import opened Wire
  import opened SegmentNames
  import opened Arrays
  import opened Columns
  import opened Frames
  import Lines
  import Scanner
  import Guessing
  import Parser

  // ------------------------------------------------------- from values to fields

  // A char is one byte.
  function CharBytes(s: string): (b: seq<byte>)
    ensures |b| == |s|
  {
    seq(|s|, i requires 0 <= i < |s| => (s[i] as int) % 256)
  }

  function KindOf(g: Guessing.Guess): Kind {
    match g
    case Text => 'S'
    case Integer => 'I'
    case Double => 'D'
    case _ => 'B'
  }

  // Doubles become what atof makes of their text.
  function ToField(v: Guessing.Value, atof: string -> Bits): Field
    requires v.Str? ==> |v.s| <= Guessing.MAX_STRING
  {
    match v
    case Str(s) => Text(CharBytes(s))
    case Int(i) => Whole(i)
    case Real(text) => Real(atof(text))
    case Truth(b) => Truth(b)
  }

  predicate Even(columns: seq<seq<Guessing.Value>>, n: nat) {
    forall j | 0 <= j < |columns| :: |columns[j]| == n
  }

  // Each column holds what its type says.
  predicate AllFor(types: seq<Guessing.Guess>, columns: seq<seq<Guessing.Value>>) {
    |columns| == |types| && forall j | 0 <= j < |types| :: ColumnFor(types[j], columns[j])
  }

  predicate ColumnFor(g: Guessing.Guess, column: seq<Guessing.Value>) {
    forall i | 0 <= i < |column| :: Guessing.IsFor(g, column[i])
  }

  function RowAt(types: seq<Guessing.Guess>, columns: seq<seq<Guessing.Value>>, i: nat,
      atof: string -> Bits): (row: seq<Field>)
    requires AllFor(types, columns) && forall j | 0 <= j < |columns| :: i < |columns[j]|
    ensures |row| == |columns|
  {
    seq(|columns|, j requires 0 <= j < |columns| =>
      assert ColumnFor(types[j], columns[j]) && Guessing.IsFor(types[j], columns[j][i]);
      ToField(columns[j][i], atof))
  }

  // The rows of the frame that has these columns.
  function RowsOfColumns(types: seq<Guessing.Guess>, columns: seq<seq<Guessing.Value>>, n: nat, atof: string -> Bits)
    : (rows: seq<seq<Field>>)
    requires AllFor(types, columns) && Even(columns, n)
    ensures |rows| == n
  {
    seq(n, i requires 0 <= i < n => RowAt(types, columns, i, atof))
  }

  function Kinds(types: seq<Guessing.Guess>): string {
    seq(|types|, j requires 0 <= j < |types| => KindOf(types[j]))
  }

  predicate NoEmptyStrings(columns: seq<seq<Guessing.Value>>) {
    forall j | 0 <= j < |columns| :: NoEmptyString(columns[j])
  }

  predicate NoEmptyString(column: seq<Guessing.Value>) {
    forall i | 0 <= i < |column| :: column[i] != Guessing.Str("")
  }

  lemma EmptyFields(types: seq<Guessing.Guess>, columns: seq<seq<Guessing.Value>>, n: nat, atof: string -> Bits)
    requires AllFor(types, columns) && Even(columns, n)
    ensures NoEmptyText(RowsOfColumns(types, columns, n, atof)) <==> NoEmptyStrings(columns)
  {
    var rows := RowsOfColumns(types, columns, n, atof);
    forall i, j | 0 <= i < n && 0 <= j < |columns|
      ensures rows[i][j] == NO_TEXT <==> columns[j][i] == Guessing.Str("")
    {
      assert ColumnFor(types[j], columns[j]) && Guessing.IsFor(types[j], columns[j][i]);
      if rows[i][j] == NO_TEXT { assert columns[j][i].Str? && |columns[j][i].s| == 0; }
    }
    if NoEmptyText(rows) {
      forall j | 0 <= j < |columns| ensures NoEmptyString(columns[j]) {
        forall i | 0 <= i < |columns[j]| ensures columns[j][i] != Guessing.Str("") { assert NoEmpty(rows[i]); }
      }
    }
    if NoEmptyStrings(columns) {
      forall i | 0 <= i < n ensures NoEmpty(rows[i]) {
        forall j | 0 <= j < |rows[i]| ensures rows[i][j] != NO_TEXT { assert NoEmptyString(columns[j]); }
      }
    }
  }

  lemma RowsAreTyped(types: seq<Guessing.Guess>, columns: seq<seq<Guessing.Value>>, n: nat, atof: string -> Bits)
    requires AllFor(types, columns) && Even(columns, n)
    ensures RowsOk(Kinds(types), RowsOfColumns(types, columns, n, atof)) && Known(Kinds(types))
  {
    var rows := RowsOfColumns(types, columns, n, atof);
    forall i, j | 0 <= i < n && 0 <= j < |types| ensures TypeOf(rows[i][j]) == Kinds(types)[j] {
      assert ColumnFor(types[j], columns[j]) && Guessing.IsFor(types[j], columns[j][i]);
    }
  }

  // ------------------------------------------------------------ filling columns

  // Pushes one row of a parsed file.
  method AddRow(cols: seq<Column>, store: Store, types: string, ghost rows: seq<seq<Field>>, row: seq<Field>)
    returns (ok: bool)
    requires OfTypes(cols, types) && |row| == |types| && Filled(cols, store, rows, false)
    requires forall j | 0 <= j < |types| :: TypeOf(row[j]) == types[j]
    requires RoomFor(cols, |rows| + 1)
    modifies cols, store
    ensures ok ==> Filled(cols, store, rows + [row], false)
    ensures !ok ==> !NoEmptyText(rows)
  {
    StartAdding(cols, store, rows, row);
    ok := true;
    for j := 0 to |cols|
      invariant Adding(cols, store, rows, row, j)
    {
      assert TypeOf(row[j]) == cols[j].kind;
      hide *;
      ok := AddField(cols, store, rows, row, j, row[j]);
      if !ok { return; }
    }
    EndAdding(cols, store, rows, row);
    ok := true;
  }

  // The values of the parsed columns, line by line.
  method FillColumns(cols: seq<Column>, store: Store, types: seq<Guessing.Guess>, columns: seq<seq<Guessing.Value>>,
      n: nat,
      atof: string -> Bits)
    returns (ok: bool)
    requires AllFor(types, columns) && Even(columns, n) && OfTypes(cols, Kinds(types))
    requires Filled(cols, store, [], false) && RoomFor(cols, n)
    modifies cols, store
    ensures ok ==> Filled(cols, store, RowsOfColumns(types, columns, n, atof), false)
    ensures !ok ==> !NoEmptyText(RowsOfColumns(types, columns, n, atof))
  {
    ghost var rows := RowsOfColumns(types, columns, n, atof);
    ok := true;
    RowsAreTyped(types, columns, n, atof);
    hide Filled, NoEmptyText, RoomFor, TypeOf, KindOf, ToField, Known;
    for i := 0 to n
      invariant Filled(cols, store, rows[..i], false)
    {
      var row := RowAt(types, columns, i, atof);
      assert row == rows[i];
      LimitsLater(cols, i, n);
      ok := AddRow(cols, store, Kinds(types), rows[..i], row);
      if !ok {
        EmptyInPrefix(rows[..i], rows);
        return;
      }
      assert rows[..i + 1] == rows[..i] + [row];
    }
    assert rows[..n] == rows;
    ok := true;
  }

  // ------------------------------------------------------------- a whole file

  // Of a file with these lines: a field in the first 500 lines, no failing
  // assertion in the parse, columns of equal length, and no empty string.
  ghost predicate Succeeds(rows: seq<seq<string>>) {
    && Parser.MostFields(Parser.FirstRows(rows)) > 0 && Parser.Parsed(rows).ok
    && Parser.EqualLengths(Parser.Parsed(rows).columns)
    && NoEmptyStrings(Parser.Parsed(rows).columns)
  }

  lemma ParsedIsTyped(rows: seq<seq<string>>)
    requires Parser.Parsed(rows).ok
    ensures AllFor(Parser.Parsed(rows).guesses, Parser.Parsed(rows).columns)
    ensures |Parser.Parsed(rows).columns| == Parser.MostFields(Parser.FirstRows(rows))
  {
    var types := Parser.TypesOf(Parser.FirstRows(rows));
    Parser.RowsAreConverted(Parser.Empty(types), rows);
    var u := Parser.Parsed(rows);
    hide Parser.TakeRows, Parser.MostFields, Parser.FirstRows, Parser.ColumnTexts, Guessing.Convert, Guessing.IsFor;
    forall j | 0 <= j < |types| ensures ColumnFor(types[j], u.columns[j]) {
      var texts := Parser.ColumnTexts(rows, j);
      assert [] + Guessing.Converted(types[j], texts) == Guessing.Converted(types[j], texts);
      forall i | 0 <= i < |u.columns[j]| ensures Guessing.IsFor(types[j], u.columns[j][i]) {
        Guessing.ConvertedIsFor(types[j], texts[i]);
      }
    }
  }

  method HaveEqualLengths(columns: seq<seq<Guessing.Value>>) returns (equal: bool)
    ensures equal == Parser.EqualLengths(columns)
  {
    for i := 0 to |columns|
      invariant forall j | 0 <= j < i :: |columns[j]| == |columns[0]|
    {
      if |columns[i]| != |columns[0]| { return false; }
    }
    equal := true;
  }

  // What the file's rows are in the frame.
  ghost function RowsRead(rows: seq<seq<string>>, atof: string -> Bits): seq<seq<Field>>
    requires Succeeds(rows)
  {
    ParsedIsTyped(rows);
    var t := Parser.Parsed(rows);
    RowsOfColumns(t.guesses, t.columns, |t.columns[0]|, atof)
  }

  // The field holds the value: an int, a bool and what atof makes of a double
  // as they are, and a string byte by byte.
  predicate IsStoredAs(v: Guessing.Value, f: Field, atof: string -> Bits) {
    match v
    case Int(i) => f == Whole(i)
    case Truth(b) => f == Field.Truth(b)
    case Real(text) => f == Field.Real(atof(text))
    case Str(s) => f.Text? && |f.s| == |s| && forall k | 0 <= k < |s| :: f.s[k] == (s[k] as int) % 256
  }

  // Field j of row i of the frame is element i of the parsed column j.
  lemma CellsOfColumns(types: seq<Guessing.Guess>, columns: seq<seq<Guessing.Value>>, n: nat, atof: string -> Bits,
      i: nat, j: nat)
    requires AllFor(types, columns) && Even(columns, n) && i < n && j < |columns|
    ensures var rows := RowsOfColumns(types, columns, n, atof);
      |rows| == n && |rows[i]| == |columns| && IsStoredAs(columns[j][i], rows[i][j], atof)
  {
    assert ColumnFor(types[j], columns[j]) && Guessing.IsFor(types[j], columns[j][i]);
  }

  lemma FrameCells(rows: seq<seq<string>>, atof: string -> Bits)
    requires Succeeds(rows)
    ensures var read, columns := RowsRead(rows, atof), Parser.Parsed(rows).columns;
      && |columns| == Parser.MostFields(Parser.FirstRows(rows)) > 0
      && (forall j | 0 <= j < |columns| :: |columns[j]| == |read|)
      && (forall i | 0 <= i < |read| :: |read[i]| == |columns|)
      && forall i, j | 0 <= i < |read| && 0 <= j < |columns| :: IsStoredAs(columns[j][i], read[i][j], atof)
  {
    ParsedIsTyped(rows);
    var t := Parser.Parsed(rows);
    var n := |t.columns[0]|;
    hide Parser.Parsed, Parser.MostFields, Parser.FirstRows, AllFor, RowsOfColumns, IsStoredAs, NoEmptyStrings;
    assert Even(t.columns, n);
    forall i, j | 0 <= i < n && 0 <= j < |t.columns|
      ensures var read := RowsOfColumns(t.guesses, t.columns, n, atof);
        |read| == n && |read[i]| == |t.columns| && IsStoredAs(t.columns[j][i], read[i][j], atof)
    {
      CellsOfColumns(t.guesses, t.columns, n, atof, i, j);
    }
    assert |t.columns| > 0;
    forall i | 0 <= i < n ensures |RowsOfColumns(t.guesses, t.columns, n, atof)[i]| == |t.columns| {
      CellsOfColumns(t.guesses, t.columns, n, atof, i, 0);
    }
  }

  // Whatever the file is: the rows of its frame are its lines that have fields,
  // in order, and each field is what the type of its column makes of its text.
  lemma FileBecomesRows(rows: seq<seq<string>>, atof: string -> Bits) returns (at: seq<nat>)
    requires Succeeds(rows)
    ensures Parser.LinesWith(at, rows, 0) && |RowsRead(rows, atof)| == |at|
    ensures |Parser.Parsed(rows).guesses| == Parser.MostFields(Parser.FirstRows(rows)) == Parser.MostFields(rows)
    ensures forall k | 0 <= k < |at| :: |RowsRead(rows, atof)[k]| == |rows[at[k]]| == Parser.MostFields(rows)
    ensures forall k, j | 0 <= k < |at| && 0 <= j < Parser.MostFields(rows) ::
      var made := Guessing.Convert(Parser.Parsed(rows).guesses[j], rows[at[k]][j]);
      made.Gives? && IsStoredAs(made.value, RowsRead(rows, atof)[k][j], atof)
  {
    FrameCells(rows, atof);
    Parser.ColumnsAreEqualExactly(rows);
    Parser.ParsedLengths(rows);
    at := Parser.ColumnsAreTheLines(rows, 0);
    hide Succeeds, Parser.Parsed, Parser.MostFields, Parser.FirstRows, RowsRead, IsStoredAs, Guessing.Convert,
      Parser.Rectangular, Parser.ColumnTexts, Guessing.GuessAll, Guessing.Finished;
    SameLines(rows, at, atof);
    forall k, j | 0 <= k < |at| && 0 <= j < Parser.MostFields(rows)
      ensures var made := Guessing.Convert(Parser.Parsed(rows).guesses[j], rows[at[k]][j]);
        made.Gives? && IsStoredAs(made.value, RowsRead(rows, atof)[k][j], atof)
    {
      assert IsMadeFrom(rows[at[k]], Parser.Parsed(rows), j, k);
      assert IsStoredAs(Parser.Parsed(rows).columns[j][k], RowsRead(rows, atof)[k][j], atof);
    }
  }

  // Element k of column j is made of field j of the line.
  predicate IsMadeFrom(line: seq<string>, t: Parser.Tables, j: nat, k: nat) {
    && j < |line| && j < |t.guesses| && j < |t.columns| && k < |t.columns[j]|
    && Guessing.Convert(t.guesses[j], line[j]) == Guessing.Gives(t.columns[j][k])
  }

  lemma SameLines(rows: seq<seq<string>>, at: seq<nat>, atof: string -> Bits)
    requires Succeeds(rows) && Parser.Rectangular(rows) && Parser.LinesWith(at, rows, 0)
    requires Parser.MostFields(Parser.FirstRows(rows)) == Parser.MostFields(rows) > 0
    requires |Parser.Parsed(rows).columns| == |Parser.Parsed(rows).guesses| == Parser.MostFields(rows)
    ensures forall k | 0 <= k < |at| :: |rows[at[k]]| == Parser.MostFields(rows)
    ensures forall k, j | 0 <= k < |at| && 0 <= j < Parser.MostFields(rows) ::
      IsMadeFrom(rows[at[k]], Parser.Parsed(rows), j, k)
  {
    forall k | 0 <= k < |at| ensures |rows[at[k]]| == Parser.MostFields(rows) { assert 0 < |rows[at[k]]|; }
    assert Parser.Parsed(rows).ok;
    hide Succeeds, Parser.Parsed, Parser.MostFields, Parser.FirstRows, Guessing.Convert, Parser.ColumnTexts,
      Guessing.GuessAll, Guessing.Finished;
    forall k, j | 0 <= k < |at| && 0 <= j < Parser.MostFields(rows)
      ensures IsMadeFrom(rows[at[k]], Parser.Parsed(rows), j, k)
    {
      var there := Parser.ColumnsAreTheLines(rows, j);
      SameInAllColumns(rows, at, there, j);
    }
  }

  lemma SameInAllColumns(rows: seq<seq<string>>, at: seq<nat>, there: seq<nat>, j: nat)
    requires Parser.LinesWith(at, rows, 0) && Parser.LinesWith(there, rows, j) && Parser.Rectangular(rows)
    requires j < Parser.MostFields(rows)
    ensures at == there
  {
    hide Parser.MostFields;
    forall x: nat ensures x in at <==> x in there {
      if x in at {
        var k :| 0 <= k < |at| && at[k] == x;
        assert j < |rows[x]|;
      }
      if x in there {
        var k :| 0 <= k < |there| && there[k] == x;
        assert 0 < |rows[x]|;
      }
    }
    IncreasingIsUnique(at, there);
  }

  lemma SomeMember(b: seq<nat>)
    ensures b != [] ==> exists x: nat :: x in b
  {
    if b != [] { assert b[0] in b; }
  }

  lemma {:induction false} IncreasingIsUnique(a: seq<nat>, b: seq<nat>)
    requires (forall k, l | 0 <= k < l < |a| :: a[k] < a[l]) && (forall k, l | 0 <= k < l < |b| :: b[k] < b[l])
    requires forall x: nat :: x in a <==> x in b
    ensures a == b
  {
    if a == [] {
      SomeMember(b);
    } else {
      assert a[0] in a && a[0] in b;
      assert b[0] in b && b[0] in a;
      assert a[0] == b[0];
      forall x: nat ensures x in a[1..] <==> x in b[1..] {
        assert x in a <==> x == a[0] || x in a[1..];
        assert x in b <==> x == b[0] || x in b[1..];
        assert a[0] !in a[1..] && b[0] !in b[1..];
      }
      IncreasingIsUnique(a[1..], b[1..]);
      assert a == [a[0]] + a[1..] && b == [b[0]] + b[1..];
    }
  }

  // fromSorFile up to the put of the frame: a frame that holds the parsed rows,
  // or not ok for a failing assertion.
  method FromSorFile(content: string, store: Store, ids: seq<string>, cap: nat, atof: string -> Bits)
    returns (ok: bool, frame: DataFrame?)
    requires store.nodes > 0 && 0 < cap < LONG_SPAN
    requires forall i | 0 <= i < |ids| :: PlainId(ids[i]) && |Lines.LinesOf(content)| <= Limit(ids[i]) * cap
    requires forall i, j | 0 <= i < j < |ids| :: ids[i] != ids[j]
    requires |ids| >= Parser.MostFields(Parser.FirstRows(Parser.RowsOf(Lines.LinesOf(content))))
    modifies store
    ensures ok <==> Succeeds(Parser.RowsOf(Lines.LinesOf(content)))
    ensures ok ==> frame != null && frame.Holds(RowsRead(Parser.RowsOf(Lines.LinesOf(content)), atof))
    ensures ok ==> frame.types == Kinds(Parser.Parsed(Parser.RowsOf(Lines.LinesOf(content))).guesses)
    ensures ok ==> fresh(frame) && fresh(frame.columns)
  {
    ghost var lines := Parser.RowsOf(Lines.LinesOf(content));
    frame := null;
    hide Parser.MostFields, Parser.Parsed, Parser.EqualLengths, Parser.FirstRows, Lines.LinesOf, NoEmptyStrings, Limit,
      PlainId, AllFor, Kinds;
    var types, columns;
    ok, types, columns := Parser.ParseWhole(content);
    if !ok { return; }
    ParsedIsTyped(lines);
    ok := HaveEqualLengths(columns);
    if !ok { return; }
    LengthsOfParsed(lines, |columns[0]|);
    ok, frame := FrameOfColumns(types, columns, |columns[0]|, store, ids[..|columns|], cap, atof);
  }

  lemma LengthsOfParsed(rows: seq<seq<string>>, n: nat)
    requires Parser.Parsed(rows).ok && Parser.EqualLengths(Parser.Parsed(rows).columns)
    requires Parser.MostFields(Parser.FirstRows(rows)) > 0
    requires |Parser.Parsed(rows).columns| > 0 ==> n == |Parser.Parsed(rows).columns[0]|
    ensures |Parser.Parsed(rows).columns| > 0 && Even(Parser.Parsed(rows).columns, n) && n <= |rows|
  {
    ParsedIsTyped(rows);
    Parser.RowsAreConverted(Parser.Empty(Parser.TypesOf(Parser.FirstRows(rows))), rows);
    ColumnIsShort(rows, 0);
    hide Parser.TakeRows, Parser.MostFields, Parser.ColumnTexts, Guessing.Convert, Parser.FirstRows, AllFor;
  }

  lemma {:induction false} ColumnIsShort(rows: seq<seq<string>>, j: nat)
    ensures |Parser.ColumnTexts(rows, j)| <= |rows|
  {
    if rows != [] { ColumnIsShort(rows[..|rows| - 1], j); }
  }

  // Real columns for the parsed ones, and the frame over them.
  method FrameOfColumns(types: seq<Guessing.Guess>, columns: seq<seq<Guessing.Value>>, n: nat, store: Store,
      ids: seq<string>, cap: nat, atof: string -> Bits)
    returns (ok: bool, frame: DataFrame?)
    requires store.nodes > 0 && 0 < cap < LONG_SPAN && |ids| == |columns| > 0
    requires AllFor(types, columns) && Even(columns, n)
    requires forall i | 0 <= i < |ids| :: PlainId(ids[i]) && n <= Limit(ids[i]) * cap
    requires forall i, j | 0 <= i < j < |ids| :: ids[i] != ids[j]
    modifies store
    ensures ok <==> NoEmptyStrings(columns)
    ensures ok ==> frame != null && frame.Holds(RowsOfColumns(types, columns, n, atof)) && frame.types == Kinds(types)
    ensures ok ==> fresh(frame) && fresh(frame.columns)
  {
    frame := null;
    EmptyFields(types, columns, n, atof);
    RowsAreTyped(types, columns, n, atof);
    hide NoEmptyStrings, NoEmptyText, Filled, Known, ColumnFor, Even;
    var cols := MakeColumns(store, Kinds(types), ids, cap);
    ok := FillColumns(cols, store, types, columns, n, atof);
    if !ok { return; }
    ok, frame := NewFrame(cols, store, Kinds(types), cap, RowsOfColumns(types, columns, n, atof));
  }

  // ------------------------------------------------------------------- exactly

  // A field that a string column can store.
  predicate Storable(g: Guessing.Guess, field: string) {
    g == Guessing.Text ==> Scanner.Trimmed(Scanner.Trimmed(field, ' '), '"') != ""
  }

  predicate AllStorable(rows: seq<seq<string>>, types: seq<Guessing.Guess>) {
    forall i, j | 0 <= i < |rows| && 0 <= j < |rows[i]| && j < |types| :: Storable(types[j], rows[i][j])
  }

  lemma StorableIsNotEmpty(g: Guessing.Guess, field: string)
    requires Guessing.Convert(g, field).Gives?
    ensures Guessing.Convert(g, field).value != Guessing.Str("") <==> Storable(g, field)
  {
    hide Scanner.Trimmed, Scanner.IntOf;
  }

  lemma {:induction false} ColumnField(rows: seq<seq<string>>, j: nat, k: nat) returns (i: nat)
    requires k < |Parser.ColumnTexts(rows, j)|
    ensures i < |rows| && j < |rows[i]| && rows[i][j] == Parser.ColumnTexts(rows, j)[k]
  {
    var init := rows[..|rows| - 1];
    if k < |Parser.ColumnTexts(init, j)| {
      i := ColumnField(init, j, k);
    } else {
      i := |rows| - 1;
    }
  }

  lemma StorableByColumns(rows: seq<seq<string>>)
    requires Parser.Parsed(rows).ok
    ensures NoEmptyStrings(Parser.Parsed(rows).columns)
      <==> AllStorable(rows, Parser.TypesOf(Parser.FirstRows(rows)))
  {
    var types := Parser.TypesOf(Parser.FirstRows(rows));
    var u := Parser.Parsed(rows);
    Parser.RowsAreConverted(Parser.Empty(types), rows);
    hide Parser.TakeRows, Parser.MostFields, Guessing.Convert, Storable, Parser.LineConverts;
    assert |u.columns| == |types|;
    forall j | 0 <= j < |types|
      ensures NoEmptyString(u.columns[j])
        <==> forall i | 0 <= i < |rows| && j < |rows[i]| :: Storable(types[j], rows[i][j])
    {
      ColumnIsStorable(rows, j, types[j], u.columns[j]);
    }
  }

  lemma ColumnIsStorable(rows: seq<seq<string>>, j: nat, g: Guessing.Guess, column: seq<Guessing.Value>)
    requires Guessing.Converts(g, Parser.ColumnTexts(rows, j))
    requires column == [] + Guessing.Converted(g, Parser.ColumnTexts(rows, j))
    ensures NoEmptyString(column) <==> forall i | 0 <= i < |rows| && j < |rows[i]| :: Storable(g, rows[i][j])
  {
    var texts := Parser.ColumnTexts(rows, j);
    hide Guessing.Convert, Storable, Parser.ColumnTexts;
    if NoEmptyString(column) {
      forall i | 0 <= i < |rows| && j < |rows[i]| ensures Storable(g, rows[i][j]) {
        Parser.FieldIsInColumn(rows, i, j);
        var k :| 0 <= k < |texts| && texts[k] == rows[i][j];
        StorableIsNotEmpty(g, texts[k]);
        assert column[k] == Guessing.Convert(g, texts[k]).value;
      }
    }
    if forall i | 0 <= i < |rows| && j < |rows[i]| :: Storable(g, rows[i][j]) {
      forall k | 0 <= k < |column| ensures column[k] != Guessing.Str("") {
        var i := ColumnField(rows, j, k);
        StorableIsNotEmpty(g, texts[k]);
      }
    }
  }

  // A file is read without a failing assertion exactly when a field is in the
  // first 500 lines, no field is blank, strings are short enough and not empty
  // inside their quotes, each line has all fields or none, and lines after the
  // first 500 have 0 or 1 in the bool columns.
  lemma SorFileIsReadExactly(content: string)
    ensures var rows := Parser.RowsOf(Lines.LinesOf(content));
      var types := Parser.TypesOf(Parser.FirstRows(rows));
      Succeeds(rows) <==>
        && Parser.MostFields(Parser.FirstRows(rows)) > 0 && Parser.Rectangular(rows)
        && Parser.AllAcceptable(rows, types) && Parser.LaterBools(rows, types) && AllStorable(rows, types)
  {
    var rows := Parser.RowsOf(Lines.LinesOf(content));
    Parser.GuessIsSoundForTheParse(rows);
    if Parser.Parsed(rows).ok && Parser.MostFields(Parser.FirstRows(rows)) > 0 {
      Parser.ColumnsAreEqualExactly(rows);
      StorableByColumns(rows);
    }
    hide Parser.Parsed, Parser.AllAcceptable, Parser.LaterBools, Parser.Rectangular, Parser.TypesOf, Parser.FirstRows,
      Parser.EqualLengths, Parser.RowsOf, Lines.LinesOf, Parser.MostFields, AllStorable, NoEmptyStrings;
  }
}
