// Tables written as SoR text: when reading the text gives the table back.

module SorTables {
  import opened Ints
  import opened SegmentNames
  import Arrays
  import Columns
  import Frames
  import opened Lines
  import opened Scanner
  import opened Guessing
  import opened Parser
  import opened SorFrames

  function ShowInt(i: int): string {
    if i < 0 then "-" + Decimal(-i) else Decimal(i)
  }

  // How a value is written in a field.
  function Show(v: Value): string {
    match v
    case Str(s) => "\"" + s + "\""
    case Int(i) => ShowInt(i)
    case Real(text) => text
    case Truth(b) => if b then "1" else "0"
  }

  predicate NoneOf(s: string, chars: string) {
    forall i | 0 <= i < |s| :: s[i] !in chars
  }

  // A value that has a written form: no quotes, newlines or NULs in strings, and
  // doubles as a text with a dot that is not blank at its ends.
  predicate CellOk(v: Value) {
    match v
    case Str(s) => NoneOf(s, "\"\n\0") && |s| <= MAX_STRING
    case Int(_) => true
    case Real(text) => NoneOf(text, "<>\"\n\0") && '.' in text && text[0] != ' ' && text[|text| - 1] != ' '
    case Truth(_) => true
  }

  function TypeOf(v: Value): Guess {
    match v
    case Str(_) => Text
    case Int(_) => Integer
    case Real(_) => Double
    case Truth(_) => Bool
  }

  // ------------------------------------------------------------- a single value

  lemma TrimmedSame(s: string, c: char)
    requires s == "" || (s[0] != c && s[|s| - 1] != c)
    ensures Trimmed(s, c) == s
  {
  }

  lemma QuotesAreCut(s: string)
    requires NoneOf(s, "\"\n\0")
    ensures Trimmed("\"" + s + "\"", '"') == s
  {
    var t := s + "\"";
    assert "\"" + s + "\"" == "\"" + t && ("\"" + t)[1..] == t;
    if s == "" {
      assert t[1..] == "" && TrimmedStart("", '"') == "";
      assert TrimmedStart(t, '"') == "";
    } else {
      assert s[0] != '"' && s[|s| - 1] != '"';
      assert TrimmedStart(t, '"') == t;
      assert t[..|t| - 1] == s;
      assert TrimmedEnd(s, '"') == s;
    }
  }

  lemma {:induction false} DecimalIsDigits(n: nat)
    ensures Decimal(n) != "" && forall i | 0 <= i < |Decimal(n)| :: IsDigit(Decimal(n)[i])
  {
    ValueOfDecimal(n);
    DecimalIsNotEmpty(n);
  }

  lemma ShownInt(i: int32)
    ensures var s := Show(Int(i)); Trimmed(s, ' ') == s != "" && IntOf(s) == i && '.' !in s && HasNumeric(s)
    ensures NoneOf(Show(Int(i)), "<>\"\n\0")
  {
    var n: int := if i < 0 then 0 - (i as int) else i as int;
    var s := Show(Int(i));
    DecimalIsDigits(n);
    DecimalsAreReadBack(n, "");
    IntsFitExactly(i);
    hide Decimal, IntOf, ToInt32, Trimmed, HasNumeric, NoneOf, IsDigit;
    assert Decimal(n) + "" == Decimal(n);
    assert forall k | 0 <= k < |s| :: IsDigit(s[k]) || s[k] == '-';
    DigitsOnly(s);
  }

  lemma DigitsOnly(s: string)
    requires s != "" && forall k | 0 <= k < |s| :: IsDigit(s[k]) || s[k] == '-'
    ensures Trimmed(s, ' ') == s && '.' !in s && HasNumeric(s) && NoneOf(s, "<>\"\n\0")
  {
    TrimmedSame(s, ' ');
    assert IsNumeric(s[0]);
    hide Trimmed;
  }

  lemma QuotedIsZero(s: string)
    ensures IntOf("\"" + s + "\"") == 0
  {
    var t := "\"" + s + "\"";
    PrefixIs(t, 0);
    assert t[..0] == "";
  }

  // A written value is converted back by its type.
  lemma ShownConverts(v: Value)
    requires CellOk(v)
    ensures Convert(TypeOf(v), Show(v)) == Gives(v)
  {
    match v
    case Str(s) =>
      TrimmedSame(Show(v), ' ');
      QuotesAreCut(s);
    case Int(i) => ShownInt(i); hide IntOf, Trimmed;
    case Real(text) => TrimmedSame(text, ' ');
    case Truth(b) => ShownBit(b);
  }

  lemma ShownBit(b: bool)
    ensures var s := Show(Truth(b));
      && Trimmed(s, ' ') == s && IntOf(s) == (if b then 1 else 0) && '.' !in s && HasNumeric(s)
  {
    var s := Show(Truth(b));
    ShownInt(if b then 1 else 0);
    assert s == Show(Int(if b then 1 else 0));
    hide IntOf, Trimmed;
  }

  // The class of a written value: a string looks like a string only if it has
  // none of the characters "+-.0123456789".
  function ShownClass(v: Value): Guess {
    match v
    case Str(s) => if '.' in s then Double else if NoNumber(s) then Text else Bool
    case Int(i) => if i == 0 || i == 1 then Bool else Integer
    case Real(_) => Double
    case Truth(_) => Bool
  }

  lemma ClassOfShown(v: Value)
    requires CellOk(v)
    ensures ClassOf(Show(v)) == ShownClass(v)
  {
    match v
    case Str(s) =>
      TrimmedSame(Show(v), ' ');
      QuotedIsZero(s);
      QuotesAreNotNumeric(s);
      hide Trimmed, IntOf;
    case Int(i) => ShownInt(i); hide Trimmed, IntOf;
    case Real(text) => TrimmedSame(text, ' '); hide Trimmed, IntOf;
    case Truth(b) => ShownBit(b); hide Trimmed, IntOf;
  }

  lemma QuotesAreNotNumeric(s: string)
    ensures HasNumeric("\"" + s + "\"") <==> !NoNumber(s)
    ensures '.' in "\"" + s + "\"" <==> '.' in s
  {
    var t := "\"" + s + "\"";
    NumericByCharacters(t);
    hide HasNumeric;
    if !NoNumber(s) {
      var i :| 0 <= i < |s| && s[i] in "+-.0123456789";
      assert t[i + 1] in "+-.0123456789";
    }
    if !NoNumber(t) {
      var i :| 0 <= i < |t| && t[i] in "+-.0123456789";
      assert t[i] != '"' && t[i] == s[i - 1];
    }
  }

  // ------------------------------------------------------------------ a table

  function ShownRow(row: seq<Value>): seq<string> {
    seq(|row|, j requires 0 <= j < |row| => Show(row[j]))
  }

  function PrintedRow(row: seq<Value>): seq<Printed> {
    seq(|row|, j requires 0 <= j < |row| => Printed("", Show(row[j])))
  }

  function ShowRow(row: seq<Value>): string {
    Print(PrintedRow(row))
  }

  function ShownRows(rows: seq<seq<Value>>): seq<seq<string>> {
    seq(|rows|, i requires 0 <= i < |rows| => ShownRow(rows[i]))
  }

  function ShowLines(rows: seq<seq<Value>>): seq<string> {
    seq(|rows|, i requires 0 <= i < |rows| => ShowRow(rows[i]))
  }

  // The file of a table: one line a row.
  function ShowTable(rows: seq<seq<Value>>): string {
    Terminated(ShowLines(rows))
  }

  predicate RowOk(row: seq<Value>, types: seq<Guess>) {
    |row| == |types| && forall j | 0 <= j < |row| :: CellOk(row[j]) && TypeOf(row[j]) == types[j]
  }

  predicate TableOk(rows: seq<seq<Value>>, types: seq<Guess>) {
    |rows| > 0 && |types| > 0 && forall i | 0 <= i < |rows| :: RowOk(rows[i], types)
  }

  lemma {:induction false} NoQuotesNoBrackets(f: string)
    requires NoneOf(f, "<>\"\n\0")
    ensures Balanced(f, false)
  {
    if f != "" {
      assert f[0] !in "<>\"\n\0";
      NoQuotesNoBrackets(f[1..]);
    }
  }

  lemma {:induction false} InsideQuotes(s: string)
    requires NoneOf(s, "\"\n\0")
    ensures Balanced(s + "\"", true)
  {
    if s == "" {
      assert s + "\"" == "\"" && ("\"")[1..] == "";
    } else {
      assert s[0] !in "\"\n\0";
      assert (s + "\"")[1..] == s[1..] + "\"";
      InsideQuotes(s[1..]);
    }
  }

  lemma ShownIsPrintable(v: Value)
    requires CellOk(v)
    ensures Printable(Printed("", Show(v))) && '\n' !in Show(v) && '\0' !in Show(v)
  {
    match v
    case Str(s) =>
      InsideQuotes(s);
      assert (Show(v))[1..] == s + "\"";
    case Int(i) =>
      ShownInt(i);
      NoQuotesNoBrackets(Show(v));
      hide Decimal;
    case Real(text) => NoQuotesNoBrackets(text);
    case Truth(b) => NoQuotesNoBrackets(Show(v));
  }

  lemma {:induction false} FieldsOfPrinted(row: seq<Value>)
    ensures FieldsPrinted(PrintedRow(row)) == ShownRow(row)
  {
    hide Show;
    if row != [] {
      FieldsOfPrinted(row[1..]);
      assert PrintedRow(row)[1..] == PrintedRow(row[1..]);
      assert ShownRow(row) == [Show(row[0])] + ShownRow(row[1..]);
    }
  }

  lemma {:induction false} PrintIsOneLine(ps: seq<Printed>)
    requires forall i | 0 <= i < |ps| :: ps[i].gap == "" && '\n' !in ps[i].field && '\0' !in ps[i].field
    ensures OneLine(Print(ps)) && '\0' !in Print(ps)
  {
    if ps != [] { PrintIsOneLine(ps[1..]); }
  }

  lemma RowIsReadBack(row: seq<Value>)
    requires forall j | 0 <= j < |row| :: CellOk(row[j])
    ensures LineFields(ShowRow(row)) == ShownRow(row) && OneLine(ShowRow(row))
  {
    var ps := PrintedRow(row);
    forall j | 0 <= j < |ps|
      ensures Printable(ps[j]) && ps[j].gap == "" && '\n' !in ps[j].field && '\0' !in ps[j].field
    {
      ShownIsPrintable(row[j]);
    }
    hide CellOk, Show, Printable, Print, OneLine;
    ScanUndoesPrint(ps, "");
    assert Print(ps) + "" == Print(ps);
    FieldsOfPrinted(row);
    PrintIsOneLine(ps);
    assert CString(ShowRow(row)) == ShowRow(row);
  }

  lemma TableIsScanned(rows: seq<seq<Value>>, types: seq<Guess>)
    requires TableOk(rows, types)
    ensures RowsOf(LinesOf(ShowTable(rows))) == ShownRows(rows)
  {
    var lines := ShowLines(rows);
    forall i | 0 <= i < |rows| ensures OneLine(lines[i]) && LineFields(lines[i]) == ShownRow(rows[i]) {
      assert RowOk(rows[i], types);
      RowIsReadBack(rows[i]);
    }
    hide OneLine, LineFields, ShownRow, ShowRow, LinesOf, Terminated, CellOk;
    LinesAreReadBack(lines, "");
    assert Terminated(lines) + "" == Terminated(lines);
  }

  // ------------------------------------------------------------ the types found

  // Some cell of the column in these rows shows that it is of its type: an int
  // other than 0 and 1, or a string without any character of a number.
  ghost predicate Decides(rows: seq<seq<Value>>, types: seq<Guess>, j: nat)
    requires TableOk(rows, types) && j < |types|
  {
    (types[j] == Integer || types[j] == Text) ==> exists i :: 0 <= i < |rows| && ShownClass(rows[i][j]) == types[j]
  }

  lemma ShownColumn(rows: seq<seq<Value>>, types: seq<Guess>, j: nat)
    requires TableOk(rows, types) && j < |types|
    ensures var texts := ColumnTexts(ShownRows(rows), j);
      |texts| == |rows| && forall i | 0 <= i < |rows| :: texts[i] == Show(rows[i][j])
  {
    ColumnsHoldTheLines(ShownRows(rows), j);
    hide ColumnTexts, Show, CellOk;
  }

  // The guess for a column is its type exactly if some cell decides it.
  lemma GuessIsTheType(rows: seq<seq<Value>>, types: seq<Guess>, j: nat)
    requires TableOk(rows, types) && j < |types|
    ensures Finished(GuessAll(Unknown, ColumnTexts(ShownRows(rows), j))) == types[j] <==> Decides(rows, types, j)
  {
    var texts := ColumnTexts(ShownRows(rows), j);
    ShownColumn(rows, types, j);
    GuessIsTheJoin(Unknown, texts);
    forall i | 0 <= i < |rows| ensures ClassOf(texts[i]) == ShownClass(rows[i][j]) && texts[i] in texts {
      assert RowOk(rows[i], types);
      ClassOfShown(rows[i][j]);
    }
    hide GuessAll, ColumnTexts, ClassOf, Show, CellOk;
    var g := GuessAll(Unknown, texts);
    BoundsOfGuess(rows, types, j, texts, g);
  }

  // g bounds the classes of the column and is one of them.
  lemma BoundsOfGuess(rows: seq<seq<Value>>, types: seq<Guess>, j: nat, texts: seq<string>, g: Guess)
    requires TableOk(rows, types) && j < |types| && |texts| == |rows|
    requires forall i | 0 <= i < |rows| :: ClassOf(texts[i]) == ShownClass(rows[i][j])
    requires forall f | f in texts :: Rank(ClassOf(f)) <= Rank(g)
    requires g == Unknown || exists f :: f in texts && ClassOf(f) == g
    ensures Finished(g) == types[j] <==> Decides(rows, types, j)
  {
    hide ClassOf, CellOk;
    assert texts[0] in texts && RowOk(rows[0], types);
    if g != Unknown {
      var f :| f in texts && ClassOf(f) == g;
      var i :| 0 <= i < |texts| && texts[i] == f;
      assert RowOk(rows[i], types) && ShownClass(rows[i][j]) == g;
    }
    forall i | 0 <= i < |rows| ensures Rank(ShownClass(rows[i][j])) <= Rank(g) && TypeOf(rows[i][j]) == types[j] {
      assert texts[i] in texts && RowOk(rows[i], types);
    }
  }

  // ------------------------------------------------------------- the round trip

  lemma WidthOfTable(rows: seq<seq<Value>>, types: seq<Guess>)
    requires TableOk(rows, types)
    ensures MostFields(ShownRows(rows)) == |types|
  {
    MostFieldsIsTheMaximum(ShownRows(rows));
    hide MostFields, Show, CellOk;
    forall i | 0 <= i < |rows| ensures |ShownRows(rows)[i]| == |types| { assert RowOk(rows[i], types); }
  }

  lemma TypesOfTable(rows: seq<seq<Value>>, types: seq<Guess>)
    requires TableOk(rows, types)
    ensures MostFields(ShownRows(rows)) == |TypesOf(ShownRows(rows))| == |types|
    ensures forall j | 0 <= j < |types| :: TypesOf(ShownRows(rows))[j] == types[j] <==> Decides(rows, types, j)
  {
    WidthOfTable(rows, types);
    hide MostFields, GuessAll, ColumnTexts, ShownRows, TableOk, Decides, Finished;
    forall j | 0 <= j < |types| ensures TypesOf(ShownRows(rows))[j] == types[j] <==> Decides(rows, types, j) {
      GuessIsTheType(rows, types, j);
    }
  }

  // The sample that decides the types: the first rows.
  lemma TypesOfSample(rows: seq<seq<Value>>, types: seq<Guess>)
    requires TableOk(rows, types)
    ensures TableOk(FirstRows(rows), types)
    ensures var sample := FirstRows(ShownRows(rows));
      && MostFields(sample) == |TypesOf(sample)| == |types|
      && forall j | 0 <= j < |types| :: TypesOf(sample)[j] == types[j] <==> Decides(FirstRows(rows), types, j)
  {
    assert FirstRows(ShownRows(rows)) == ShownRows(FirstRows(rows));
    TypesOfTable(FirstRows(rows), types);
    hide TypesOf, MostFields, ShownRows;
  }

  // The columns are the table's.
  ghost predicate SameTable(columns: seq<seq<Value>>, rows: seq<seq<Value>>, types: seq<Guess>)
    requires TableOk(rows, types)
  {
    |columns| == |types| && forall j | 0 <= j < |types| :: SameColumn(columns[j], rows, types, j)
  }

  ghost predicate SameColumn(column: seq<Value>, rows: seq<seq<Value>>, types: seq<Guess>, j: nat)
    requires TableOk(rows, types) && j < |types|
  {
    |column| == |rows| && forall i | 0 <= i < |rows| :: column[i] == rows[i][j]
  }

  lemma ConvertedKind(g: Guess, f: string)
    requires Convert(g, f).Gives?
    ensures TypeOf(Convert(g, f).value) == g
  {
    hide Trimmed, IntOf;
  }

  // A column of a table, converted by its type, is the column; by another type
  // it is not.
  lemma ColumnIsReadBack(rows: seq<seq<Value>>, types: seq<Guess>, j: nat, g: Guess)
    requires TableOk(rows, types) && j < |types|
    ensures var texts := ColumnTexts(ShownRows(rows), j);
      && (g == types[j] ==> Converts(g, texts) && SameColumn(Converted(g, texts), rows, types, j))
      && (Converts(g, texts) && SameColumn(Converted(g, texts), rows, types, j) ==> g == types[j])
  {
    var texts := ColumnTexts(ShownRows(rows), j);
    ShownColumn(rows, types, j);
    hide ColumnTexts, Show, CellOk, Convert;
    forall i | 0 <= i < |rows| ensures Convert(types[j], texts[i]) == Gives(rows[i][j]) {
      assert RowOk(rows[i], types);
      ShownConverts(rows[i][j]);
    }
    if Converts(g, texts) {
      ConvertedKind(g, texts[0]);
      ConvertedKind(types[j], texts[0]);
    }
  }

  lemma {:induction false} LinesConvertIfColumnsDo(rows: seq<seq<string>>, types: seq<Guess>)
    requires forall i | 0 <= i < |rows| :: |rows[i]| == |types|
    requires forall j | 0 <= j < |types| :: Converts(types[j], ColumnTexts(rows, j))
    ensures forall i | 0 <= i < |rows| :: LineConverts(types, rows[i])
  {
    hide Convert, ColumnTexts;
    forall i | 0 <= i < |rows| ensures LineConverts(types, rows[i]) {
      forall j | 0 <= j < |types| ensures Convert(types[j], rows[i][j]).Gives? {
        ColumnsHoldTheLines(rows, j);
        assert ColumnTexts(rows, j)[i] == rows[i][j];
      }
    }
  }

  // What parsing the written table gives.
  lemma ParsedTable(rows: seq<seq<Value>>, types: seq<Guess>)
    requires TableOk(rows, types)
    ensures var shown := ShownRows(rows);
      var found, read := TypesOf(FirstRows(shown)), Parsed(shown);
      && |found| == |read.columns| == |types|
      && (read.ok <==> forall i | 0 <= i < |shown| :: LineConverts(found, shown[i]))
      && (read.ok ==> forall j | 0 <= j < |types| ::
           Converts(found[j], ColumnTexts(shown, j)) && read.columns[j] == Converted(found[j], ColumnTexts(shown, j)))
  {
    var shown := ShownRows(rows);
    WidthsOfShown(rows, types);
    TypesOfSample(rows, types);
    RowsAreConverted(Empty(TypesOf(FirstRows(shown))), shown);
    hide FirstRows, MostFields, TakeRows, ColumnTexts, Convert, ShownRows, LineConverts, Converted, Converts, GuessAll,
      Finished;
  }

  lemma SameTableIsEven(columns: seq<seq<Value>>, rows: seq<seq<Value>>, types: seq<Guess>)
    requires TableOk(rows, types) && SameTable(columns, rows, types)
    ensures EqualLengths(columns)
  {
    hide TableOk;
    forall j | 0 <= j < |columns| ensures |columns[j]| == |rows| { assert SameColumn(columns[j], rows, types, j); }
  }

  // No string of the table is empty.
  ghost predicate NoEmptyCells(rows: seq<seq<Value>>) {
    forall i, j | 0 <= i < |rows| && 0 <= j < |rows[i]| :: rows[i][j] != Str("")
  }

  lemma EmptyCells(columns: seq<seq<Value>>, rows: seq<seq<Value>>, types: seq<Guess>)
    requires TableOk(rows, types) && SameTable(columns, rows, types)
    ensures NoEmptyStrings(columns) <==> NoEmptyCells(rows)
  {
    hide CellOk;
    if NoEmptyStrings(columns) {
      forall i, j | 0 <= i < |rows| && 0 <= j < |rows[i]| ensures rows[i][j] != Str("") {
        assert RowOk(rows[i], types) && SameColumn(columns[j], rows, types, j);
        assert NoEmptyString(columns[j]) && columns[j][i] == rows[i][j];
      }
    }
    if NoEmptyCells(rows) {
      forall j | 0 <= j < |columns| ensures NoEmptyString(columns[j]) {
        assert SameColumn(columns[j], rows, types, j);
        forall i | 0 <= i < |columns[j]| ensures columns[j][i] != Str("") {
          assert RowOk(rows[i], types);
          assert columns[j][i] == rows[i][j];
        }
      }
    }
  }

  lemma SucceedsIf(rows: seq<seq<string>>)
    requires MostFields(FirstRows(rows)) > 0 && Parsed(rows).ok
    requires EqualLengths(Parsed(rows).columns)
    ensures Succeeds(rows) <==> NoEmptyStrings(Parsed(rows).columns)
  {
    hide Parsed, EqualLengths, MostFields, NoEmptyStrings;
  }

  lemma DecidedTableIsRead(rows: seq<seq<Value>>, types: seq<Guess>)
    requires TableOk(rows, types) && TypesOf(FirstRows(ShownRows(rows))) == types
    ensures Succeeds(ShownRows(rows)) <==> NoEmptyCells(rows)
    ensures SameTable(Parsed(ShownRows(rows)).columns, rows, types)
  {
    var shown := ShownRows(rows);
    var read := Parsed(shown);
    ParsedTable(rows, types);
    TypesOfSample(rows, types);
    WidthsOfShown(rows, types);
    hide *;
    forall j | 0 <= j < |types|
      ensures Converts(types[j], ColumnTexts(shown, j))
      ensures SameColumn(Converted(types[j], ColumnTexts(shown, j)), rows, types, j)
    {
      ColumnIsReadBack(rows, types, j, types[j]);
    }
    LinesConvertIfColumnsDo(shown, types);
    assert read.ok;
    IsSameTable(read.columns, rows, types);
    SameTableIsEven(read.columns, rows, types);
    EmptyCells(read.columns, rows, types);
    NotEmpty(rows, types);
    SucceedsIf(shown);
  }

  lemma NotEmpty(rows: seq<seq<Value>>, types: seq<Guess>)
    requires TableOk(rows, types)
    ensures |types| > 0
  {
  }

  lemma IsSameTable(columns: seq<seq<Value>>, rows: seq<seq<Value>>, types: seq<Guess>)
    requires TableOk(rows, types) && |columns| == |types|
    requires forall j | 0 <= j < |types| :: SameColumn(columns[j], rows, types, j)
    ensures SameTable(columns, rows, types)
  {
    hide SameColumn, TableOk;
  }

  lemma ReadTableIsDecided(rows: seq<seq<Value>>, types: seq<Guess>)
    requires TableOk(rows, types)
    requires Parsed(ShownRows(rows)).ok && SameTable(Parsed(ShownRows(rows)).columns, rows, types)
    ensures TypesOf(FirstRows(ShownRows(rows))) == types
  {
    var shown := ShownRows(rows);
    var found := TypesOf(FirstRows(shown));
    ParsedTable(rows, types);
    hide FirstRows, Parsed, TypesOf, ColumnTexts, ShownRows, Converted, Converts, LineConverts, SameColumn;
    forall j | 0 <= j < |types| ensures found[j] == types[j] {
      ColumnIsReadBack(rows, types, j, found[j]);
    }
  }

  // A table that is written as a file is read back from it exactly when, in its
  // first 500 rows, every int column has a value other than 0 and 1 and every
  // string column has a string without any character of a number, and no
  // string of the table is empty.
  lemma TableIsReadBackExactly(rows: seq<seq<Value>>, types: seq<Guess>)
    requires TableOk(rows, types)
    ensures var read := RowsOf(LinesOf(ShowTable(rows)));
      Succeeds(read) && SameTable(Parsed(read).columns, rows, types)
      <==> NoEmptyCells(rows) && forall j | 0 <= j < |types| :: Decides(FirstRows(rows), types, j)
  {
    TableIsScanned(rows, types);
    TypesOfSample(rows, types);
    var read := ShownRows(rows);
    hide FirstRows, TypesOf, Decides, SameTable, LinesOf, RowsOf, ShowTable, ShownRows, TableOk, NoEmptyCells;
    if forall j | 0 <= j < |types| :: Decides(FirstRows(rows), types, j) {
      DecidedTableIsRead(rows, types);
    }
    if Parsed(read).ok && SameTable(Parsed(read).columns, rows, types) {
      hide Parsed;
      ReadTableIsDecided(rows, types);
    }
  }

  // The rows of a decided table in the frame: field j of row i holds cell j of
  // row i, whatever it is.
  ghost predicate HoldsCells(held: seq<seq<Arrays.Field>>, rows: seq<seq<Value>>, atof: string -> Arrays.Bits) {
    && |held| == |rows|
    && (forall i | 0 <= i < |rows| :: |held[i]| == |rows[i]|)
    && forall i, j | 0 <= i < |rows| && 0 <= j < |rows[i]| :: IsStoredAs(rows[i][j], held[i][j], atof)
  }

  lemma FrameOfTable(rows: seq<seq<Value>>, types: seq<Guess>, atof: string -> Arrays.Bits)
    requires TableOk(rows, types) && forall j | 0 <= j < |types| :: Decides(FirstRows(rows), types, j)
    ensures Succeeds(RowsOf(LinesOf(ShowTable(rows)))) <==> NoEmptyCells(rows)
    ensures NoEmptyCells(rows) ==> HoldsCells(RowsRead(RowsOf(LinesOf(ShowTable(rows))), atof), rows, atof)
  {
    TableIsReadBackExactly(rows, types);
    TableIsScanned(rows, types);
    TypesOfSample(rows, types);
    var read := ShownRows(rows);
    hide *;
    SameTypes(TypesOf(FirstRows(read)), types);
    DecidedTableIsRead(rows, types);
    if NoEmptyCells(rows) {
      FrameCells(read, atof);
      CellsAreHeld(RowsRead(read, atof), Parsed(read).columns, rows, types, atof);
    }
  }

  lemma CellsAreHeld(held: seq<seq<Arrays.Field>>, columns: seq<seq<Value>>, rows: seq<seq<Value>>, types: seq<Guess>,
      atof: string -> Arrays.Bits)
    requires TableOk(rows, types) && SameTable(columns, rows, types)
    requires (forall j | 0 <= j < |columns| :: |columns[j]| == |held|)
    requires forall i | 0 <= i < |held| :: |held[i]| == |columns|
    requires forall i, j | 0 <= i < |held| && 0 <= j < |columns| :: IsStoredAs(columns[j][i], held[i][j], atof)
    ensures HoldsCells(held, rows, atof)
  {
    hide CellOk, IsStoredAs;
    assert SameColumn(columns[0], rows, types, 0);
    forall i | 0 <= i < |rows| ensures |held[i]| == |rows[i]| { assert RowOk(rows[i], types); }
    forall i, j | 0 <= i < |rows| && 0 <= j < |rows[i]| ensures IsStoredAs(rows[i][j], held[i][j], atof) {
      assert RowOk(rows[i], types) && SameColumn(columns[j], rows, types, j);
      assert columns[j][i] == rows[i][j];
    }
  }

  // The letters of the frame's columns.
  predicate HasLetters(schema: string, types: seq<Guess>) {
    |schema| == |types|
    && forall j | 0 <= j < |types| ::
         schema[j] == match types[j] case Text => 'S' case Integer => 'I' case Double => 'D' case _ => 'B'
  }

  lemma LettersOfTable(rows: seq<seq<Value>>, types: seq<Guess>)
    requires TableOk(rows, types) && forall j | 0 <= j < |types| :: Decides(FirstRows(rows), types, j)
    ensures HasLetters(Kinds(Parsed(RowsOf(LinesOf(ShowTable(rows)))).guesses), types)
  {
    TableIsScanned(rows, types);
    TypesOfSample(rows, types);
    var read := ShownRows(rows);
    RowsAreConverted(Empty(TypesOf(FirstRows(read))), read);
    hide LinesOf, RowsOf, ShowTable, TakeRows, FirstRows, TypesOf, Decides, MostFields, Convert, ColumnTexts;
  }

  // The file of a decided table, made a stored frame and mapped over: the reader
  // sees the table, unless one of its strings is empty.
  method ReadTable(rows: seq<seq<Value>>, types: seq<Guess>, store: Columns.Store, ids: seq<string>, cap: nat,
      atof: string -> Arrays.Bits)
    returns (ok: bool, schema: string, seen: seq<seq<Arrays.Field>>)
    requires TableOk(rows, types) && forall j | 0 <= j < |types| :: Decides(FirstRows(rows), types, j)
    requires store.nodes > 0 && 0 < cap < LONG_SPAN && |ids| == |types|
    requires forall i | 0 <= i < |ids| :: PlainId(ids[i]) && |rows| <= Limit(ids[i]) * cap
    requires forall i, j | 0 <= i < j < |ids| :: ids[i] != ids[j]
    modifies store
    ensures ok <==> NoEmptyCells(rows)
    ensures ok ==> HasLetters(schema, types) && HoldsCells(seen, rows, atof)
  {
    ghost var lines := RowsOf(LinesOf(ShowTable(rows)));
    FrameOfTable(rows, types, atof);
    LinesOfTable(rows, types);
    LettersOfTable(rows, types);
    hide RowsOf, LinesOf, ShowTable, Succeeds, TableOk, Decides, NoEmptyCells, HoldsCells, MostFields, FirstRows,
      RowsRead, Frames.DataFrame.Holds, PlainId, Limit, HasLetters, Kinds, Parsed;
    var frame;
    schema, seen := "", [];
    ok, frame := FromSorFile(ShowTable(rows), store, ids, cap, atof);
    if !ok { return; }
    var reader := new Frames.Reader();
    frame.Map(reader, RowsRead(lines, atof));
    assert [] + RowsRead(lines, atof) == RowsRead(lines, atof);
    schema, seen := frame.types, reader.seen;
  }

  lemma LinesOfTable(rows: seq<seq<Value>>, types: seq<Guess>)
    requires TableOk(rows, types)
    ensures |LinesOf(ShowTable(rows))| == |rows|
    ensures MostFields(FirstRows(RowsOf(LinesOf(ShowTable(rows))))) == |types|
  {
    TableIsScanned(rows, types);
    TypesOfSample(rows, types);
    assert |RowsOf(LinesOf(ShowTable(rows)))| == |LinesOf(ShowTable(rows))|;
    hide LinesOf, ShowTable, MostFields, FirstRows, TypesOf, Decides;
  }

  // The file of one line with two quotes: its string cannot be stored.
  lemma QuotesAloneFail()
    ensures !Succeeds(RowsOf(LinesOf("<\"\">\n")))
  {
    hide *;
    var rows := [[Str("")]];
    EmptyStringDecides();
    PrintedQuotes();
    TableIsScanned(rows, [Text]);
    TypesOfSample(rows, [Text]);
    SameTypes(TypesOf(FirstRows(ShownRows(rows))), [Text]);
    DecidedTableIsRead(rows, [Text]);
  }

  lemma SameTypes(a: seq<Guess>, b: seq<Guess>)
    requires |a| == |b| && forall j | 0 <= j < |b| :: a[j] == b[j]
    ensures a == b
  {
  }

  lemma EmptyStringDecides()
    ensures var rows := [[Str("")]];
      && TableOk(rows, [Text]) && FirstRows(rows) == rows && !NoEmptyCells(rows)
      && forall j | 0 <= j < 1 :: Decides(rows, [Text], j)
  {
    var row := [Str("")];
    var rows := [row];
    assert RowOk(row, [Text]) && rows[0][0] == Str("");
    assert ShownClass(rows[0][0]) == Text;
  }

  lemma PrintedQuotes()
    ensures ShowTable([[Str("")]]) == "<\"\">\n"
  {
    var row := [Str("")];
    var ps := PrintedRow(row);
    assert Show(row[0]) == "\"" + "" + "\"" == "\"\"";
    assert ps == [Printed("", "\"\"")];
    assert ps[1..] == [];
    assert ShowRow(row) == "<\"\">";
    var lines := ShowLines([row]);
    assert lines == ["<\"\">"];
    assert lines[1..] == [];
  }

  lemma WidthsOfShown(rows: seq<seq<Value>>, types: seq<Guess>)
    requires TableOk(rows, types)
    ensures |ShownRows(rows)| == |rows|
    ensures forall i | 0 <= i < |ShownRows(rows)| :: |ShownRows(rows)[i]| == |types|
  {
    hide Show, CellOk;
    forall i | 0 <= i < |rows| ensures |ShownRows(rows)[i]| == |types| { assert RowOk(rows[i], types); }
  }
}
