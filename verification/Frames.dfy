// Data frames: rows go through a reused row object into columns of equal
// length, and come back out of the stored segments.

module Frames {
  import opened Ints
  import opened SegmentNames
  import opened Segments
  import opened Arrays
  import opened Columns
  import opened Placement

  datatype Slot = Unset | Set(field: Field)

  // -------------------------------------------------------- what a writer does

  datatype Assign = Assign(col: nat, field: Field)

  predicate Typed(types: string, visit: seq<Assign>) {
    forall a | a in visit :: a.col < |types| && TypeOf(a.field) == types[a.col]
  }

  function After(slots: seq<Slot>, visit: seq<Assign>): (after: seq<Slot>)
    requires forall a | a in visit :: a.col < |slots|
    ensures |after| == |slots|
  {
    if visit == [] then slots
    else After(slots, visit[..|visit| - 1])[visit[|visit| - 1].col := Set(visit[|visit| - 1].field)]
  }

  predicate Full(types: string, slots: seq<Slot>) {
    |slots| == |types| && forall j | 0 <= j < |slots| :: slots[j].Set? && TypeOf(slots[j].field) == types[j]
  }

  function Fields(slots: seq<Slot>): seq<Field>
    requires forall j | 0 <= j < |slots| :: slots[j].Set?
  {
    seq(|slots|, j requires 0 <= j < |slots| => slots[j].field)
  }

  function Blank(width: nat): seq<Slot> {
    seq(width, j => Unset)
  }

  predicate AllTyped(types: string, script: seq<seq<Assign>>) {
    forall i | 0 <= i < |script| :: Typed(types, script[i])
  }

  // The row object after k visits of the script.
  function SlotsAfter(types: string, script: seq<seq<Assign>>, k: nat): (slots: seq<Slot>)
    requires k <= |script| && AllTyped(types, script)
    ensures |slots| == |types|
  {
    if k == 0 then Blank(|types|) else After(SlotsAfter(types, script, k - 1), script[k - 1])
  }

  // A script that never leaves a slot unset when its row is added: the source
  // leaves the value of an unset slot undefined.
  ghost predicate ScriptOk(types: string, script: seq<seq<Assign>>) {
    AllTyped(types, script)
    && forall k: nat | 1 <= k <= |script| :: Full(types, SlotsAfter(types, script, k))
  }

  // The rows that the first k visits produce.
  ghost function Produced(types: string, script: seq<seq<Assign>>, k: nat): (rows: seq<seq<Field>>)
    requires k <= |script| && ScriptOk(types, script)
    ensures |rows| == k
  {
    if k == 0 then [] else Produced(types, script, k - 1) + [Fields(SlotsAfter(types, script, k))]
  }

  // --------------------------------------------------------------------- tables

  predicate Wide(rows: seq<seq<Field>>, width: nat) {
    forall i | 0 <= i < |rows| :: |rows[i]| == width
  }

  predicate RowsOk(types: string, rows: seq<seq<Field>>) {
    Wide(rows, |types|) && forall i, j | 0 <= i < |rows| && 0 <= j < |types| :: TypeOf(rows[i][j]) == types[j]
  }

  // No text of the table is empty.
  ghost predicate NoEmptyText(rows: seq<seq<Field>>) {
    forall i | 0 <= i < |rows| :: NoEmpty(rows[i])
  }

  function ColumnOf(rows: seq<seq<Field>>, width: nat, j: nat): (col: seq<Field>)
    requires Wide(rows, width) && j < width
    ensures |col| == |rows|
  {
    seq(|rows|, i requires 0 <= i < |rows| => rows[i][j])
  }

  // ------------------------------------------------------------------- the row

  class Row {
    const types: string
    var slots: seq<Slot>

    constructor (types: string)
      ensures this.types == types && slots == Blank(|types|)
    {
      this.types := types;
      slots := seq(|types|, j => Unset);
    }

    method Assign(col: nat, v: Field)
      requires col < |types| == |slots| && TypeOf(v) == types[col]
      modifies this
      ensures slots == old(slots)[col := Set(v)]
    {
      slots := slots[col := Set(v)];
    }
  }

  class Writer {
    const script: seq<seq<Assign>>
    var next: nat

    constructor (script: seq<seq<Assign>>)
      ensures this.script == script && next == 0
    {
      this.script := script;
      next := 0;
    }

    predicate Done()
      reads this
    {
      next >= |script|
    }

    method Visit(row: Row)
      requires !Done() && |row.slots| == |row.types| && Typed(row.types, script[next])
      modifies this, row
      ensures next == old(next) + 1 && row.slots == After(old(row.slots), script[old(next)])
    {
      var visit := script[next];
      for i := 0 to |visit|
        invariant |row.slots| == |row.types| && next == old(next)
        invariant Typed(row.types, visit[..i]) && row.slots == After(old(row.slots), visit[..i])
      {
        assert visit[..i + 1][..i] == visit[..i];
        assert visit[i] in visit;
        row.Assign(visit[i].col, visit[i].field);
      }
      assert visit[..|visit|] == visit;
      next := next + 1;
    }
  }

  class Reader {
    var seen: seq<seq<Field>>

    constructor ()
      ensures seen == []
    {
      seen := [];
    }

    method Visit(row: Row)
      requires forall j | 0 <= j < |row.slots| :: row.slots[j].Set?
      modifies this
      ensures seen == old(seen) + [Fields(row.slots)]
    {
      seen := seen + [Fields(row.slots)];
    }
  }

  // ------------------------------------------------------- groups of columns

  // Columns that share a store and use different names in it.
  predicate Group(cols: seq<Column>, store: Store) {
    (forall j | 0 <= j < |cols| :: cols[j].store == store)
    && forall i, j | 0 <= i < j < |cols| :: cols[i].colId != cols[j].colId
  }

  ghost predicate AllValid(cols: seq<Column>, store: Store)
    reads cols, store
  {
    Group(cols, store) && forall j | 0 <= j < |cols| :: cols[j].Valid()
  }

  ghost predicate OthersAgree(items: Items, items': Items,
      cols: seq<Column>)
  {
    forall id | PlainId(id) && (forall j | 0 <= j < |cols| :: cols[j].colId != id) :: AgreeOn(items, items', id)
  }

  method PushInto(cols: seq<Column>, store: Store, j: nat, v: Field) returns (ok: bool)
    requires AllValid(cols, store) && j < |cols| && !cols[j].finalized && TypeOf(v) == cols[j].kind
    requires cols[j].size < Limit(cols[j].colId) * cols[j].capacity
    modifies cols[j], store
    ensures ok ==> AllValid(cols, store) && !cols[j].finalized && cols[j].pushed == old(cols[j].pushed) + [v]
    ensures ok ==> OthersAgree(old(store.items), store.items, cols)
    ensures !ok ==> !NoEmpty(old(cols[j].pushed))
  {
    label before:
    hide NoEmpty;
    ok := cols[j].PushBack(v);
    if !ok { return; }
    forall i | 0 <= i < |cols| && i != j ensures cols[i].Valid() {
      assert cols[i].colId != cols[j].colId;
      assert PlainId(cols[i].colId);
      cols[i].StaysValid@before();
    }
  }

  method FinalizeOne(cols: seq<Column>, store: Store, j: nat) returns (ok: bool)
    requires AllValid(cols, store) && j < |cols|
    modifies cols[j], store
    ensures ok <==> NoEmpty(old(cols[j].pushed))
    ensures ok ==> AllValid(cols, store) && cols[j].finalized && cols[j].pushed == old(cols[j].pushed)
    ensures ok ==> OthersAgree(old(store.items), store.items, cols)
  {
    label before:
    hide NoEmpty;
    ok := cols[j].Finalize();
    if !ok { return; }
    forall i | 0 <= i < |cols| && i != j ensures cols[i].Valid() {
      assert cols[i].colId != cols[j].colId;
      assert PlainId(cols[i].colId);
      cols[i].StaysValid@before();
    }
  }

  lemma AgreeWithSelf(items: Items, cols: seq<Column>)
    ensures OthersAgree(items, items, cols)
  {
  }

  lemma AgreeTwice(a: Items, b: Items, c: Items,
      cols: seq<Column>)
    requires OthersAgree(a, b, cols) && OthersAgree(b, c, cols)
    ensures OthersAgree(a, c, cols)
  {
    forall id | PlainId(id) && (forall j | 0 <= j < |cols| :: cols[j].colId != id) ensures AgreeOn(a, c, id) {
      assert AgreeOn(a, b, id) && AgreeOn(b, c, id);
      hide PlainId, SegmentName;
    }
  }

  // Growing columns that hold the rows so far.
  ghost predicate Filled(cols: seq<Column>, store: Store, rows: seq<seq<Field>>, final: bool)
    reads cols, store
  {
    && AllValid(cols, store)
    && Wide(rows, |cols|)
    && forall j | 0 <= j < |cols| :: cols[j].finalized == final && cols[j].pushed == ColumnOf(rows, |cols|, j)
  }

  ghost predicate RoomFor(cols: seq<Column>, n: nat) {
    forall j | 0 <= j < |cols| :: PlainId(cols[j].colId) && n <= Limit(cols[j].colId) * cols[j].capacity
  }

  // Each column holds fields of its own type.
  ghost predicate OfTypes(cols: seq<Column>, types: string) {
    |cols| == |types| && forall j | 0 <= j < |cols| :: cols[j].kind == types[j]
  }

  lemma ColumnsGrow(rows: seq<seq<Field>>, row: seq<Field>)
    requires Wide(rows, |row|)
    ensures Wide(rows + [row], |row|)
    ensures forall j | 0 <= j < |row| :: ColumnOf(rows + [row], |row|, j) == ColumnOf(rows, |row|, j) + [row[j]]
  {
  }

  // The columns have an empty text if and only if the table has.
  lemma EmptyByColumns(rows: seq<seq<Field>>, width: nat)
    requires Wide(rows, width)
    ensures NoEmptyText(rows) <==> forall j: nat | j < width :: NoEmpty(ColumnOf(rows, width, j))
  {
    if forall j: nat | j < width :: NoEmpty(ColumnOf(rows, width, j)) {
      forall i, j: nat | 0 <= i < |rows| && j < width ensures rows[i][j] != NO_TEXT {
        assert NoEmpty(ColumnOf(rows, width, j));
        assert ColumnOf(rows, width, j)[i] == rows[i][j];
      }
    }
  }

  // In the middle of adding a row: the columns below mid have their new field.
  ghost predicate Adding(cols: seq<Column>, store: Store, rows: seq<seq<Field>>, row: seq<Field>, mid: nat)
    reads cols, store
  {
    && AllValid(cols, store) && |row| == |cols| && Wide(rows, |cols|)
    && (forall j | 0 <= j < |cols| :: !cols[j].finalized)
    && forall j | 0 <= j < |cols| :: cols[j].pushed == ColumnOf(rows, |cols|, j) + if j < mid then [row[j]] else []
  }

  method AddField(cols: seq<Column>, store: Store, ghost rows: seq<seq<Field>>, ghost row: seq<Field>, j: nat, v: Field)
    returns (ok: bool)
    requires Adding(cols, store, rows, row, j) && j < |cols| && v == row[j] && RoomFor(cols, |rows| + 1)
    requires TypeOf(v) == cols[j].kind
    modifies cols[j], store
    ensures ok ==> Adding(cols, store, rows, row, j + 1) && OthersAgree(old(store.items), store.items, cols)
    ensures !ok ==> !NoEmptyText(rows)
  {
    RoomToAdd(cols, store, rows, row, j);
    EmptyByColumns(rows, |cols|);
    hide Column.Valid, ColumnOf, PlainId, Limit, Wide, NoEmpty, NoEmptyText, TypeOf, RoomFor;
    ColumnsDiffer(cols, store);
    ok := PushInto(cols, store, j, v);
    hide AllValid, OthersAgree;
    if ok { FieldIsAdded(cols, store, rows, row, j); }
  }

  lemma ColumnsDiffer(cols: seq<Column>, store: Store)
    requires AllValid(cols, store)
    ensures forall i, j | 0 <= i < j < |cols| :: cols[i] != cols[j]
  {
    hide Column.Valid;
  }

  lemma FieldIsAdded(cols: seq<Column>, store: Store, rows: seq<seq<Field>>, row: seq<Field>, j: nat)
    requires AllValid(cols, store) && j < |cols| == |row| && Wide(rows, |cols|)
    requires forall i | 0 <= i < |cols| :: !cols[i].finalized
    requires cols[j].pushed == ColumnOf(rows, |cols|, j) + [row[j]]
    requires forall i | 0 <= i < |cols| && i != j ::
      cols[i].pushed == ColumnOf(rows, |cols|, i) + if i < j then [row[i]] else []
    ensures Adding(cols, store, rows, row, j + 1)
  {
    hide ColumnOf, Wide, AllValid;
  }

  lemma RoomToAdd(cols: seq<Column>, store: Store, rows: seq<seq<Field>>, row: seq<Field>, j: nat)
    requires Adding(cols, store, rows, row, j) && j < |cols| && RoomFor(cols, |rows| + 1)
    ensures PlainId(cols[j].colId) && cols[j].size < Limit(cols[j].colId) * cols[j].capacity
    ensures cols[j].pushed == ColumnOf(rows, |cols|, j)
  {
    cols[j].Basics();
    hide Column.Valid, Limit, PlainId, Wide;
    assert ColumnOf(rows, |cols|, j) + [] == ColumnOf(rows, |cols|, j);
  }

  // Fails only if a text that was added before is empty.
  method AddToColumns(row: Row, cols: seq<Column>, store: Store, ghost rows: seq<seq<Field>>) returns (ok: bool)
    requires Full(row.types, row.slots) && OfTypes(cols, row.types) && Filled(cols, store, rows, false)
    requires RoomFor(cols, |rows| + 1)
    modifies cols, store
    ensures ok ==> Filled(cols, store, rows + [Fields(row.slots)], false)
    ensures ok ==> OthersAgree(old(store.items), store.items, cols)
    ensures !ok ==> !NoEmptyText(rows)
  {
    ghost var added := Fields(row.slots);
    StartAdding(cols, store, rows, added);
    ok := true;
    for j := 0 to |cols|
      invariant Adding(cols, store, rows, added, j)
      invariant OthersAgree(old(store.items), store.items, cols)
    {
      SlotIsOfKind(row, cols, j);
      hide *;
      ghost var was := store.items;
      ok := AddField(cols, store, rows, added, j, row.slots[j].field);
      if !ok { return; }
      AgreeTwice(old(store.items), was, store.items, cols);
    }
    EndAdding(cols, store, rows, added);
    ok := true;
  }

  lemma SlotIsOfKind(row: Row, cols: seq<Column>, j: nat)
    requires Full(row.types, row.slots) && OfTypes(cols, row.types) && j < |cols|
    ensures j < |row.slots| && row.slots[j].Set? && Fields(row.slots)[j] == row.slots[j].field
    ensures TypeOf(row.slots[j].field) == cols[j].kind
  {
    hide TypeOf;
  }

  lemma StartAdding(cols: seq<Column>, store: Store, rows: seq<seq<Field>>, row: seq<Field>)
    requires Filled(cols, store, rows, false) && |row| == |cols|
    ensures Adding(cols, store, rows, row, 0) && OthersAgree(store.items, store.items, cols)
  {
    AgreeWithSelf(store.items, cols);
    hide AllValid, ColumnOf, OthersAgree;
  }

  lemma EndAdding(cols: seq<Column>, store: Store, rows: seq<seq<Field>>, row: seq<Field>)
    requires Adding(cols, store, rows, row, |cols|)
    ensures Filled(cols, store, rows + [row], false)
  {
    ColumnsGrow(rows, row);
    hide AllValid, ColumnOf, Wide;
  }

  // A type that a schema can have.
  predicate Known(types: string) {
    forall j | 0 <= j < |types| :: types[j] in "SIDB"
  }

  // Fresh columns, one for each name.
  method MakeColumns(store: Store, types: string, ids: seq<string>, cap: nat) returns (cols: seq<Column>)
    requires store.nodes > 0 && 0 < cap < LONG_SPAN && forall i | 0 <= i < |ids| :: PlainId(ids[i])
    requires |ids| == |types| && Known(types) && forall i, j | 0 <= i < j < |ids| :: ids[i] != ids[j]
    ensures |cols| == |ids| && fresh(cols) && Filled(cols, store, [], false) && OfTypes(cols, types)
    ensures forall j | 0 <= j < |ids| :: cols[j].colId == ids[j] && cols[j].capacity == cap
  {
    cols := [];
    hide Column.Valid, PlainId;
    for k := 0 to |ids|
      invariant |cols| == k && fresh(cols) && Filled(cols, store, [], false) && OfTypes(cols, types[..k])
      invariant forall j | 0 <= j < k :: cols[j].colId == ids[j] && cols[j].capacity == cap
    {
      var c := new Column(store, ids[k], types[k], cap);
      cols := cols + [c];
    }
  }

  // In the middle of finalizing: the columns below mid are final.
  ghost predicate Closing(cols: seq<Column>, store: Store, rows: seq<seq<Field>>, mid: nat)
    reads cols, store
  {
    && AllValid(cols, store) && Wide(rows, |cols|)
    && (forall j | 0 <= j < |cols| :: cols[j].finalized == (j < mid))
    && forall j | 0 <= j < |cols| :: cols[j].pushed == ColumnOf(rows, |cols|, j)
  }

  method FinalizeColumn(cols: seq<Column>, store: Store, ghost rows: seq<seq<Field>>, j: nat) returns (ok: bool)
    requires Closing(cols, store, rows, j) && j < |cols|
    modifies cols[j], store
    ensures ok <==> NoEmpty(ColumnOf(rows, |cols|, j))
    ensures ok ==> Closing(cols, store, rows, j + 1) && OthersAgree(old(store.items), store.items, cols)
  {
    hide Column.Valid, ColumnOf, PlainId, Wide, NoEmpty;
    ok := FinalizeOne(cols, store, j);
    hide AllValid, OthersAgree;
  }

  lemma LengthOfClosing(cols: seq<Column>, store: Store, rows: seq<seq<Field>>, mid: nat, j: nat)
    requires Closing(cols, store, rows, mid) && j < |cols|
    ensures cols[j].size == |rows|
  {
    cols[j].Basics();
    hide Column.Valid;
  }

  // The loop of the constructor, with its assertion of equal lengths: it
  // completes exactly if no text is empty.
  method FinalizeAll(cols: seq<Column>, store: Store, ghost rows: seq<seq<Field>>, nrows: nat) returns (ok: bool)
    requires Filled(cols, store, rows, false) && nrows == |rows|
    modifies cols, store
    ensures ok <==> NoEmptyText(rows)
    ensures ok ==> Filled(cols, store, rows, true) && OthersAgree(old(store.items), store.items, cols)
  {
    AgreeWithSelf(store.items, cols);
    EmptyByColumns(rows, |cols|);
    assert Closing(cols, store, rows, 0) by { hide AllValid; }
    ghost var done: nat := 0;
    for j := 0 to |cols|
      invariant Closing(cols, store, rows, j) && OthersAgree(old(store.items), store.items, cols)
      invariant done == j && forall i: nat | i < done :: NoEmpty(ColumnOf(rows, |cols|, i))
    {
      hide *;
      ghost var was := store.items;
      LengthOfClosing(cols, store, rows, j, j);
      assert cols[j].size == nrows;
      ok := FinalizeColumn(cols, store, rows, j);
      if !ok { return; }
      AgreeTwice(old(store.items), was, store.items, cols);
      done := done + 1;
    }
    hide AllValid, OthersAgree;
    ok := true;
  }

  // The nodes that were asked for segments of these columns.
  ghost function AskedBy(cols: seq<Column>): set<nat>
    reads cols
  {
    set c, n | c in cols && n in c.asked :: n
  }

  ghost predicate SameCapacity(cols: seq<Column>, cap: nat) {
    forall j | 0 <= j < |cols| :: cols[j].capacity == cap
  }

  method ReadCell(cols: seq<Column>, store: Store, ghost cap: nat, ghost rows: seq<seq<Field>>,
      idx: nat, j: nat)
    returns (v: Field)
    requires Filled(cols, store, rows, true) && SameCapacity(cols, cap) && idx < |rows| && j < |cols|
    requires cap > 0 && store.nodes > 0
    modifies cols[j]
    ensures Filled(cols, store, rows, true) && j < |rows[idx]| && v == rows[idx][j]
    ensures AskedBy(cols) <= old(AskedBy(cols)) + {NodeOf(SegmentIndex(idx, cap), store.nodes)}
  {
    cols[j].Basics();
    hide Column.Valid, PlainId, NodeOf, SegmentIndex, SegmentCount;
    v := cols[j].Get(idx);
  }

  class DataFrame {
    const store: Store
    const types: string
    const nrows: nat
    const columns: seq<Column>
    ghost const cap: nat

    // The frame's columns hold exactly these rows.
    ghost predicate Holds(rows: seq<seq<Field>>)
      reads this, columns, store
    {
      && |columns| == |types| > 0 && nrows == |rows| && cap > 0 && store.nodes > 0 && SameCapacity(columns, cap)
      && Filled(columns, store, rows, true) && RowsOk(types, rows) && OfTypes(columns, types)
    }

    // The constructor after its loop: the columns are final.
    constructor (cols: seq<Column>, store: Store, types: string, ghost cap: nat, ghost rows: seq<seq<Field>>)
      requires SameCapacity(cols, cap) && cap > 0 && store.nodes > 0 && OfTypes(cols, types)
      requires |cols| > 0 && Filled(cols, store, rows, true) && RowsOk(types, rows)
      ensures this.store == store && this.types == types && this.cap == cap && columns == cols && Holds(rows)
    {
      this.store := store;
      this.types := types;
      nrows := cols[0].size;
      columns := cols;
      this.cap := cap;
      new;
      cols[0].Basics();
      hide Column.Valid, TypeOf;
    }

    method FillRow(idx: nat, row: Row, ghost rows: seq<seq<Field>>)
      requires Holds(rows) && idx < nrows && row.types == types && |row.slots| == |types|
      modifies row, columns
      ensures Holds(rows) && Full(types, row.slots) && Fields(row.slots) == rows[idx]
      ensures AskedBy(columns) <= old(AskedBy(columns)) + {NodeOf(SegmentIndex(idx, cap), store.nodes)}
    {
      hide Filled, NodeOf, SegmentIndex, AskedBy, SameCapacity, TypeOf;
      for j := 0 to |types|
        invariant |row.slots| == |types| && Holds(rows)
        invariant forall i | 0 <= i < j :: row.slots[i] == Set(rows[idx][i])
        invariant AskedBy(columns) <= old(AskedBy(columns)) + {NodeOf(SegmentIndex(idx, cap), store.nodes)}
      {
        var v := ReadCell(columns, store, cap, rows, idx, j);
        row.Assign(j, v);
      }
    }

    method VisitRow(idx: nat, row: Row, reader: Reader, ghost rows: seq<seq<Field>>)
      requires Holds(rows) && idx < nrows && row.types == types && |row.slots| == |types|
      modifies row, reader, columns
      ensures Holds(rows) && |row.slots| == |types| && reader.seen == old(reader.seen) + [rows[idx]]
      ensures AskedBy(columns) <= old(AskedBy(columns)) + {NodeOf(SegmentIndex(idx, cap), store.nodes)}
    {
      hide Filled, NodeOf, SegmentIndex, AskedBy, SameCapacity;
      FillRow(idx, row, rows);
      reader.Visit(row);
    }

    method Map(reader: Reader, ghost rows: seq<seq<Field>>)
      requires Holds(rows)
      modifies reader, columns
      ensures Holds(rows) && reader.seen == old(reader.seen) + rows
    {
      var row := new Row(types);
      hide Filled, AskedBy, SameCapacity, RowsOk;
      for i := 0 to nrows
        invariant Holds(rows) && |row.slots| == |types|
        invariant reader.seen == old(reader.seen) + rows[..i]
      {
        VisitRow(i, row, reader, rows);
        assert rows[..i + 1] == rows[..i] + [rows[i]];
      }
    }

    // Visits the rows whose segments are at the given node, and asks no other.
    method LocalMap(node: nat, reader: Reader, ghost rows: seq<seq<Field>>)
      requires Holds(rows) && nrows > 0
      modifies reader, columns
      ensures Holds(rows) && reader.seen == old(reader.seen) + LocalRows(rows, cap, store.nodes, node)
      ensures AskedBy(columns) <= old(AskedBy(columns)) + {node}
    {
      var row := new Row(types);
      var indices := IndicesOfFirst(columns, store, cap, node, rows);
      OwnRowsExist(nrows, cap, store.nodes, node);
      hide Filled, NodeOf, SegmentIndex, AskedBy, SameCapacity, RowsOk, LocalIndices;
      VisitRows(indices, node, row, reader, rows);
    }

    // The loop of local_map.
    method VisitRows(indices: seq<nat>, ghost node: nat, row: Row, reader: Reader, ghost rows: seq<seq<Field>>)
      requires Holds(rows) && row.types == types && |row.slots| == |types|
      requires forall i | 0 <= i < |indices| ::
        indices[i] < |rows| && NodeOf(SegmentIndex(indices[i], cap), store.nodes) == node
      modifies row, reader, columns
      ensures Holds(rows) && reader.seen == old(reader.seen) + Picked(rows, indices)
      ensures AskedBy(columns) <= old(AskedBy(columns)) + {node}
    {
      hide Filled, NodeOf, SegmentIndex, AskedBy, SameCapacity, RowsOk;
      ghost var wanted := Picked(rows, indices);
      for i := 0 to |indices|
        invariant Holds(rows) && |row.slots| == |types|
        invariant reader.seen == old(reader.seen) + wanted[..i]
        invariant AskedBy(columns) <= old(AskedBy(columns)) + {node}
      {
        VisitRow(indices[i], row, reader, rows);
        assert wanted[..i + 1] == wanted[..i] + [wanted[i]];
      }
    }

    function Image(): FrameImage
      reads this, columns
    {
      FrameImage(types, nrows, seq(|columns|, j requires 0 <= j < |columns| reads columns => columns[j].Image()))
    }

    // The frame that another node reads from the image of a stored one.
    constructor Open(store: Store, image: FrameImage, dflt: nat, ghost from: DataFrame,
        ghost rows: seq<seq<Field>>)
      requires from.Holds(rows) && from.store == store && image == from.Image()
      requires 0 < dflt < LONG_SPAN && Reopens(|rows|, from.cap, dflt)
      ensures Holds(rows) && this.store == store && types == image.types && cap == dflt
      ensures fresh(columns) && AskedBy(columns) == {}
    {
      this.store := store;
      types := image.types;
      nrows := image.nrows;
      var cols := OpenColumns(store, image.types, image.columns, dflt, from.columns, from.cap, rows);
      columns := cols;
      cap := dflt;
      new;
      hide Filled, AskedBy;
    }
  }

  datatype FrameImage = FrameImage(types: string, nrows: nat, columns: seq<ColumnImage>)

  function Picked<T>(rows: seq<T>, indices: seq<nat>): seq<T>
    requires forall i | 0 <= i < |indices| :: indices[i] < |rows|
  {
    seq(|indices|, i requires 0 <= i < |indices| => rows[indices[i]])
  }

  lemma OwnRowsExist(size: nat, cap: nat, nodes: nat, node: nat)
    requires cap > 0 && nodes > 0 && size > 0
    ensures var local := LocalIndices(size, cap, nodes, node);
      forall i | 0 <= i < |local| :: local[i] < size && NodeOf(SegmentIndex(local[i], cap), nodes) == node
  {
    NodeFindsOwnRows(size, cap, nodes, node);
    hide LocalIndices, NodeOf, SegmentIndex;
    var local := LocalIndices(size, cap, nodes, node);
    forall i | 0 <= i < |local| ensures local[i] < size && NodeOf(SegmentIndex(local[i], cap), nodes) == node {
      assert local[i] in local;
    }
  }

  // What local_map visits at one node.
  function LocalRows<T>(rows: seq<T>, cap: nat, nodes: nat, node: nat): seq<T>
    requires cap > 0 && nodes > 0 && |rows| > 0
  {
    OwnRowsExist(|rows|, cap, nodes, node);
    Picked(rows, LocalIndices(|rows|, cap, nodes, node))
  }

  // What local_map visits at the nodes below k together.
  function RowsOfNodes<T>(rows: seq<T>, cap: nat, nodes: nat, k: nat): seq<T>
    requires cap > 0 && nodes > 0 && |rows| > 0
  {
    if k == 0 then [] else RowsOfNodes(rows, cap, nodes, k - 1) + LocalRows(rows, cap, nodes, k - 1)
  }

  lemma MovedToFront<T>(rows: seq<T>, b: seq<nat>, i: nat)
    requires i < |b| && forall k | 0 <= k < |b| :: b[k] < |rows|
    ensures multiset(Picked(rows, b)) == multiset([rows[b[i]]]) + multiset(Picked(rows, b[..i] + b[i + 1..]))
  {
    var left, right := Picked(rows, b[..i]), Picked(rows, b[i + 1..]);
    assert Picked(rows, b) == left + [rows[b[i]]] + right;
    assert Picked(rows, b[..i] + b[i + 1..]) == left + right;
  }

  lemma SameWithoutFirst(a: seq<nat>, b: seq<nat>) returns (i: nat)
    requires multiset(a) == multiset(b) && a != []
    ensures i < |b| && b[i] == a[0] && multiset(b[..i] + b[i + 1..]) == multiset(a[1..])
  {
    assert a == [a[0]] + a[1..];
    assert a[0] in multiset(b);
    i :| i < |b| && b[i] == a[0];
    assert b == b[..i] + [b[i]] + b[i + 1..];
    assert multiset(a[1..]) == multiset(a) - multiset{a[0]};
    assert multiset(b[..i] + b[i + 1..]) == multiset(b) - multiset{a[0]};
  }

  lemma {:induction false} SameMultisetPicked<T>(rows: seq<T>, a: seq<nat>, b: seq<nat>)
    requires multiset(a) == multiset(b)
    requires (forall i | 0 <= i < |a| :: a[i] < |rows|) && (forall i | 0 <= i < |b| :: b[i] < |rows|)
    ensures multiset(Picked(rows, a)) == multiset(Picked(rows, b))
  {
    if a == [] {
      assert |multiset(b)| == 0;
    } else {
      var i := SameWithoutFirst(a, b);
      SameMultisetPicked(rows, a[1..], b[..i] + b[i + 1..]);
      assert Picked(rows, a) == [rows[a[0]]] + Picked(rows, a[1..]);
      hide Picked;
      MovedToFront(rows, b, i);
    }
  }

  lemma PickedTogether<T>(rows: seq<T>, a: seq<nat>, b: seq<nat>)
    requires (forall i | 0 <= i < |a| :: a[i] < |rows|) && (forall i | 0 <= i < |b| :: b[i] < |rows|)
    ensures forall i | 0 <= i < |a + b| :: (a + b)[i] < |rows|
    ensures Picked(rows, a + b) == Picked(rows, a) + Picked(rows, b)
  {
  }

  lemma {:induction false} RowsOfNodesArePicked<T>(rows: seq<T>, cap: nat, nodes: nat, k: nat)
    requires cap > 0 && nodes > 0 && |rows| > 0
    ensures forall i | 0 <= i < |AllIndices(|rows|, cap, nodes, k)| :: AllIndices(|rows|, cap, nodes, k)[i] < |rows|
    ensures RowsOfNodes(rows, cap, nodes, k) == Picked(rows, AllIndices(|rows|, cap, nodes, k))
  {
    if k > 0 {
      RowsOfNodesArePicked(rows, cap, nodes, k - 1);
      hide LocalIndices, NodeOf, SegmentIndex, Picked;
      OwnRowsExist(|rows|, cap, nodes, k - 1);
      PickedTogether(rows, AllIndices(|rows|, cap, nodes, k - 1), LocalIndices(|rows|, cap, nodes, k - 1));
    }
  }

  // All local_maps together visit the rows that map visits, each as often.
  lemma LocalMapsCoverMap<T>(rows: seq<T>, cap: nat, nodes: nat)
    requires cap > 0 && nodes > 0 && |rows| > 0
    ensures multiset(RowsOfNodes(rows, cap, nodes, nodes)) == multiset(rows)
  {
    RowsOfNodesArePicked(rows, cap, nodes, nodes);
    IndicesArePermutation(|rows|, cap, nodes);
    RangeIsAll(0, |rows|);
    SameMultisetPicked(rows, AllIndices(|rows|, cap, nodes, nodes), Range(0, |rows|));
    assert Picked(rows, Range(0, |rows|)) == rows;
  }

  lemma {:induction false} RangeIsAll(lo: nat, hi: nat)
    requires lo <= hi
    ensures |Range(lo, hi)| == hi - lo && forall i | 0 <= i < hi - lo :: Range(lo, hi)[i] == lo + i
    decreases hi - lo
  {
    if lo < hi { RangeIsAll(lo + 1, hi); }
  }

  method IndicesOfFirst(cols: seq<Column>, store: Store, ghost cap: nat, node: nat, ghost rows: seq<seq<Field>>)
    returns (indices: seq<nat>)
    requires Filled(cols, store, rows, true) && SameCapacity(cols, cap) && |cols| > 0 && cap > 0 && store.nodes > 0
    ensures indices == LocalIndices(|rows|, cap, store.nodes, node)
  {
    var first := cols[0];
    first.Basics();
    hide Column.Valid, LocalIndices, Keys, SegmentCount;
    indices := ComputeLocalIndices(first.segments, first.colId, first.size, first.capacity, store.nodes, node);
  }

  method OpenColumns(store: Store, types: string, images: seq<ColumnImage>, dflt: nat,
      ghost from: seq<Column>, ghost cap: nat, ghost rows: seq<seq<Field>>)
    returns (cols: seq<Column>)
    requires Filled(from, store, rows, true) && SameCapacity(from, cap)
    requires 0 < dflt < LONG_SPAN && Reopens(|rows|, cap, dflt) && OfTypes(from, types)
    requires |images| == |from| && forall j | 0 <= j < |from| :: images[j] == from[j].Image()
    ensures |cols| == |from| && fresh(cols) && Filled(cols, store, rows, true) && SameCapacity(cols, dflt)
    ensures OfTypes(cols, types) && AskedBy(cols) == {}
  {
    cols := [];
    hide Column.Valid, PlainId, ColumnOf, Wide;
    for k := 0 to |images|
      invariant |cols| == k && fresh(cols) && AllValid(cols, store) && SameCapacity(cols, dflt)
      invariant forall j | 0 <= j < k :: cols[j].colId == from[j].colId && cols[j].finalized && cols[j].kind == types[j]
      invariant forall j | 0 <= j < k :: cols[j].pushed == from[j].pushed && cols[j].asked == {}
    {
      from[k].Basics();
      var c := new Column.Open(store, images[k], types[k], dflt, from[k]);
      cols := cols + [c];
    }
  }

  // ------------------------------------------------------------- the visitor

  lemma {:induction false} ProducedRowsAreTyped(types: string, script: seq<seq<Assign>>, k: nat)
    requires k <= |script| && ScriptOk(types, script)
    ensures RowsOk(types, Produced(types, script, k))
  {
    if k > 0 {
      ProducedRowsAreTyped(types, script, k - 1);
      assert Full(types, SlotsAfter(types, script, k));
      hide SlotsAfter, TypeOf, AllTyped;
    }
  }

  lemma StartProducing(types: string, script: seq<seq<Assign>>)
    requires ScriptOk(types, script)
    ensures Produced(types, script, 0) == [] && SlotsAfter(types, script, 0) == Blank(|types|)
  {
  }

  lemma NextProduced(types: string, script: seq<seq<Assign>>, k: nat)
    requires k < |script| && ScriptOk(types, script)
    ensures Typed(types, script[k]) && Full(types, SlotsAfter(types, script, k + 1))
    ensures SlotsAfter(types, script, k + 1) == After(SlotsAfter(types, script, k), script[k])
    ensures Produced(types, script, k + 1) == Produced(types, script, k) + [Fields(SlotsAfter(types, script, k + 1))]
  {
    hide Full, Typed, After;
  }

  predicate Skips(visit: seq<Assign>, j: nat) {
    forall p | 0 <= p < |visit| :: visit[p].col != j
  }

  predicate SetsLast(visit: seq<Assign>, j: nat, f: Field) {
    exists p: nat :: p < |visit| && visit[p] == Assign(j, f) && Skips(visit[p + 1..], j)
  }

  lemma LastIsSkipped(visit: seq<Assign>, p: nat, j: nat)
    requires p <= |visit| && Skips(visit[p..], j)
    ensures p < |visit| ==> visit[|visit| - 1].col != j
  {
    var tail := visit[p..];
    assert tail != [] ==> tail[|tail| - 1] == visit[|visit| - 1];
  }

  lemma {:induction false} SkippedVisit(slots: seq<Slot>, visit: seq<Assign>, j: nat)
    requires j < |slots| && (forall a | a in visit :: a.col < |slots|) && Skips(visit, j)
    ensures After(slots, visit)[j] == slots[j]
  {
    if visit != [] { SkippedVisit(slots, visit[..|visit| - 1], j); }
  }

  lemma {:induction false} LastOfVisit(slots: seq<Slot>, visit: seq<Assign>, j: nat, f: Field, p: nat)
    requires j < |slots| && (forall a | a in visit :: a.col < |slots|)
    requires p < |visit| && visit[p] == Assign(j, f) && Skips(visit[p + 1..], j)
    ensures After(slots, visit)[j] == Set(f)
  {
    var init, last := visit[..|visit| - 1], visit[|visit| - 1];
    assert last in visit;
    if p < |init| {
      LastIsSkipped(visit, p + 1, j);
      var rest := init[p + 1..];
      forall q | 0 <= q < |rest| ensures rest[q].col != j { assert rest[q] == visit[p + 1..][q]; }
      LastOfVisit(slots, init, j, f, p);
    }
  }

  lemma AfterVisit(slots: seq<Slot>, visit: seq<Assign>, j: nat, f: Field)
    requires j < |slots| && forall a | a in visit :: a.col < |slots|
    ensures Skips(visit, j) ==> After(slots, visit)[j] == slots[j]
    ensures SetsLast(visit, j, f) ==> After(slots, visit)[j] == Set(f)
  {
    hide After, Skips;
    if Skips(visit, j) { SkippedVisit(slots, visit, j); }
    if SetsLast(visit, j, f) {
      var p: nat :| p < |visit| && visit[p] == Assign(j, f) && Skips(visit[p + 1..], j);
      LastOfVisit(slots, visit, j, f, p);
    }
  }

  // In the row of a visit, a column has the value that the visit gave it last;
  // a column that the visit does not set repeats the row before.
  lemma RowOfVisit(types: string, script: seq<seq<Assign>>, k: nat, j: nat, f: Field)
    requires ScriptOk(types, script) && k < |script| && j < |types|
    ensures |Produced(types, script, k + 1)[k]| == |types|
    ensures (forall p | 0 <= p < |script[k]| :: script[k][p].col != j) ==>
      && k > 0 && |Produced(types, script, k + 1)[k - 1]| == |types|
      && Produced(types, script, k + 1)[k][j] == Produced(types, script, k + 1)[k - 1][j]
    ensures forall p | 0 <= p < |script[k]| && script[k][p] == Assign(j, f)
        && (forall q | p < q < |script[k]| :: script[k][q].col != j) ::
      Produced(types, script, k + 1)[k][j] == f
  {
    forall p | 0 <= p < |script[k]| && script[k][p] == Assign(j, f)
        && (forall q | p < q < |script[k]| :: script[k][q].col != j)
      ensures SetsLast(script[k], j, f)
    {
      assert Skips(script[k][p + 1..], j);
    }
    NextProduced(types, script, k);
    AfterVisit(SlotsAfter(types, script, k), script[k], j, f);
    hide After, TypeOf, Typed, ScriptOk, AllTyped, Skips, SetsLast;
    if k > 0 { NextProduced(types, script, k - 1); }
  }

  // The constructor of a frame: it takes over columns of equal length and
  // finalizes them, and completes exactly if no text is empty.
  method NewFrame(cols: seq<Column>, store: Store, types: string, ghost cap: nat, ghost rows: seq<seq<Field>>)
    returns (ok: bool, frame: DataFrame?)
    requires SameCapacity(cols, cap) && cap > 0 && store.nodes > 0 && OfTypes(cols, types)
    requires |cols| > 0 && Filled(cols, store, rows, false) && RowsOk(types, rows)
    modifies cols, store
    ensures ok <==> NoEmptyText(rows)
    ensures ok ==> frame != null && fresh(frame) && frame.columns == cols
    ensures ok ==> frame.store == store && frame.types == types
    ensures ok ==> frame.Holds(rows) && frame.cap == cap
    ensures ok ==> OthersAgree(old(store.items), store.items, cols)
  {
    frame := null;
    cols[0].Basics();
    hide *;
    LengthOfFilled(cols, store, rows);
    ok := FinalizeAll(cols, store, rows, cols[0].size);
    if ok { frame := new DataFrame(cols, store, types, cap, rows); }
  }

  lemma LengthOfFilled(cols: seq<Column>, store: Store, rows: seq<seq<Field>>)
    requires |cols| > 0 && Filled(cols, store, rows, false)
    ensures cols[0].size == |rows|
  {
    cols[0].Basics();
    hide Column.Valid;
  }

  // Rows that are already there stay when more are produced.
  lemma {:induction false} ProducedGrows(types: string, script: seq<seq<Assign>>, k: nat, n: nat)
    requires k <= n <= |script| && ScriptOk(types, script)
    ensures Produced(types, script, k) <= Produced(types, script, n)
    decreases n
  {
    hide SlotsAfter, Full, AllTyped;
    if k < n { ProducedGrows(types, script, k, n - 1); }
  }

  lemma EmptyInPrefix(rows: seq<seq<Field>>, more: seq<seq<Field>>)
    requires rows <= more
    ensures !NoEmptyText(rows) ==> !NoEmptyText(more)
  {
    hide NoEmpty;
    if i :| 0 <= i < |rows| && !NoEmpty(rows[i]) { assert more[i] == rows[i]; }
  }

  lemma EmptyStays(types: string, script: seq<seq<Assign>>, k: nat)
    requires k <= |script| && ScriptOk(types, script) && !NoEmptyText(Produced(types, script, k))
    ensures !NoEmptyText(Produced(types, script, |script|))
  {
    hide NoEmptyText, ScriptOk, Produced;
    ProducedGrows(types, script, k, |script|);
    EmptyInPrefix(Produced(types, script, k), Produced(types, script, |script|));
  }

  lemma TypedScript(types: string, script: seq<seq<Assign>>)
    requires ScriptOk(types, script)
    ensures AllTyped(types, script)
  {
  }

  // One round of the loop of fromVisitor.
  method VisitAndAdd(writer: Writer, row: Row, cols: seq<Column>, store: Store, ghost cap: nat) returns (ok: bool)
    requires ScriptOk(row.types, writer.script) && !writer.Done() && writer.next < |writer.script|
    requires OfTypes(cols, row.types) && row.slots == SlotsAfter(row.types, writer.script, writer.next)
    requires Filled(cols, store, Produced(row.types, writer.script, writer.next), false)
    requires RoomFor(cols, |writer.script|)
    modifies writer, row, cols, store
    ensures writer.next == old(writer.next) + 1 <= |writer.script|
    ensures ok ==> row.slots == SlotsAfter(row.types, writer.script, writer.next)
    ensures ok ==> Filled(cols, store, Produced(row.types, writer.script, writer.next), false)
    ensures ok ==> OthersAgree(old(store.items), store.items, cols)
    ensures !ok ==> !NoEmptyText(Produced(row.types, writer.script, |writer.script|))
  {
    TypedScript(row.types, writer.script);
    hide *;
    ghost var k := writer.next;
    ghost var rows, slots := Produced(row.types, writer.script, k), SlotsAfter(row.types, writer.script, k + 1);
    NextProduced(row.types, writer.script, k);
    LimitsLater(cols, k, |writer.script|);
    writer.Visit(row);
    assert row.slots == slots;
    ok := AddToColumns(row, cols, store, rows);
    if !ok { EmptyStays(row.types, writer.script, k); }
  }

  lemma LimitsLater(cols: seq<Column>, k: nat, n: nat)
    requires k < n && RoomFor(cols, n)
    ensures RoomFor(cols, k + 1)
  {
    hide PlainId, Limit;
  }

  // The frame built from a writer holds the rows that the writer produced, and
  // columns with other names keep everything in the store. It is built exactly
  // if no produced text is empty.
  method FromVisitor(store: Store, types: string, ids: seq<string>, cap: nat, writer: Writer)
    returns (ok: bool, frame: DataFrame?)
    requires store.nodes > 0 && 0 < cap < LONG_SPAN && |ids| == |types| > 0 && Known(types)
    requires forall i | 0 <= i < |ids| :: PlainId(ids[i]) && |writer.script| <= Limit(ids[i]) * cap
    requires forall i, j | 0 <= i < j < |ids| :: ids[i] != ids[j]
    requires ScriptOk(types, writer.script) && writer.next == 0
    modifies writer, store
    ensures ok <==> NoEmptyText(Produced(types, writer.script, |writer.script|))
    ensures ok ==> frame != null && fresh(frame) && fresh(frame.columns)
    ensures ok ==> frame.store == store && frame.types == types && frame.cap == cap
    ensures ok ==> frame.Holds(Produced(types, writer.script, |writer.script|)) && writer.Done()
    ensures ok ==> OthersAgree(old(store.items), store.items, frame.columns)
    ensures ok ==> |frame.columns| == |ids| && forall j | 0 <= j < |ids| :: frame.columns[j].colId == ids[j]
  {
    hide Filled, SlotsAfter, Produced, OthersAgree, ScriptOk, PlainId, Limit, NoEmptyText, OfTypes, Known, AllTyped;
    frame := null;
    ok := true;
    TypedScript(types, writer.script);
    var cols := MakeColumns(store, types, ids, cap);
    var row := new Row(types);
    StartProducing(types, writer.script);
    AgreeWithSelf(store.items, cols);
    ghost var rows := Produced(types, writer.script, |writer.script|);
    while !writer.Done()
      invariant writer.next <= |writer.script| && row.slots == SlotsAfter(types, writer.script, writer.next)
      invariant Filled(cols, store, Produced(types, writer.script, writer.next), false)
      invariant OthersAgree(old(store.items), store.items, cols)
      decreases |writer.script| - writer.next
    {
      ghost var was := store.items;
      ok := VisitAndAdd(writer, row, cols, store, cap);
      if !ok { return; }
      AgreeTwice(old(store.items), was, store.items, cols);
    }
    ghost var was := store.items;
    ProducedRowsAreTyped(types, writer.script, |writer.script|);
    ok, frame := NewFrame(cols, store, types, cap, rows);
    if ok { AgreeTwice(old(store.items), was, store.items, cols); }
  }

  // One empty text is enough: its frame is never built.
  lemma EmptyTextFails()
    ensures ScriptOk("S", [[Assign(0, NO_TEXT)]])
    ensures !NoEmptyText(Produced("S", [[Assign(0, NO_TEXT)]], 1))
  {
    var visit := [Assign(0, NO_TEXT)];
    var script := [visit];
    assert visit[..0] == [] && Blank(1) == [Unset];
    assert After(Blank(1), visit) == [Set(NO_TEXT)];
    assert SlotsAfter("S", script, 1) == [Set(NO_TEXT)];
    assert Full("S", SlotsAfter("S", script, 1));
    assert ScriptOk("S", script);
    var rows := Produced("S", script, 1);
    assert rows == [] + [Fields(SlotsAfter("S", script, 1))];
    assert rows[0][0] == NO_TEXT;
  }
}
