// Data frames as values of the key-value store: written as bytes under a name,
// and opened again from those bytes.

module FrameStore {
  import opened Ints
  import opened Arith
  import opened Wire
  import opened Serial
  import opened SegmentNames
  import opened Segments
  import opened Arrays
  import opened Columns
  import opened Frames
  import opened Formats

  class KDStore {
    const store: Store
    var values: map<string, seq<byte>>

    constructor (store: Store)
      ensures this.store == store && values == map[]
    {
      this.store := store;
      values := map[];
    }

    method Put(name: string, frame: DataFrame)
      requires FrameOk(frame.Image())
      modifies this
      ensures values == old(values)[name := FrameBytes(frame.Image())]
    {
      hide FrameBytes, Serializer.Valid, Serializer.Contents, FrameOk, DataFrame.Image;
      var image := frame.Image();
      var s := new Serializer();
      WriteFrame(s, image);
      var bytes := s.GetBytes();
      assert [] + FrameBytes(image) == FrameBytes(image);
      values := values[name := bytes];
      assert image == frame.Image();
    }

    // The frame that is opened from the bytes of a stored one holds its rows.
    method Get(name: string, dflt: nat, ghost from: DataFrame, ghost rows: seq<seq<Field>>) returns (frame: DataFrame)
      requires name in values && from.Holds(rows) && from.store == store && FrameOk(from.Image())
      requires values[name] == FrameBytes(from.Image()) && 0 < dflt < LONG_SPAN && Reopens(|rows|, from.cap, dflt)
      ensures frame.Holds(rows) && frame.store == store && frame.cap == dflt
      ensures fresh(frame) && fresh(frame.columns) && AskedBy(frame.columns) == {}
    {
      hide FrameBytes, FrameOk, DataFrame.Holds, DataFrame.Image, AskedBy;
      var image := ReadImage(values[name], from.Image());
      frame := new DataFrame.Open(store, image, dflt, from, rows);
    }
  }

  method ReadImage(bytes: seq<byte>, ghost image: FrameImage) returns (r: FrameImage)
    requires FrameOk(image) && bytes == FrameBytes(image)
    ensures r == image
  {
    FrameIsReadBack(image, []);
    assert bytes + [] == bytes;
    hide FrameBytes, FrameOk, ReadFrame;
    var d := new Deserializer(bytes);
    var ok;
    ok, r := Formats.GetFrame(d);
  }

  // ------------------------------------------------- frames that can be written

  predicate NameOk(id: string) {
    PlainId(id) && Latin(id) && id != ""
  }

  lemma {:induction false} DecimalIsLatin(k: nat)
    ensures Latin(Decimal(k))
  {
    if k >= 10 { DecimalIsLatin(k / 10); }
  }

  lemma SegmentNameIsWritable(id: string, k: nat)
    requires NameOk(id)
    ensures Writable(SegmentName(id, k))
  {
    DecimalIsLatin(k);
    SmallPowers();
    hide Decimal, Pow256;
  }

  lemma SmallPowers()
    ensures Pow256(SIZE_WIDTH) > 65536
  {
    assert Pow256(1) == 256 && Pow256(2) == 65536 && Pow256(3) == 16777216 && Pow256(4) == 4294967296;
    assert Pow256(5) > 65536 && Pow256(6) > 65536 && Pow256(7) > 65536;
  }

  lemma KeysAreOk(id: string, count: nat, nodes: nat)
    requires NameOk(id) && 0 < nodes && IsSize(nodes) && IsSize(count)
    ensures KeysOk(Keys(id, count, nodes))
  {
    hide Pow256, SegmentName, NameOk, Writable;
    forall i: nat | i < count ensures KeyOk(Keys(id, count, nodes)[i]) { SegmentNameIsWritable(id, i); }
  }

  lemma CountIsSmall(size: nat, cap: nat)
    requires cap > 0 && IsSize(size)
    ensures IsSize(SegmentCount(size, cap))
  {
    SmallPowers();
    hide Pow256;
    if size > 0 { QuotientIsSmall(size - 1, cap); }
  }

  lemma ColumnCanBeWritten(c: Column)
    requires c.Valid() && NameOk(c.colId) && IsSize(c.size) && IsSize(c.store.nodes)
    ensures ColumnOk(c.Image())
  {
    c.Basics();
    SmallPowers();
    hide Pow256, Column.Valid, Keys, SegmentCount, KeysOk;
    CountIsSmall(c.size, c.capacity);
    KeysAreOk(c.colId, |c.segments|, c.store.nodes);
  }

  ghost predicate NamesOk(frame: DataFrame) {
    IsSize(frame.store.nodes) && IsSize(|frame.types|)
    && Known(frame.types)
    && forall j | 0 <= j < |frame.columns| :: NameOk(frame.columns[j].colId)
  }

  lemma FrameCanBeWritten(frame: DataFrame, rows: seq<seq<Field>>)
    requires frame.Holds(rows) && NamesOk(frame) && IsSize(|rows|)
    ensures FrameOk(frame.Image())
  {
    hide Pow256, Column.Valid, ColumnOk, NameOk;
    forall j | 0 <= j < |frame.columns| ensures ColumnOk(frame.columns[j].Image()) {
      frame.columns[j].Basics();
      ColumnCanBeWritten(frame.columns[j]);
    }
  }

  // A writer's rows are visited again, in order, by a map over the frame that
  // is got from the store, at any node, from its bytes; unless some text is
  // empty, and then storing them fails.
  method StoreAndReplay(store: Store, kd: KDStore, name: string, types: string, ids: seq<string>, cap: nat,
      writer: Writer, reader: Reader)
    returns (ok: bool)
    requires kd.store == store && 0 < store.nodes && IsSize(store.nodes) && 0 < cap < LONG_SPAN && |ids| == |types| > 0
    requires IsSize(|types|) && Known(types)
    requires forall i | 0 <= i < |ids| :: NameOk(ids[i]) && |writer.script| <= Limit(ids[i]) * cap
    requires forall i, j | 0 <= i < j < |ids| :: ids[i] != ids[j]
    requires ScriptOk(types, writer.script) && writer.next == 0 && IsSize(|writer.script|)
    modifies writer, store, kd, reader
    ensures ok <==> NoEmptyText(Produced(types, writer.script, |writer.script|))
    ensures ok ==> reader.seen == old(reader.seen) + Produced(types, writer.script, |writer.script|)
  {
    hide DataFrame.Holds, FrameOk, ScriptOk, Produced, PlainId, Limit, FrameBytes, Pow256, NoEmptyText, Known, Latin;
    ghost var rows := Produced(types, writer.script, |writer.script|);
    assert forall i | 0 <= i < |ids| :: PlainId(ids[i]);
    var frame;
    ok, frame := FromVisitor(store, types, ids, cap, writer);
    if !ok { return; }
    FrameIsNamed(frame, types, ids, rows);
    FrameCanBeWritten(frame, rows);
    hide NamesOk, DataFrame.Image;
    kd.Put(name, frame);
    var copy := kd.Get(name, cap, frame, rows);
    copy.Map(reader, rows);
  }

  lemma FrameIsNamed(frame: DataFrame, types: string, ids: seq<string>, rows: seq<seq<Field>>)
    requires frame.Holds(rows) && IsSize(frame.store.nodes) && IsSize(|types|) && frame.types == types
    requires Known(types)
    requires |frame.columns| == |ids| && forall j | 0 <= j < |ids| :: frame.columns[j].colId == ids[j] && NameOk(ids[j])
    ensures NamesOk(frame)
  {
  }
}
