// Columns: sequences of fields cut into segments that a distributed store
// keeps as bytes, and read back through a cache of one segment.

module Columns {
  import opened Ints
  import opened Arith
  import opened Wire
  import opened Serial
  import opened SegmentNames
  import opened Segments
  import opened Arrays

  type Items = map<(nat, string), seq<byte>>

  // The stores of all nodes, once every put has arrived.
  class Store {
    const nodes: nat
    var items: Items

    constructor (nodes: nat)
      requires nodes > 0
      ensures this.nodes == nodes && items == map[]
    {
      this.nodes := nodes;
      items := map[];
    }

    method Put(key: SegKey, val: seq<byte>)
      modifies this
      ensures items == old(items)[(key.node, key.name) := val]
    {
      items := items[(key.node, key.name) := val];
    }

    method Get(key: SegKey) returns (val: seq<byte>)
      requires (key.node, key.name) in items
      ensures val == items[(key.node, key.name)]
    {
      val := items[(key.node, key.name)];
    }
  }

  // ------------------------------------------------------------------ the state

  predicate IsBytesOf(bytes: seq<byte>, kind: Kind, xs: seq<Field>) {
    Stores(kind, xs) && bytes == FieldBytes(kind, xs)
  }

  // What the store must hold of a column whose first count segments are put.
  ghost predicate Stored(items: Items, id: string, nodes: nat, cap: nat, kind: Kind, pushed: seq<Field>, count: nat)
    requires nodes > 0
  {
    forall i: nat | i < count ::
      && (NodeOf(i, nodes), SegmentName(id, i)) in items
      && IsBytesOf(items[(NodeOf(i, nodes), SegmentName(id, i))], kind, Segment(pushed, i, cap))
  }

  // Two states of the store agree on everything that a column with this id uses.
  ghost predicate AgreeOn(items: Items, items': Items, id: string) {
    forall node: nat, k: nat | (node, SegmentName(id, k)) in items ::
      (node, SegmentName(id, k)) in items' && items'[(node, SegmentName(id, k))] == items[(node, SegmentName(id, k))]
  }

  // Everything that columns with another id use is unchanged.
  ghost predicate SparesOthers(items: Items, items': Items, id: string) {
    forall other | PlainId(other) && other != id :: AgreeOn(items, items', other)
  }

  lemma StoredSurvives(items: Items, items': Items, id: string, nodes: nat, cap: nat, kind: Kind, pushed: seq<Field>,
      count: nat)
    requires nodes > 0 && Stored(items, id, nodes, cap, kind, pushed, count) && AgreeOn(items, items', id)
    ensures Stored(items', id, nodes, cap, kind, pushed, count)
  {
    hide IsBytesOf;
  }

  // A put of one column's segment is invisible to every other column.
  lemma PutIsInvisible(items: Items, id: string, seg: nat, node: nat, val: seq<byte>, other: string)
    requires PlainId(id) && PlainId(other) && id != other
    ensures AgreeOn(items, items[(node, SegmentName(id, seg)) := val], other)
  {
    forall k: nat ensures SegmentName(other, k) != SegmentName(id, seg) { NamesOfTwoColumns(other, k, id, seg); }
  }

  lemma PutSparesOthers(items: Items, id: string, seg: nat, node: nat, val: seq<byte>)
    requires PlainId(id)
    ensures SparesOthers(items, items[(node, SegmentName(id, seg)) := val], id)
  {
    hide AgreeOn, PlainId, SegmentName;
    forall other | PlainId(other) && other != id
      ensures AgreeOn(items, items[(node, SegmentName(id, seg)) := val], other)
    {
      PutIsInvisible(items, id, seg, node, val, other);
    }
  }

  lemma SparedIfSame(items: Items, id: string)
    ensures SparesOthers(items, items, id)
  {
  }

  // More elements after the full segments do not change those.
  lemma StoredWithMore(items: Items, id: string, nodes: nat, cap: nat, kind: Kind, pushed: seq<Field>, more: seq<Field>,
      count: nat)
    requires nodes > 0 && Stored(items, id, nodes, cap, kind, pushed, count) && count * cap <= |pushed|
    ensures Stored(items, id, nodes, cap, kind, pushed + more, count)
  {
    forall i: nat | i < count ensures Segment(pushed + more, i, cap) == Segment(pushed, i, cap) {
      BlockFits(i, count, cap);
      FullSliceStays(pushed, more, i * cap, i * cap + cap);
    }
    hide Segment, SegmentName, IsBytesOf;
  }

  // Putting the next segment keeps the earlier ones as long as names fit.
  lemma StoredNext(items: Items, id: string, nodes: nat, cap: nat, kind: Kind, pushed: seq<Field>, count: nat,
      bytes: seq<byte>)
    requires nodes > 0 && PlainId(id) && Stored(items, id, nodes, cap, kind, pushed, count) && count < Limit(id)
    requires IsBytesOf(bytes, kind, Segment(pushed, count, cap))
    ensures var items' := items[(NodeOf(count, nodes), SegmentName(id, count)) := bytes];
      Stored(items', id, nodes, cap, kind, pushed, count + 1)
  {
    hide IsBytesOf;
    forall i: nat | i < count ensures SegmentName(id, i) != SegmentName(id, count) { NamesOfOneColumn(id, i, count); }
  }

  // What is stored has no empty text.
  lemma StoredIsNotEmpty(items: Items, id: string, nodes: nat, cap: nat, kind: Kind, pushed: seq<Field>, count: nat)
    requires nodes > 0 && cap > 0 && Stored(items, id, nodes, cap, kind, pushed, count)
    requires forall i: nat | count <= i < SegmentCount(|pushed|, cap) :: NoEmpty(Segment(pushed, i, cap))
    ensures NoEmpty(pushed)
  {
    forall x | 0 <= x < |pushed| ensures pushed[x] != NO_TEXT {
      SegmentOfIndex(pushed, x, cap);
      hide SegmentIndex, IndexInSegment, SegmentCount, Segment, SegmentName;
      assert NoEmpty(Segment(pushed, SegmentIndex(x, cap), cap));
    }
  }

  lemma PartIsNotEmptyIf(pushed: seq<Field>, seg: nat, cap: nat)
    ensures NoEmpty(pushed) ==> NoEmpty(Segment(pushed, seg, cap))
  {
  }

  lemma PartIsOfKind(kind: Kind, pushed: seq<Field>, seg: nat, cap: nat)
    requires OfKind(kind, pushed)
    ensures OfKind(kind, Segment(pushed, seg, cap)) && |Segment(pushed, seg, cap)| <= cap
  {
  }

  // What serialize writes of a column: not its capacity.
  datatype ColumnImage = ColumnImage(size: nat, colId: string, segments: seq<SegKey>)

  // What is stored of such a column is also right at the default capacity.
  lemma StoredAtDefault(items: Items, id: string, nodes: nat, cap: nat, dflt: nat, kind: Kind, pushed: seq<Field>)
    requires nodes > 0 && cap > 0 && dflt > 0 && Reopens(|pushed|, cap, dflt)
    requires Stored(items, id, nodes, cap, kind, pushed, SegmentCount(|pushed|, cap))
    ensures SegmentCount(|pushed|, dflt) == SegmentCount(|pushed|, cap)
    ensures Stored(items, id, nodes, dflt, kind, pushed, SegmentCount(|pushed|, dflt))
  {
    hide IsBytesOf;
    if cap != dflt {
      CountOfFullSegments(1, |pushed|, cap);
      CountOfFullSegments(1, |pushed|, dflt);
      assert Segment(pushed, 0, cap) == pushed == Segment(pushed, 0, dflt);
    }
  }

  // The bytes of a segment, unless some text in it is empty.
  method SegmentToBytes(kind: Kind, cache: seq<Field>) returns (ok: bool, bytes: seq<byte>)
    requires OfKind(kind, cache) && |cache| < LONG_SPAN
    ensures ok <==> NoEmpty(cache)
    ensures ok ==> IsBytesOf(bytes, kind, cache)
  {
    hide FieldBytes;
    var s := new Serializer();
    ok := WriteFields(s, kind, cache);
    bytes := s.GetBytes();
    if ok { assert [] + FieldBytes(kind, cache) == FieldBytes(kind, cache); }
  }

  method BytesToSegment(kind: Kind, bytes: seq<byte>, ghost xs: seq<Field>) returns (cache: seq<Field>)
    requires IsBytesOf(bytes, kind, xs)
    ensures cache == xs
  {
    FieldsAreReadBack(kind, xs, []);
    assert bytes + [] == bytes;
    hide FieldBytes, ReadFields;
    var d := new Deserializer(bytes);
    var a := new FieldArray.Deserialize(kind, d);
    cache := a.Values();
  }

  class Column {
    const store: Store
    const colId: string
    const kind: Kind
    const capacity: nat
    var segments: seq<SegKey>
    var size: nat
    var finalized: bool
    var cache: seq<Field>
    var cacheName: string
    var currNode: nat
    ghost var pushed: seq<Field>
    ghost var asked: set<nat>  // nodes asked for a segment so far

    ghost predicate Shape()
      reads this
    {
      && store.nodes > 0 && 0 < capacity < LONG_SPAN && PlainId(colId)
      && size == |pushed| && OfKind(kind, pushed) && 1 <= |segments| <= Limit(colId)
      && segments == Keys(colId, |segments|, store.nodes)
      && Fits(|segments|, size, capacity)
    }

    // A column that still grows: all segments but the last are stored and the
    // last one is the cache.
    ghost predicate Filling()
      reads this, store
    {
      && Shape() && !finalized && cacheName == "" && currNode == NodeOf(|segments|, store.nodes)
      && Stored(store.items, colId, store.nodes, capacity, kind, pushed, |segments| - 1)
      && cache == Segment(pushed, |segments| - 1, capacity)
    }

    // A finalized column: all segments are stored, and a cache with a name is
    // the stored segment of that name.
    ghost predicate Readable()
      reads this, store
    {
      && Shape() && finalized
      && Stored(store.items, colId, store.nodes, capacity, kind, pushed, |segments|)
      && (cacheName != "" ==>
            exists i: nat :: i < |segments| && cacheName == segments[i].name && cache == Segment(pushed, i, capacity))
    }

    ghost predicate Valid()
      reads this, store
    {
      (Filling() || Readable()) && |segments| == SegmentCount(size, capacity)
    }

    constructor (store: Store, colId: string, kind: Kind, capacity: nat)
      requires store.nodes > 0 && 0 < capacity < LONG_SPAN && PlainId(colId)
      ensures Valid() && this.store == store && this.colId == colId && this.kind == kind && this.capacity == capacity
      ensures pushed == [] && !finalized
    {
      this.store := store;
      this.colId := colId;
      this.kind := kind;
      this.capacity := capacity;
      segments := [];
      size := 0;
      finalized := false;
      cache := [];
      cacheName := "";
      currNode := 0;
      pushed := [];
      asked := {};
      new;
      PowIsPositive(NAME_LIMIT - 1 - |colId|);
      Expand();
    }

    // The constructor that reads a column back from the image of a finalized one.
    constructor Open(store: Store, image: ColumnImage, kind: Kind, dflt: nat, ghost from: Column)
      requires from.Valid() && from.finalized && from.store == store && image == from.Image() && kind == from.kind
      requires 0 < dflt < LONG_SPAN && Reopens(image.size, from.capacity, dflt)
      ensures Valid() && this.store == store && colId == image.colId && this.kind == kind && capacity == dflt
      ensures pushed == from.pushed && finalized && asked == {}
    {
      this.store := store;
      colId := image.colId;
      this.kind := kind;
      capacity := dflt;
      segments := image.segments;
      size := image.size;
      finalized := true;
      cache := [];
      cacheName := "";
      currNode := 0;
      pushed := from.pushed;
      asked := {};
      new;
      StoredAtDefault(store.items, colId, store.nodes, from.capacity, dflt, kind, pushed);
      FitsItsCount(size, dflt);
      hide Stored, Segment;
    }

    method Expand()
      requires store.nodes > 0 && currNode == NodeOf(|segments|, store.nodes)
      requires segments == Keys(colId, |segments|, store.nodes)
      modifies this`segments, this`currNode, this`cache
      ensures |segments| == |old(segments)| + 1 && segments == Keys(colId, |segments|, store.nodes)
      ensures currNode == NodeOf(|segments|, store.nodes) && cache == []
    {
      segments := segments + [SegKey(SegmentName(colId, |segments|), currNode)];
      currNode := (currNode + 1) % store.nodes;
      cache := [];
      NextNode(|old(segments)|, store.nodes);
    }

    // Stores the cache as bytes; not ok stands for the failing assertion on an
    // empty text.
    method PutInStore() returns (ok: bool)
      requires Filling()
      modifies store
      ensures ok <==> NoEmpty(cache)
      ensures !ok ==> store.items == old(store.items)
      ensures ok ==> SparesOthers(old(store.items), store.items, colId)
      ensures ok ==> Stored(store.items, colId, store.nodes, capacity, kind, pushed, |segments|)
    {
      var n := |segments| - 1;
      LastKey();
      CacheIsPart();
      hide Segment, AgreeOn, SegmentName, NodeOf, Keys, PlainId, Limit, Fits, Stored, SparesOthers;
      var bytes;
      ok, bytes := SegmentToBytes(kind, cache);
      if !ok { return; }
      hide IsBytesOf;
      store.Put(segments[n], bytes);
      StoredNext(old(store.items), colId, store.nodes, capacity, kind, pushed, n, bytes);
      PutSparesOthers(old(store.items), colId, n, NodeOf(n, store.nodes), bytes);
    }

    lemma LastKey()
      requires Filling()
      ensures var n := |segments| - 1; segments[n] == SegKey(SegmentName(colId, n), NodeOf(n, store.nodes))
    {
      hide SegmentName, NodeOf, Stored;
    }

    lemma CacheIsPart()
      requires Filling()
      ensures OfKind(kind, cache) && |cache| < LONG_SPAN
    {
      PartIsOfKind(kind, pushed, |segments| - 1, capacity);
      hide Stored, Segment;
    }

    // The last segment is full: store it and start the next one.
    method Roll() returns (ok: bool)
      requires Filling() && size == |segments| * capacity && size < Limit(colId) * capacity
      modifies this, store
      ensures ok <==> NoEmpty(old(cache))
      ensures ok ==> Filling() && pushed == old(pushed) && size != |segments| * capacity
      ensures ok ==> SparesOthers(old(store.items), store.items, colId)
    {
      ghost var n := |segments|;
      hide Segment, Stored, AgreeOn, SparesOthers, SegmentName, Limit, NoEmpty;
      RoomForOneMore(n, Limit(colId), capacity);
      ok := PutInStore();
      if !ok { return; }
      Expand();
      NothingBeyond(pushed, n, capacity);
      assert size != (n + 1) * capacity;
    }

    // Pushing is possible as long as segment names stay distinct. It fails
    // exactly when it has to store a full segment with an empty text.
    method PushBack(val: Field) returns (ok: bool)
      requires Valid() && !finalized && TypeOf(val) == kind
      requires size < Limit(colId) * capacity
      modifies this, store
      ensures ok <==> old(size) != |old(segments)| * capacity || NoEmpty(old(cache))
      ensures ok ==> Valid() && !finalized && pushed == old(pushed) + [val]
      ensures ok ==> SparesOthers(old(store.items), store.items, colId)
      ensures !ok ==> !NoEmpty(old(pushed))
    {
      SparedIfSame(store.items, colId);
      EmptyInCache();
      assert Filling();
      hide SparesOthers, NoEmpty, Valid, Filling, Limit;
      ok := true;
      if size == |segments| * capacity {
        ok := Roll();
        if !ok { return; }
      }
      Append(val);
    }

    // The stored segments have no empty text; so the column has one if and
    // only if the cache has.
    lemma EmptyInCache()
      requires Valid()
      ensures !finalized ==> (NoEmpty(cache) <==> NoEmpty(pushed))
      ensures finalized ==> NoEmpty(pushed)
    {
      hide Stored, Slice, Segment, SegmentName, NoEmpty, Limit, PlainId, Keys, Fits, SegmentCount;
      var seg := |segments| - 1;
      if finalized {
        StoredIsNotEmpty(store.items, colId, store.nodes, capacity, kind, pushed, seg + 1);
      } else {
        PartIsNotEmptyIf(pushed, seg, capacity);
        if NoEmpty(cache) { StoredIsNotEmpty(store.items, colId, store.nodes, capacity, kind, pushed, seg); }
      }
    }

    // Adds to the last segment, which has room.
    method Append(val: Field)
      requires Filling() && size != |segments| * capacity && TypeOf(val) == kind
      modifies this
      ensures Valid() && !finalized && pushed == old(pushed) + [val]
    {
      ghost var was, seg := pushed, |segments| - 1;
      BlockBounds(seg, size, capacity);
      StoredWithMore(store.items, colId, store.nodes, capacity, kind, was, [val], seg);
      LastSegmentGrows(was, val, seg, capacity);
      CountOfFullSegments(seg + 1, size + 1, capacity);
      hide Segment, Stored, AgreeOn, SegmentName, SegmentCount, Pow10, PlainId, Keys;
      cache := cache + [val];
      size := size + 1;
      pushed := pushed + [val];
    }

    // Succeeds exactly when no text of the column is empty.
    method Finalize() returns (ok: bool)
      requires Valid()
      modifies this, store
      ensures ok <==> NoEmpty(old(pushed))
      ensures pushed == old(pushed) && (ok ==> Valid() && finalized)
      ensures ok ==> SparesOthers(old(store.items), store.items, colId)
      ensures old(finalized) ==> store.items == old(store.items)
    {
      SparedIfSame(store.items, colId);
      EmptyInCache();
      hide SparesOthers, SegmentCount, NoEmpty;
      if finalized { return true; }
      ok := PutInStore();
      finalized := true;
      hide Stored, Segment;
    }

    // Makes the cache segment i, fetching it only if it is not already there.
    method Load(i: nat)
      requires Valid() && finalized && i < |segments|
      modifies this`cache, this`cacheName, this`asked
      ensures Valid() && cache == Segment(pushed, i, capacity) && cacheName == SegmentName(colId, i)
      ensures asked <= old(asked) + {NodeOf(i, store.nodes)}
      ensures old(cacheName) == SegmentName(colId, i) ==> asked == old(asked)
    {
      NamesAreNotEmpty(colId, i);
      SegmentIsStored(i);
      hide Segment, SegmentName, SegmentCount, Pow10, Slice, NodeOf, IsBytesOf;
      var k := segments[i];
      if k.name != cacheName {
        var bytes := store.Get(k);
        cache := BytesToSegment(kind, bytes, Segment(pushed, i, capacity));
        cacheName := k.name;
        asked := asked + {k.node};
      } else {
        CacheIsSegment(i);
      }
    }

    method Get(idx: nat) returns (val: Field)
      requires Valid() && finalized && idx < size
      modifies this`cache, this`cacheName, this`asked
      ensures Valid() && val == pushed[idx]
      ensures cacheName == SegmentName(colId, SegmentIndex(idx, capacity))
      ensures asked <= old(asked) + {NodeOf(SegmentIndex(idx, capacity), store.nodes)}
      ensures old(cacheName) == SegmentName(colId, SegmentIndex(idx, capacity)) ==> asked == old(asked)
    {
      hide Segment, SegmentName, Pow10, Slice, NodeOf, Keys, Stored, Fits, SegmentIndex, IndexInSegment, SegmentCount;
      SegmentOfIndex(pushed, idx, capacity);
      Load(SegmentIndex(idx, capacity));
      val := cache[IndexInSegment(idx, capacity)];
    }

    // serialize of a finalized column.
    function Image(): ColumnImage
      reads this
    {
      ColumnImage(size, colId, segments)
    }

    lemma Basics()
      requires Valid()
      ensures size == |pushed| && OfKind(kind, pushed) && PlainId(colId) && store.nodes > 0 && 0 < capacity < LONG_SPAN
      ensures |segments| == SegmentCount(size, capacity) && segments == Keys(colId, |segments|, store.nodes)
    {
      hide Stored, Segment;
    }

    // Changes to the store that spare this column's names keep the column.
    twostate lemma StaysValid()
      requires old(Valid()) && unchanged(this) && AgreeOn(old(store.items), store.items, colId)
      ensures Valid()
    {
      var count := if finalized then |segments| else |segments| - 1;
      StoredSurvives(old(store.items), store.items, colId, store.nodes, capacity, kind, pushed, count);
      hide Stored, AgreeOn, Segment, SegmentName, SegmentCount, NodeOf, Fits;
    }

    lemma SegmentIsStored(i: nat)
      requires Valid() && finalized && i < |segments|
      ensures segments[i] == SegKey(SegmentName(colId, i), NodeOf(i, store.nodes))
      ensures (segments[i].node, segments[i].name) in store.items
      ensures IsBytesOf(store.items[(segments[i].node, segments[i].name)], kind, Segment(pushed, i, capacity))
    {
      hide IsBytesOf, Segment, SegmentName, NodeOf;
    }

    lemma CacheIsSegment(i: nat)
      requires Valid() && finalized && i < |segments| && segments[i].name == cacheName != ""
      ensures cache == Segment(pushed, i, capacity)
    {
      hide Segment, SegmentName;
      var x: nat :| x < |segments| && cacheName == segments[x].name && cache == Segment(pushed, x, capacity);
      SegmentIsStored(x);
      SegmentIsStored(i);
      NamesOfOneColumn(colId, x, i);
    }
  }
}
