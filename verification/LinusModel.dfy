// The Linus application as a program that each node runs over the store:
// readInput, then rounds of rescanning and merging. Round 2k+1 merges the
// frames projects-k-*, round 2k the frames users-k-*; round 0 is the frame
// users-0-0 that node 0 writes at the start. Every frame is cut into segments
// of cap rows that are spread over the nodes.

module LinusModel {
  import opened Ints
  import opened Search
  import opened TagSets
  import opened Segments

  // Segment names stay distinct up to this number for ids of ten letters.
  const MAX_SEGMENTS := 1000

  // cap: the default segment capacity.
  datatype Config = Config(nodes: nat, np: nat, nu: nat, linus: nat, degrees: nat, cap: nat, commits: seq<CommitRow>)
  {
    // Sets are small enough for ints, local_map needs a row, and no column has
    // more segments than names.
    ghost predicate Valid() {
      && nodes > 0 && cap > 0 && np <= 0x8000_0000 && nu <= 0x8000_0000 && linus < 0x8000_0000
      && |commits| > 0
      && forall f: nat | f < 3 :: Segments(f) <= MAX_SEGMENTS
    }

    function RowCount(f: nat): nat {
      if f == 0 then np else if f == 1 then nu else |commits|
    }

    function Segments(f: nat): nat
      requires cap > 0
    {
      SegmentCount(RowCount(f), cap)
    }

    function Last(): nat { 2 * degrees }

    function CommitGraph(): Graph { Graph(AsCommits(commits), np, nu, linus) }
  }

  // Names in the store: segments and frames of the three inputs (projs, usrs,
  // comts) and of the sets exchanged in each round by each node.
  datatype Id =
    | InSeg(f: nat, s: nat)
    | InFrame(f: nat)
    | DeltaSeg(round: nat, node: nat, s: nat)
    | DeltaFrame(round: nat, node: nat)

  // A stored value: segment contents, or a frame, of which only its number of
  // rows matters here.
  datatype Val =
    | Other
    | Commits(rows: seq<CommitRow>)
    | SetRows(ints: seq<int32>)
    | Size(nrows: nat)

  datatype PC =
    | InPut(f: nat, s: nat)             // node 0 stores input f; s segments done
    | InWait(f: nat)                    // other nodes wait for input f
    | Base(r: nat)                      // step reads users-k-0, r = 2k+1
    | BaseSeg(r: nat, s: nat)
    | Collect(r: nat, i: nat)           // merge at node 0 reads node i's set
    | CollectSeg(r: nat, i: nat, s: nat)
    | SendSeg(r: nat, s: nat)           // merge publishes the set
    | SendFrame(r: nat)
    | Await(r: nat)                     // merge elsewhere reads the merged set
    | AwaitSeg(r: nat, s: nat)
    | Done

  // cur is the set that the current merge works on, rows the number of rows of
  // the frame that is being read.
  datatype Local = Local(pc: PC, np: nat, nu: nat, pSet: set<nat>, uSet: set<nat>, cur: set<nat>, rows: nat)

  datatype Op =
    | DoPut(id: Id, val: Val)
    | DoRead(id: Id, wait: bool)
    | Halt

  function HomeOf(c: Config, id: Id): nat
    requires c.nodes > 0
  {
    match id
    case InSeg(_, s) => NodeOf(s, c.nodes)
    case DeltaSeg(_, _, s) => NodeOf(s, c.nodes)
    case _ => 0
  }

  predicate IsOdd(r: nat) { r % 2 == 1 }

  function Before(r: nat): nat { if r > 0 then r - 1 else 0 }

  function SetSize(l: Local, r: nat): nat {
    if IsOdd(r) then l.np else l.nu
  }

  function OutRows(c: Config, l: Local, r: nat): seq<int32>
    requires c.Valid()
  {
    if r == 0 then [c.linus] else AsInts(Ascending(l.cur, 0, SetSize(l, r)))
  }

  function InputSeg(c: Config, f: nat, s: nat): Val {
    if f == 2 then Commits(Segment(c.commits, s, c.cap)) else Other
  }

  function NextOp(c: Config, n: nat, l: Local): Op
    requires c.Valid()
  {
    match l.pc
    case InPut(f, s) =>
      if s < c.Segments(f) then DoPut(InSeg(f, s), InputSeg(c, f, s)) else DoPut(InFrame(f), Size(c.RowCount(f)))
    case InWait(f) => DoRead(InFrame(f), true)
    case Base(r) => DoRead(DeltaFrame(Before(r), 0), true)
    case BaseSeg(r, s) => DoRead(DeltaSeg(Before(r), 0, s), false)
    case Collect(r, i) => DoRead(DeltaFrame(r, i), true)
    case CollectSeg(r, i, s) => DoRead(DeltaSeg(r, i, s), false)
    case SendSeg(r, s) => DoPut(DeltaSeg(r, n, s), SetRows(Segment(OutRows(c, l, r), s, c.cap)))
    case SendFrame(r) => DoPut(DeltaFrame(r, n), Size(|OutRows(c, l, r)|))
    case Await(r) => DoRead(DeltaFrame(r, 0), true)
    case AwaitSeg(r, s) => DoRead(DeltaSeg(r, 0, s), false)
    case Done => Halt
  }

  function NextCollect(c: Config, l: Local, r: nat, i: nat): Local {
    l.(pc := if i < c.nodes then Collect(r, i) else SendSeg(r, 0))
  }

  // ProjectsTagger or UsersTagger mapped over the local rows, then the start
  // of the merge of what it found.
  function Compute(c: Config, n: nat, l: Local, r: nat, query: set<nat>, rows: seq<CommitRow>): Local {
    var g := Graph(AsCommits(rows), l.np, l.nu, c.linus);
    var l' :=
      if IsOdd(r) then
        var found := ProjectsOf(g.commits, g, query) - l.pSet;
        l.(pSet := l.pSet + found, cur := found)
      else
        var found := UsersOf(g.commits, g, query) - l.uSet;
        l.(uSet := l.uSet + found, cur := found);
    if n == 0 then NextCollect(c, l', r, 1) else l'.(pc := SendSeg(r, 0))
  }

  function StartRound(c: Config, n: nat, l: Local, r: nat, rows: seq<CommitRow>): Local {
    if r > c.Last() then l.(pc := Done)
    else if IsOdd(r) then l.(pc := Base(r))
    else Compute(c, n, l, r, l.cur, rows)
  }

  // pSet->union_ or uSet->union_ with the merged set, then the next round.
  function FinishRound(c: Config, n: nat, l: Local, r: nat, rows: seq<CommitRow>): Local {
    var l' := if IsOdd(r) then l.(pSet := l.pSet + l.cur) else l.(uSet := l.uSet + l.cur);
    StartRound(c, n, l', r + 1, rows)
  }

  // rows: what local_map sees on this node.
  function AfterPut(c: Config, n: nat, l: Local, rows: seq<CommitRow>): Local
    requires c.Valid()
  {
    match l.pc
    case InPut(f, s) =>
      l.(pc := if s < c.Segments(f) then InPut(f, s + 1) else if f < 2 then InPut(f + 1, 0) else SendSeg(0, 0))
    case SendSeg(r, s) =>
      l.(pc := if s + 1 < SegmentCount(|OutRows(c, l, r)|, c.cap) then SendSeg(r, s + 1) else SendFrame(r))
    case SendFrame(r) =>
      if n != 0 then l.(pc := Await(r))
      else if r == 0 then StartRound(c, n, l, 1, rows)
      else FinishRound(c, n, l, r, rows)
    case _ => l
  }

  function RowsOf(v: Val): nat { if v.Size? then v.nrows else 0 }

  function MembersOf(v: Val, size: nat): set<nat> { if v.SetRows? then Members(v.ints, size) else {} }

  // Whether the frame in hand has a segment after s.
  predicate MoreAfter(c: Config, l: Local, s: nat)
    requires c.Valid()
  {
    s + 1 < SegmentCount(l.rows, c.cap)
  }

  function AfterRead(c: Config, n: nat, l: Local, v: Val, rows: seq<CommitRow>): Local
    requires c.Valid()
  {
    match l.pc
    case InWait(f) =>
      if f == 0 then l.(np := RowsOf(v), pc := InWait(1))
      else if f == 1 then l.(nu := RowsOf(v), pc := InWait(2))
      else StartRound(c, n, l, 1, rows)
    case Base(r) =>
      if RowsOf(v) > 0 then l.(pc := BaseSeg(r, 0), rows := RowsOf(v), cur := {}) else Compute(c, n, l, r, {}, rows)
    case BaseSeg(r, s) =>
      var l' := l.(cur := l.cur + MembersOf(v, l.nu));
      if MoreAfter(c, l, s) then l'.(pc := BaseSeg(r, s + 1)) else Compute(c, n, l', r, l'.cur, rows)
    case Collect(r, i) =>
      if RowsOf(v) > 0 then l.(pc := CollectSeg(r, i, 0), rows := RowsOf(v)) else NextCollect(c, l, r, i + 1)
    case CollectSeg(r, i, s) =>
      var l' := l.(cur := l.cur + MembersOf(v, SetSize(l, r)));
      if MoreAfter(c, l, s) then l'.(pc := CollectSeg(r, i, s + 1)) else NextCollect(c, l', r, i + 1)
    case Await(r) =>
      if RowsOf(v) > 0 then l.(pc := AwaitSeg(r, 0), rows := RowsOf(v)) else FinishRound(c, n, l, r, rows)
    case AwaitSeg(r, s) =>
      var l' := l.(cur := l.cur + MembersOf(v, SetSize(l, r)));
      if MoreAfter(c, l, s) then l'.(pc := AwaitSeg(r, s + 1)) else FinishRound(c, n, l', r, rows)
    case _ => l
  }

  // Node 0 knows the sizes from the files it reads; the others learn them.
  function Start(c: Config, n: nat): Local {
    if n == 0 then Local(InPut(0, 0), c.np, c.nu, {}, {}, {}, 0) else Local(InWait(0), 0, 0, {}, {}, {}, 0)
  }

  // ------------------------------------------------ what the run should compute

  // The commits on node n, in the order in which local_map visits them.
  function LocalRows(c: Config, n: nat, upTo: nat): seq<CommitRow>
    requires c.nodes > 0
  {
    if upTo == 0 then []
    else
      LocalRows(c, n, upTo - 1)
        + (if NodeOf(upTo - 1, c.nodes) == n then Segment(c.commits, upTo - 1, c.cap) else [])
  }

  function RowsAt(c: Config, n: nat): seq<CommitRow>
    requires c.nodes > 0 && c.cap > 0
  {
    LocalRows(c, n, c.Segments(2))
  }

  function Merged(c: Config, r: nat): set<nat> {
    if IsOdd(r) then DeltaP(c.CommitGraph(), r / 2) else DeltaU(c.CommitGraph(), r / 2)
  }

  // What node n finds by itself in round r.
  function Finds(c: Config, r: nat, n: nat): set<nat>
    requires c.nodes > 0 && c.cap > 0 && r >= 1
  {
    var k, g := (r - 1) / 2, c.CommitGraph();
    var cs := AsCommits(RowsAt(c, n));
    if IsOdd(r) then ProjectsOf(cs, g, DeltaU(g, k)) - NaiveP(g, k) else UsersOf(cs, g, DeltaP(g, k)) - NaiveU(g, k)
  }

  function FindsBelow(c: Config, r: nat, i: nat): set<nat>
    requires c.nodes > 0 && c.cap > 0 && r >= 1
  {
    if i == 0 then {} else FindsBelow(c, r, i - 1) + Finds(c, r, i - 1)
  }

  function SizeOf(c: Config, r: nat): nat {
    if IsOdd(r) then c.np else c.nu
  }

  // The set that node n publishes in round r, and its rows.
  function RightSet(c: Config, r: nat, n: nat): set<nat>
    requires c.Valid()
  {
    if r == 0 || n == 0 then Merged(c, r) else Finds(c, r, n)
  }

  function RightRows(c: Config, r: nat, n: nat): seq<int32>
    requires c.Valid()
  {
    if r == 0 then [c.linus] else AsInts(Ascending(RightSet(c, r, n), 0, SizeOf(c, r)))
  }

  function DeltaSegments(c: Config, r: nat, n: nat): nat
    requires c.Valid()
  {
    SegmentCount(|RightRows(c, r, n)|, c.cap)
  }

  function ValueOf(c: Config, id: Id): Val
    requires c.Valid()
  {
    match id
    case InSeg(f, s) => InputSeg(c, f, s)
    case InFrame(f) => Size(c.RowCount(f))
    case DeltaSeg(r, n, s) => SetRows(Segment(RightRows(c, r, n), s, c.cap))
    case DeltaFrame(r, n) => Size(|RightRows(c, r, n)|)
  }

  // What the first s segments of that set hold.
  function PartSet(c: Config, r: nat, n: nat, s: nat): set<nat>
    requires c.Valid()
  {
    Members(Slice(RightRows(c, r, n), 0, s * c.cap), SizeOf(c, r))
  }

  // The sets of node n during round r, before and after its own scan.
  predicate BeforeScan(c: Config, l: Local, r: nat)
    requires r >= 1
  {
    var k, g := (r - 1) / 2, c.CommitGraph();
    && l.np == c.np && l.nu == c.nu
    && l.pSet == (if IsOdd(r) then NaiveP(g, k) else NaiveP(g, k + 1))
    && l.uSet == NaiveU(g, k)
  }

  predicate AfterScan(c: Config, n: nat, l: Local, r: nat)
    requires r >= 1 && c.nodes > 0 && c.cap > 0
  {
    var k, g := (r - 1) / 2, c.CommitGraph();
    && l.np == c.np && l.nu == c.nu
    && l.pSet == (if IsOdd(r) then NaiveP(g, k) + Finds(c, r, n) else NaiveP(g, k + 1))
    && l.uSet == (if IsOdd(r) then NaiveU(g, k) else NaiveU(g, k) + Finds(c, r, n))
  }

  predicate Untouched(c: Config, l: Local) {
    l.pSet == {} && l.uSet == {}
  }

  // In the middle of reading the set that node w published in round r, on top
  // of the set start.
  ghost predicate Reading(c: Config, l: Local, r: nat, w: nat, s: nat, start: set<nat>)
    requires c.Valid()
  {
    && l.rows == |RightRows(c, r, w)| > 0 && s < DeltaSegments(c, r, w)
    && l.cur == start + PartSet(c, r, w, s)
  }

  ghost predicate Offering(c: Config, n: nat, l: Local, r: nat)
    requires c.Valid()
  {
    if r == 0 then n == 0 && Untouched(c, l) && l.np == c.np && l.nu == c.nu
    else r <= c.Last() && AfterScan(c, n, l, r) && l.cur == RightSet(c, r, n)
  }

  // At every point of its program a node holds exactly the sets that the naive
  // search prescribes, whatever the schedule was.
  ghost predicate LocalOk(c: Config, n: nat, l: Local)
    requires c.Valid()
  {
    match l.pc
    case InPut(f, s) => n == 0 && f < 3 && s <= c.Segments(f) && Untouched(c, l) && l.np == c.np && l.nu == c.nu
    case InWait(f) => n != 0 && f < 3 && Untouched(c, l) && (f > 0 ==> l.np == c.np) && (f > 1 ==> l.nu == c.nu)
    case Base(r) => 1 <= r <= c.Last() && IsOdd(r) && BeforeScan(c, l, r)
    case BaseSeg(r, s) => 1 <= r <= c.Last() && IsOdd(r) && BeforeScan(c, l, r) && Reading(c, l, r - 1, 0, s, {})
    case Collect(r, i) =>
      n == 0 && 1 <= r <= c.Last() && 1 <= i < c.nodes && AfterScan(c, n, l, r) && l.cur == FindsBelow(c, r, i)
    case CollectSeg(r, i, s) =>
      && n == 0 && 1 <= r <= c.Last() && 1 <= i < c.nodes && AfterScan(c, n, l, r)
      && Reading(c, l, r, i, s, FindsBelow(c, r, i))
    case SendSeg(r, s) => Offering(c, n, l, r) && s < DeltaSegments(c, r, n)
    case SendFrame(r) => Offering(c, n, l, r)
    case Await(r) => n != 0 && r >= 1 && Offering(c, n, l, r)
    case AwaitSeg(r, s) =>
      n != 0 && 1 <= r <= c.Last() && AfterScan(c, n, l, r) && Reading(c, l, r, 0, s, Finds(c, r, n))
    case Done => BeforeScan(c, l, c.Last() + 1)
  }
}
