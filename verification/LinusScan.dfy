// The scan of the Linus program is what the taggers do when local_map shows
// them the rows of a frame that the node finds locally.

module LinusScan {
  import opened Arith
  import opened Segments
  import opened Search
  import opened TagSets
  import Placement
  import Frames
  import opened LinusModel

  // ------------------------------------------------------------ the local rows

  lemma PickedRange<T>(rows: seq<T>, lo: nat, hi: nat)
    requires lo <= hi <= |rows|
    ensures forall i | 0 <= i < |Placement.Range(lo, hi)| :: Placement.Range(lo, hi)[i] < |rows|
    ensures Frames.Picked(rows, Placement.Range(lo, hi)) == rows[lo..hi]
  {
    Frames.RangeIsAll(lo, hi);
  }

  lemma SegmentIsSlice<T>(rows: seq<T>, i: nat, cap: nat)
    requires cap > 0 && |rows| > 0 && i < SegmentCount(|rows|, cap)
    ensures var hi := Placement.SegmentEnd(i, SegmentCount(|rows|, cap), |rows|, cap);
      i * cap <= hi <= |rows| && Segment(rows, i, cap) == rows[i * cap..hi]
  {
    Placement.SegmentEndIsRight(i, |rows|, cap);
    FitsItsCount(|rows|, cap);
    Scale(i, SegmentCount(|rows|, cap) - 1, cap);
    hide SegmentCount;
  }

  // The indices that local_indices finds in the first k segments.
  function IndicesIn(c: Config, n: nat, k: nat): seq<nat>
    requires c.Valid()
  {
    Placement.IndicesUpTo(k, c.Segments(2), |c.commits|, c.cap, c.nodes, n)
  }

  lemma NextSegment(c: Config, n: nat, k: nat)
    requires c.Valid() && k < c.Segments(2)
    ensures var lo, hi := k * c.cap, Placement.SegmentEnd(k, c.Segments(2), |c.commits|, c.cap);
      && lo <= hi <= |c.commits|
      && IndicesIn(c, n, k + 1)
         == IndicesIn(c, n, k) + (if NodeOf(k, c.nodes) == n then Placement.Range(lo, hi) else [])
      && LocalRows(c, n, k + 1) == LocalRows(c, n, k) + (if NodeOf(k, c.nodes) == n then c.commits[lo..hi] else [])
  {
    hide SegmentCount, NodeOf, Segment, Placement.Range, Placement.SegmentEnd;
    SegmentIsSlice(c.commits, k, c.cap);
    Placement.NextIndices(k, c.Segments(2), |c.commits|, c.cap, c.nodes, n);
  }

  lemma {:induction false} RowsOfSegments(c: Config, n: nat, k: nat)
    requires c.Valid() && k <= c.Segments(2)
    ensures forall i | 0 <= i < |IndicesIn(c, n, k)| :: IndicesIn(c, n, k)[i] < |c.commits|
    ensures Frames.Picked(c.commits, IndicesIn(c, n, k)) == LocalRows(c, n, k)
  {
    if k == 0 {
      assert IndicesIn(c, n, 0) == [];
    } else {
      RowsOfSegments(c, n, k - 1);
      NextSegment(c, n, k - 1);
      hide IndicesIn, LocalRows, SegmentCount, NodeOf, Frames.Picked, Placement.Range, Placement.SegmentEnd;
      var lo, hi := (k - 1) * c.cap, Placement.SegmentEnd(k - 1, c.Segments(2), |c.commits|, c.cap);
      PickedRange(c.commits, lo, hi);
      Frames.PickedTogether(c.commits, IndicesIn(c, n, k - 1), Placement.Range(lo, hi));
    }
  }

  // The rows that the program of a node scans are those that local_map of a
  // data frame visits.
  lemma ScansWhatLocalMapVisits(c: Config, n: nat)
    requires c.Valid()
    ensures RowsAt(c, n) == Frames.LocalRows(c.commits, c.cap, c.nodes, n)
  {
    RowsOfSegments(c, n, c.Segments(2));
    hide LocalRows, Placement.IndicesUpTo, SegmentCount;
  }

  // ------------------------------------------------------------------ the scan

  predicate Bounded(s: set<nat>, size: nat) {
    forall x | x in s :: x < size
  }

  // Whenever a program scans in round r, its sets are within their sizes.
  lemma ScansBoundedSets(c: Config, l: Local, r: nat)
    requires r >= 1 && BeforeScan(c, l, r)
    ensures Bounded(l.pSet, l.np) && Bounded(l.uSet, l.nu)
  {
    InRange(c.CommitGraph(), (r - 1) / 2);
    InRange(c.CommitGraph(), (r - 1) / 2 + 1);
    hide Naive;
  }

  method SetOf(vals: set<nat>, size: nat) returns (s: Set)
    ensures fresh(s) && s.vals == vals && s.size == size
  {
    s := new Set(size);
    s.vals := vals;
  }

  // A step of round r: the tagger is mapped over the local rows, changes the
  // set of all members and collects the new ones for the merge.
  method Scan(c: Config, n: nat, l: Local, r: nat, query: set<nat>, rows: seq<CommitRow>) returns (after: Local)
    requires Bounded(l.pSet, l.np) && Bounded(l.uSet, l.nu)
    ensures after == Compute(c, n, l, r, query, rows)
  {
    ghost var g := Graph(AsCommits(rows), l.np, l.nu, c.linus);
    if IsOdd(r) {
      var delta := SetOf(query, l.nu);
      var pSet := SetOf(l.pSet, l.np);
      var tagger := new ProjectsTagger(delta, pSet);
      tagger.LocalMap(rows, g);
      after := l.(pSet := pSet.vals, cur := tagger.newProjects.vals);
    } else {
      var delta := SetOf(query, l.np);
      var uSet := SetOf(l.uSet, l.nu);
      var tagger := new UsersTagger(delta, uSet);
      tagger.LocalMap(rows, g);
      after := l.(uSet := uSet.vals, cur := tagger.newUsers.vals);
    }
    after := if n == 0 then NextCollect(c, after, r, 1) else after.(pc := SendSeg(r, 0));
  }
}
