// The mutable tag sets of the Linus application and the visitors that fill
// them from rows or write them out as rows.

module TagSets {
  import opened Ints
  import opened Search

  // The first two integer columns of a commit row.
  datatype CommitRow = CommitRow(pid: int32, uid: int32)

  function AsCommits(rows: seq<CommitRow>): (cs: seq<Commit>) {
    seq(|rows|, i requires 0 <= i < |rows| => Commit(ToSize(rows[i].pid), ToSize(rows[i].uid)))
  }

  class Set {
    var vals: set<nat>
    const size: nat

    constructor (size: nat)
      ensures this.size == size && vals == {}
    {
      this.size := size;
      vals := {};
    }

    ghost predicate Valid()
      reads this
    {
      forall x | x in vals :: x < size
    }

    method Insert(idx: nat)
      modifies this
      ensures vals == old(vals) + (if idx < size then {idx} else {})
    {
      if idx >= size { return; }
      vals := vals + {idx};
    }

    predicate Test(idx: nat)
      reads this
    {
      if idx >= size then true else idx in vals
    }

    method Union(from: Set)
      requires from != this
      modifies this
      ensures vals == old(vals) + (set x | x in from.vals && x < size)
    {
      var todo := from.vals;
      while todo != {}
        invariant todo <= from.vals
        invariant vals == old(vals) + (set x | x in from.vals - todo && x < size)
        decreases todo
      {
        var i :| i in todo;
        Insert(i);
        todo := todo - {i};
      }
    }
  }

  // SetUpdater mapped over the rows of a one-column frame.
  method UpdateFrom(target: Set, rows: seq<int32>)
    modifies target
    ensures target.vals == old(target.vals) + Members(rows, target.size)
  {
    for n := 0 to |rows|
      invariant target.vals == old(target.vals) + Members(rows[..n], target.size)
    {
      target.Insert(ToSize(rows[n]));
      assert rows[..n + 1] == rows[..n] + [rows[n]];
    }
    assert rows[..|rows|] == rows;
  }

  // The in-range indices that a column of ints names.
  function Members(rows: seq<int32>, size: nat): set<nat> {
    set v | v in rows && ToSize(v) < size :: ToSize(v)
  }

  // ProjectsTagger: pSet and newProjects change in place, row by row.
  class ProjectsTagger {
    const uSet: Set
    const pSet: Set
    const newProjects: Set

    constructor (uSet: Set, pSet: Set)
      ensures this.uSet == uSet && this.pSet == pSet
      ensures fresh(newProjects) && newProjects.size == pSet.size && newProjects.vals == {}
    {
      this.uSet := uSet;
      this.pSet := pSet;
      this.newProjects := new Set(pSet.size);
    }

    method Visit(row: CommitRow)
      modifies pSet, newProjects
      requires pSet != newProjects && uSet != pSet && uSet != newProjects
      requires newProjects.size == pSet.size
      ensures var pid, uid := ToSize(row.pid), ToSize(row.uid);
        var hit := (uid >= uSet.size || uid in uSet.vals) && pid < pSet.size && pid !in old(pSet.vals);
        && pSet.vals == old(pSet.vals) + (if hit then {pid} else {})
        && newProjects.vals == old(newProjects.vals) + (if hit then {pid} else {})
    {
      if uSet.Test(ToSize(row.uid)) {
        if !pSet.Test(ToSize(row.pid)) {
          pSet.Insert(ToSize(row.pid));
          newProjects.Insert(ToSize(row.pid));
        }
      }
    }

    // The tagger mapped over the local commits: it finds the projects that one
    // rescan from uSet finds and that were not known, and adds them to both sets.
    method LocalMap(rows: seq<CommitRow>, ghost g: Graph)
      modifies pSet, newProjects
      requires pSet != newProjects && uSet != pSet && uSet != newProjects
      requires pSet.size == newProjects.size == g.np && uSet.size == g.nu
      requires newProjects.vals == {} && pSet.Valid()
      ensures newProjects.vals == ProjectsOf(AsCommits(rows), g, uSet.vals) - old(pSet.vals)
      ensures pSet.vals == old(pSet.vals) + newProjects.vals
    {
      ghost var cs := AsCommits(rows);
      for n := 0 to |rows|
        invariant newProjects.vals == ProjectsOf(cs[..n], g, uSet.vals) - old(pSet.vals)
        invariant pSet.vals == old(pSet.vals) + newProjects.vals
      {
        Visit(rows[n]);
        assert cs[..n + 1] == cs[..n] + [cs[n]];
        ScanSplits(cs[..n], [cs[n]], g, uSet.vals);
        assert cs[n] == Commit(ToSize(rows[n].pid), ToSize(rows[n].uid));
        assert ProjectsOf([cs[n]], g, uSet.vals)
            == if cs[n].pid < g.np && Tagged(uSet.vals, g.nu, cs[n].uid) then {cs[n].pid} else {};
      }
      assert cs[..|rows|] == cs;
    }
  }

  // UsersTagger: the mirror image, from tagged projects to users.
  class UsersTagger {
    const pSet: Set
    const uSet: Set
    const newUsers: Set

    constructor (pSet: Set, uSet: Set)
      ensures this.pSet == pSet && this.uSet == uSet
      ensures fresh(newUsers) && newUsers.size == uSet.size && newUsers.vals == {}
    {
      this.pSet := pSet;
      this.uSet := uSet;
      this.newUsers := new Set(uSet.size);
    }

    method Visit(row: CommitRow)
      modifies uSet, newUsers
      requires uSet != newUsers && pSet != uSet && pSet != newUsers
      requires newUsers.size == uSet.size
      ensures var pid, uid := ToSize(row.pid), ToSize(row.uid);
        var hit := (pid >= pSet.size || pid in pSet.vals) && uid < uSet.size && uid !in old(uSet.vals);
        && uSet.vals == old(uSet.vals) + (if hit then {uid} else {})
        && newUsers.vals == old(newUsers.vals) + (if hit then {uid} else {})
    {
      if pSet.Test(ToSize(row.pid)) {
        if !uSet.Test(ToSize(row.uid)) {
          uSet.Insert(ToSize(row.uid));
          newUsers.Insert(ToSize(row.uid));
        }
      }
    }

    method LocalMap(rows: seq<CommitRow>, ghost g: Graph)
      modifies uSet, newUsers
      requires uSet != newUsers && pSet != uSet && pSet != newUsers
      requires uSet.size == newUsers.size == g.nu && pSet.size == g.np
      requires newUsers.vals == {} && uSet.Valid()
      ensures newUsers.vals == UsersOf(AsCommits(rows), g, pSet.vals) - old(uSet.vals)
      ensures uSet.vals == old(uSet.vals) + newUsers.vals
    {
      ghost var cs := AsCommits(rows);
      for n := 0 to |rows|
        invariant newUsers.vals == UsersOf(cs[..n], g, pSet.vals) - old(uSet.vals)
        invariant uSet.vals == old(uSet.vals) + newUsers.vals
      {
        Visit(rows[n]);
        assert cs[..n + 1] == cs[..n] + [cs[n]];
        ScanSplits(cs[..n], [cs[n]], g, pSet.vals);
        assert cs[n] == Commit(ToSize(rows[n].pid), ToSize(rows[n].uid));
        assert UsersOf([cs[n]], g, pSet.vals)
            == if cs[n].uid < g.nu && Tagged(pSet.vals, g.np, cs[n].pid) then {cs[n].uid} else {};
      }
      assert cs[..|rows|] == cs;
    }
  }

  // ------------------------------------------------------- publishing a set

  // The members of s from lo up to hi, smallest first.
  function Ascending(s: set<nat>, lo: nat, hi: nat): seq<nat>
    decreases hi - lo
  {
    if lo >= hi then [] else (if lo in s then [lo] else []) + Ascending(s, lo + 1, hi)
  }

  lemma {:induction false} AscendingIsSorted(s: set<nat>, lo: nat, hi: nat)
    ensures forall i, j | 0 <= i < j < |Ascending(s, lo, hi)| :: Ascending(s, lo, hi)[i] < Ascending(s, lo, hi)[j]
    ensures forall x :: x in Ascending(s, lo, hi) <==> lo <= x < hi && x in s
    decreases hi - lo
  {
    if lo < hi {
      AscendingIsSorted(s, lo + 1, hi);
      var rest := Ascending(s, lo + 1, hi);
      assert forall k | 0 <= k < |rest| :: rest[k] in rest && rest[k] > lo;
    }
  }

  lemma {:induction false} AscendingSplits(s: set<nat>, lo: nat, mid: nat, hi: nat)
    requires lo <= mid <= hi
    ensures Ascending(s, lo, hi) == Ascending(s, lo, mid) + Ascending(s, mid, hi)
    decreases mid - lo
  {
    if lo < mid { AscendingSplits(s, lo + 1, mid, hi); }
  }

  function AsInts(xs: seq<nat>): seq<int32> {
    seq(|xs|, i requires 0 <= i < |xs| => ToInt32(xs[i]))
  }

  class SetWriter {
    const source: Set
    var i: nat

    constructor (source: Set)
      ensures this.source == source && i == 0
    {
      this.source := source;
      i := 0;
    }

    // Skips to the next member, or to the end of the set.
    method Done() returns (done: bool)
      requires i <= source.size
      modifies this
      ensures old(i) <= i <= source.size
      ensures forall x | old(i) <= x < i :: x !in source.vals
      ensures done <==> i == source.size
      ensures !done ==> i in source.vals
    {
      while i < source.size && !source.Test(i)
        invariant old(i) <= i <= source.size
        invariant forall x | old(i) <= x < i :: x !in source.vals
      {
        i := i + 1;
      }
      done := i == source.size;
    }

    method Visit() returns (val: int32)
      modifies this
      ensures val == ToInt32(old(i)) && i == old(i) + 1
    {
      val := ToInt32(i);
      i := i + 1;
    }
  }

  lemma {:induction false} NoneBetween(s: set<nat>, lo: nat, hi: nat)
    requires forall x | lo <= x < hi :: x !in s
    ensures Ascending(s, lo, hi) == []
    decreases hi - lo
  {
    if lo < hi { NoneBetween(s, lo + 1, hi); }
  }

  // The writer loop of fromVisitor: it stops, and the rows are the members of
  // the set, each once and in increasing order, cut to 32 bits.
  method Publish(source: Set) returns (rows: seq<int32>)
    ensures rows == AsInts(Ascending(source.vals, 0, source.size))
  {
    var w := new SetWriter(source);
    rows := [];
    var done := w.Done();
    NoneBetween(source.vals, 0, w.i);
    while !done
      invariant 0 <= w.i <= source.size && w.source == source
      invariant rows == AsInts(Ascending(source.vals, 0, w.i))
      invariant done <==> w.i == source.size
      invariant !done ==> w.i in source.vals
      invariant fresh(w)
      decreases source.size - w.i
    {
      ghost var at := w.i;
      var val := w.Visit();
      rows := rows + [val];
      AscendingSplits(source.vals, 0, at, at + 1);
      assert Ascending(source.vals, at, at + 1) == [at];
      done := w.Done();
      NoneBetween(source.vals, at + 1, w.i);
      AscendingSplits(source.vals, 0, at + 1, w.i);
    }
  }

  // Publishing a set and reading the rows back gives the set again exactly
  // when every member fits an int.
  lemma PublishedSetReadsBack(s: set<nat>, size: nat)
    requires forall x | x in s :: x < size
    requires size < 0xFFFF_FFFF_8000_0000
    ensures Members(AsInts(Ascending(s, 0, size)), size) == s <==> forall x | x in s :: x < 0x8000_0000
  {
    if forall x | x in s :: x < 0x8000_0000 {
      SmallMembersReadBack(s, size);
    } else {
      var x :| x in s && x >= 0x8000_0000;
      LargeIndexIsNeverRead(AsInts(Ascending(s, 0, size)), size, x);
    }
  }

  lemma SmallIndexSurvives(i: nat)
    requires i < 0x8000_0000
    ensures ToInt32(i) == i && ToSize(ToInt32(i)) == i
  {
  }

  lemma LargeIndexIsNeverRead(rows: seq<int32>, size: nat, x: nat)
    requires 0x8000_0000 <= x < size < 0xFFFF_FFFF_8000_0000
    ensures x !in Members(rows, size)
  {
  }

  lemma SmallMembersReadBack(s: set<nat>, size: nat)
    requires forall x | x in s :: x < size && x < 0x8000_0000
    ensures Members(AsInts(Ascending(s, 0, size)), size) == s
  {
    var xs := Ascending(s, 0, size);
    var rows := AsInts(xs);
    AscendingIsSorted(s, 0, size);
    forall k | 0 <= k < |xs| ensures rows[k] in rows && ToSize(rows[k]) == xs[k] && xs[k] in s {
      assert xs[k] in xs;
      SmallIndexSurvives(xs[k]);
    }
    hide *;
    forall x | x in s ensures x in Members(rows, size) {
      assert x in xs;
      var k :| 0 <= k < |xs| && xs[k] == x;
      MemberFromRow(rows, size, k);
    }
    forall y | y in Members(rows, size) ensures y in s {
      var k := RowOfMember(rows, size, y);
    }
  }

  lemma MemberFromRow(rows: seq<int32>, size: nat, k: nat)
    requires k < |rows| && ToSize(rows[k]) < size
    ensures ToSize(rows[k]) in Members(rows, size)
  {
  }

  lemma RowOfMember(rows: seq<int32>, size: nat, y: nat) returns (k: nat)
    requires y in Members(rows, size)
    ensures k < |rows| && ToSize(rows[k]) == y
  {
    k :| 0 <= k < |rows| && ToSize(rows[k]) == y;
  }
}
