// The search that the Linus application computes, as mathematics: the naive
// search that rescans every commit each round, and the deltas that the nodes
// really exchange. Ids are the values of the integer columns after the
// conversion to size_t, so a negative id is a very large one.

module Search {
  // The two columns of a commit row that the taggers read.
  datatype Commit = Commit(pid: nat, uid: nat)

  // np, nu: rows of the projects and users frames. linus: the first user.
  datatype Graph = Graph(commits: seq<Commit>, np: nat, nu: nat, linus: nat)

  // Set::test: ids beyond the set's size always count as members.
  predicate Tagged(s: set<nat>, size: nat, id: nat) {
    id >= size || id in s
  }

  // Projects (in range) of commits whose author is tagged.
  function ProjectsOf(cs: seq<Commit>, g: Graph, users: set<nat>): set<nat> {
    set c | c in cs && c.pid < g.np && Tagged(users, g.nu, c.uid) :: c.pid
  }

  // Users (in range) of commits whose project is tagged.
  function UsersOf(cs: seq<Commit>, g: Graph, projects: set<nat>): set<nat> {
    set c | c in cs && c.uid < g.nu && Tagged(projects, g.np, c.pid) :: c.uid
  }

  // The contents of the frame users-0-0 once it is copied into a set.
  function Seed(g: Graph): set<nat> {
    if g.linus < g.nu then {g.linus} else {}
  }

  datatype Found = Found(ps: set<nat>, us: set<nat>)

  // One naive round: rescan every commit from every tagged user, then from
  // every tagged project. Linus is asked about in every round but is not
  // himself a member of the first user set.
  function Round(g: Graph, f: Found): Found {
    var ps := f.ps + ProjectsOf(g.commits, g, f.us + Seed(g));
    Found(ps, f.us + UsersOf(g.commits, g, ps))
  }

  // What is tagged after k naive rounds.
  function Naive(g: Graph, k: nat): Found {
    if k == 0 then Found({}, {}) else Round(g, Naive(g, k - 1))
  }

  function NaiveP(g: Graph, k: nat): set<nat> {
    Naive(g, k).ps
  }

  function NaiveU(g: Graph, k: nat): set<nat> {
    Naive(g, k).us
  }

  // What round k of the naive search adds; DeltaU(0) is the seed frame.
  function DeltaP(g: Graph, k: nat): set<nat> {
    NaiveP(g, k + 1) - NaiveP(g, k)
  }

  function DeltaU(g: Graph, k: nat): set<nat> {
    if k == 0 then Seed(g) else NaiveU(g, k) - NaiveU(g, k - 1)
  }

  // A round commit by commit: it tags the projects of all commits of tagged users
  // and of Linus, and then the users of all commits to tagged projects. Ids out
  // of range are never tagged, and count as if they were.
  lemma RoundByCommits(g: Graph, k: nat, x: nat)
    ensures NaiveP(g, 0) == {} && NaiveU(g, 0) == {}
    ensures var found := exists c | c in g.commits && c.pid == x < g.np ::
        c.uid >= g.nu || c.uid in NaiveU(g, k) || c.uid == g.linus;
      x in NaiveP(g, k + 1) <==> x in NaiveP(g, k) || found
    ensures var found := exists c | c in g.commits && c.uid == x < g.nu :: c.pid >= g.np || c.pid in NaiveP(g, k + 1);
      x in NaiveU(g, k + 1) <==> x in NaiveU(g, k) || found
  {
    hide Naive;
    NextRound(g, k);
  }

  lemma NextRound(g: Graph, k: nat)
    ensures Naive(g, 0) == Found({}, {}) && Naive(g, k + 1) == Round(g, Naive(g, k))
  {
  }

  // Rescanning from the last user delta alone finds exactly the new projects.
  lemma ProjectDeltaIsSemiNaive(g: Graph, k: nat)
    ensures ProjectsOf(g.commits, g, DeltaU(g, k)) - NaiveP(g, k) == DeltaP(g, k)
  {
    if k > 0 {
      var before := NaiveU(g, k - 1) + Seed(g);
      assert NaiveU(g, k) + Seed(g) == before + DeltaU(g, k);
      assert ProjectsOf(g.commits, g, before) <= NaiveP(g, k);
      assert ProjectsOf(g.commits, g, before + DeltaU(g, k))
          == ProjectsOf(g.commits, g, before) + ProjectsOf(g.commits, g, DeltaU(g, k));
    } else {
      assert NaiveU(g, 0) + Seed(g) == DeltaU(g, 0);
    }
  }

  // Rescanning from the last project delta alone finds exactly the new users.
  lemma UserDeltaIsSemiNaive(g: Graph, k: nat)
    ensures UsersOf(g.commits, g, DeltaP(g, k)) - NaiveU(g, k) == DeltaU(g, k + 1)
  {
    assert NaiveP(g, k + 1) == NaiveP(g, k) + DeltaP(g, k);
    assert UsersOf(g.commits, g, NaiveP(g, k) + DeltaP(g, k))
        == UsersOf(g.commits, g, NaiveP(g, k)) + UsersOf(g.commits, g, DeltaP(g, k));
    if k > 0 {
      assert UsersOf(g.commits, g, NaiveP(g, k)) <= NaiveU(g, k);
    }
  }

  // ---------------------------------------------------------------- growth

  lemma {:induction false} Monotone(g: Graph, i: nat, j: nat)
    requires i <= j
    ensures NaiveP(g, i) <= NaiveP(g, j)
    ensures NaiveU(g, i) <= NaiveU(g, j)
    decreases j
  {
    if i < j { Monotone(g, i, j - 1); }
  }

  lemma {:induction false} InRange(g: Graph, k: nat)
    ensures forall p | p in NaiveP(g, k) :: p < g.np
    ensures forall u | u in NaiveU(g, k) :: u < g.nu
  {
    if k > 0 {
      InRange(g, k - 1);
      forall p | p in NaiveP(g, k) ensures p < g.np {
        assert p in NaiveP(g, k - 1) || p in ProjectsOf(g.commits, g, NaiveU(g, k - 1) + Seed(g));
      }
      forall u | u in NaiveU(g, k) ensures u < g.nu {
        assert u in NaiveU(g, k - 1) || u in UsersOf(g.commits, g, NaiveP(g, k));
      }
    }
  }

  // No project and no user is ever announced in two different rounds.
  lemma DeltasAreDisjoint(g: Graph, i: nat, j: nat)
    requires i < j
    ensures DeltaP(g, i) !! DeltaP(g, j)
    ensures DeltaU(g, i + 1) !! DeltaU(g, j + 1)
  {
    Monotone(g, i + 1, j);
  }

  function SumP(g: Graph, k: nat): nat {
    if k == 0 then 0 else SumP(g, k - 1) + |DeltaP(g, k - 1)|
  }

  function SumU(g: Graph, k: nat): nat {
    if k == 0 then 0 else SumU(g, k - 1) + |DeltaU(g, k)|
  }

  lemma StepSizes(g: Graph, k: nat)
    ensures |NaiveP(g, k)| + |DeltaP(g, k)| == |NaiveP(g, k + 1)|
    ensures |NaiveU(g, k)| + |DeltaU(g, k + 1)| == |NaiveU(g, k + 1)|
  {
    Monotone(g, k, k + 1);
    DifferenceSize(NaiveP(g, k + 1), NaiveP(g, k));
    DifferenceSize(NaiveU(g, k + 1), NaiveU(g, k));
  }

  // The announced deltas add up: nothing is lost and nothing counted twice.
  lemma {:induction false} DeltasAreConserved(g: Graph, k: nat)
    ensures SumP(g, k) == |NaiveP(g, k)|
    ensures SumU(g, k) == |NaiveU(g, k)|
  {
    hide Naive, NaiveP, NaiveU, DeltaP, DeltaU;
    if k > 0 {
      DeltasAreConserved(g, k - 1);
      StepSizes(g, k - 1);
    } else {
      NothingAtFirst(g);
    }
  }

  lemma NothingAtFirst(g: Graph)
    ensures NaiveP(g, 0) == {} && NaiveU(g, 0) == {}
  {
  }

  lemma DifferenceSize(a: set<nat>, b: set<nat>)
    requires b <= a
    ensures |a - b| + |b| == |a|
  {
    assert a == (a - b) + b;
  }

  // -------------------------------------------------------------- fixpoint

  // A pair of sets that no commit can extend.
  predicate Closed(g: Graph, ps: set<nat>, us: set<nat>) {
    && ProjectsOf(g.commits, g, us + Seed(g)) <= ps
    && UsersOf(g.commits, g, ps) <= us
  }

  // Closed commit by commit.
  lemma ClosedByCommits(g: Graph, ps: set<nat>, us: set<nat>)
    ensures Closed(g, ps, us) <==> forall c | c in g.commits ::
      && (c.pid < g.np && (c.uid >= g.nu || c.uid in us || c.uid == g.linus) ==> c.pid in ps)
      && (c.uid < g.nu && (c.pid >= g.np || c.pid in ps) ==> c.uid in us)
  {
    if Closed(g, ps, us) {
      forall c | c in g.commits
        ensures c.pid < g.np && (c.uid >= g.nu || c.uid in us || c.uid == g.linus) ==> c.pid in ps
        ensures c.uid < g.nu && (c.pid >= g.np || c.pid in ps) ==> c.uid in us
      {
        assert c.pid < g.np && Tagged(us + Seed(g), g.nu, c.uid) ==> c.pid in ProjectsOf(g.commits, g, us + Seed(g));
        assert c.uid < g.nu && Tagged(ps, g.np, c.pid) ==> c.uid in UsersOf(g.commits, g, ps);
      }
    }
  }

  lemma {:induction false} BelowEveryClosedPair(g: Graph, k: nat, ps: set<nat>, us: set<nat>)
    requires Closed(g, ps, us)
    ensures NaiveP(g, k) <= ps && NaiveU(g, k) <= us
  {
    if k > 0 {
      BelowEveryClosedPair(g, k - 1, ps, us);
      assert ProjectsOf(g.commits, g, NaiveU(g, k - 1) + Seed(g)) <= ProjectsOf(g.commits, g, us + Seed(g));
      assert UsersOf(g.commits, g, NaiveP(g, k)) <= UsersOf(g.commits, g, ps);
    }
  }

  // A round that adds no user is the last one that adds anything.
  lemma QuietRound(g: Graph, k: nat)
    requires k >= 1 && NaiveU(g, k) == NaiveU(g, k - 1)
    ensures NaiveP(g, k + 1) == NaiveP(g, k) && NaiveU(g, k + 1) == NaiveU(g, k)
    ensures Closed(g, NaiveP(g, k), NaiveU(g, k))
  {
    assert ProjectsOf(g.commits, g, NaiveU(g, k - 1) + Seed(g)) <= NaiveP(g, k);
    assert UsersOf(g.commits, g, NaiveP(g, k)) <= NaiveU(g, k);
  }

  lemma {:induction false} QuietForever(g: Graph, k: nat, j: nat)
    requires 1 <= k <= j && NaiveU(g, k) == NaiveU(g, k - 1)
    ensures NaiveP(g, j) == NaiveP(g, k) && NaiveU(g, j) == NaiveU(g, k) == NaiveU(g, j - 1)
    decreases j
  {
    hide Naive, NaiveP, NaiveU, Closed;
    if j > k {
      QuietForever(g, k, j - 1);
      QuietRound(g, j - 1);
    }
  }

  // An empty user delta after the seed ends the search: later rounds add
  // nothing, and the sets are then the least closed ones.
  lemma EmptyDeltaIsFinal(g: Graph, k: nat, j: nat)
    requires 1 <= k <= j
    requires DeltaU(g, k) == {}
    ensures DeltaU(g, j) == {} && DeltaP(g, j) == {}
    ensures NaiveP(g, j) == NaiveP(g, k) && NaiveU(g, j) == NaiveU(g, k)
    ensures Closed(g, NaiveP(g, j), NaiveU(g, j))
    ensures forall ps, us | Closed(g, ps, us) :: NaiveP(g, j) <= ps && NaiveU(g, j) <= us
  {
    hide Naive, NaiveP, NaiveU, Closed;
    NoNewUsers(g, k);
    QuietForever(g, k, j);
    QuietRound(g, j);
    forall ps, us | Closed(g, ps, us) ensures NaiveP(g, j) <= ps && NaiveU(g, j) <= us {
      BelowEveryClosedPair(g, j, ps, us);
    }
  }

  lemma NoNewUsers(g: Graph, k: nat)
    requires k >= 1 && DeltaU(g, k) == {}
    ensures NaiveU(g, k) == NaiveU(g, k - 1)
  {
    Monotone(g, k - 1, k);
    assert forall u | u in NaiveU(g, k) :: u in NaiveU(g, k - 1) || u in DeltaU(g, k);
  }

  // Each round before the end adds a user, so the end comes within nu + 1 rounds.
  lemma {:induction false} GrowsOrHasEnded(g: Graph, k: nat)
    ensures |NaiveU(g, k)| >= k || exists i :: 1 <= i <= k && DeltaU(g, i) == {}
  {
    hide Naive, NaiveP, NaiveU, DeltaP, DeltaU;
    if k > 0 {
      GrowsOrHasEnded(g, k - 1);
      if |NaiveU(g, k - 1)| >= k - 1 {
        StepSizes(g, k - 1);
        assert |DeltaU(g, k)| == 0 ==> DeltaU(g, k) == {};
      } else {
        var i :| 1 <= i <= k - 1 && DeltaU(g, i) == {};
      }
    }
  }

  lemma {:induction false} BoundedSize(s: set<nat>, n: nat)
    requires forall x | x in s :: x < n
    ensures |s| <= n
  {
    if n > 0 {
      BoundedSize(s - {n - 1}, n - 1);
      if n - 1 in s { DifferenceSize(s, {n - 1}); } else { assert s - {n - 1} == s; }
    } else {
      assert s == {};
    }
  }

  lemma HasEnded(g: Graph) returns (i: nat)
    ensures 1 <= i <= g.nu + 1 && DeltaU(g, i) == {}
  {
    hide Naive, NaiveP, NaiveU, DeltaP, DeltaU;
    GrowsOrHasEnded(g, g.nu + 1);
    InRange(g, g.nu + 1);
    BoundedSize(NaiveU(g, g.nu + 1), g.nu);
    i :| 1 <= i <= g.nu + 1 && DeltaU(g, i) == {};
  }

  // After nu + 1 rounds the search is over, whatever the commits are.
  lemma EndsWithinUsersPlusOne(g: Graph, j: nat)
    requires j >= g.nu + 1
    ensures Closed(g, NaiveP(g, j), NaiveU(g, j))
    ensures NaiveP(g, j) == NaiveP(g, g.nu + 1) && NaiveU(g, j) == NaiveU(g, g.nu + 1)
    ensures forall ps, us | Closed(g, ps, us) :: NaiveP(g, j) <= ps && NaiveU(g, j) <= us
  {
    hide Naive, NaiveP, NaiveU, Closed, DeltaU, DeltaP;
    var i := HasEnded(g);
    EmptyDeltaIsFinal(g, i, j);
    EmptyDeltaIsFinal(g, i, g.nu + 1);
  }

  // ---------------------------------------------------- splitting the rows

  // Scanning the rows in parts and uniting the findings is scanning them all.
  lemma ScanSplits(a: seq<Commit>, b: seq<Commit>, g: Graph, s: set<nat>)
    ensures ProjectsOf(a + b, g, s) == ProjectsOf(a, g, s) + ProjectsOf(b, g, s)
    ensures UsersOf(a + b, g, s) == UsersOf(a, g, s) + UsersOf(b, g, s)
  {
  }
}
