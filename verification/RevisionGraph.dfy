/** The Alembic revision graph: every revision has any number of parents, so the graph may branch
    and merge.  A version table holds the maximal revisions of what has been applied. */
module RevisionGraph {

  type Revision = string

  /** `rank` witnesses that the graph has no cycle (Alembic refuses to load one that has). */
  datatype Graph = Graph(parents: map<Revision, set<Revision>>, rank: map<Revision, nat>)
  {
    ghost predicate Valid() {
      && rank.Keys == parents.Keys
      && (forall r <- parents.Keys, p <- parents[r] :: p in rank && rank[p] < rank[r])
    }

    function Parents(r: Revision): set<Revision> {
      if r in parents then parents[r] else {}
    }
  }

  // ----- Reachability -----

  ghost predicate Walk(g: Graph, path: seq<Revision>) {
    path != [] && forall i :: 0 <= i < |path| - 1 ==> path[i + 1] in g.Parents(path[i])
  }

  /** `lo` is `hi` or one of its ancestors. */
  ghost predicate Reaches(g: Graph, hi: Revision, lo: Revision) {
    exists path :: Walk(g, path) && path[0] == hi && path[|path| - 1] == lo
  }

  lemma ReachesSelf(g: Graph, r: Revision)
    ensures Reaches(g, r, r)
  {
    assert Walk(g, [r]);
  }

  lemma ReachesParent(g: Graph, hi: Revision, mid: Revision, lo: Revision)
    requires Reaches(g, hi, mid) && lo in g.Parents(mid)
    ensures Reaches(g, hi, lo)
  {
    var path :| Walk(g, path) && path[0] == hi && path[|path| - 1] == mid;
    var longer := path + [lo];
    assert Walk(g, longer);
    assert longer[0] == hi && longer[|longer| - 1] == lo;
  }

  /** A proper ancestor is an ancestor of a parent, and a parent of some descendant. */
  lemma ReachesSplit(g: Graph, hi: Revision, lo: Revision) returns (first: Revision, last: Revision)
    requires Reaches(g, hi, lo) && hi != lo
    ensures first in g.Parents(hi) && Reaches(g, first, lo)
    ensures Reaches(g, hi, last) && lo in g.Parents(last)
  {
    var path :| Walk(g, path) && path[0] == hi && path[|path| - 1] == lo;
    first, last := path[1], path[|path| - 2];
    var tail, init := path[1..], path[..|path| - 1];
    assert Walk(g, tail) && tail[0] == first && tail[|tail| - 1] == lo;
    assert Walk(g, init) && init[0] == hi && init[|init| - 1] == last;
  }

  lemma ReachesThrough(g: Graph, a: Revision, b: Revision, c: Revision)
    requires Reaches(g, a, b) && Reaches(g, b, c)
    ensures Reaches(g, a, c)
  {
    var path :| Walk(g, path) && path[0] == b && path[|path| - 1] == c;
    ReachesAlong(g, a, path);
  }

  lemma {:induction false} ReachesAlong(g: Graph, a: Revision, path: seq<Revision>)
    requires Walk(g, path) && Reaches(g, a, path[0])
    ensures Reaches(g, a, path[|path| - 1])
    decreases |path|
  {
    if |path| > 1 {
      ReachesParent(g, a, path[0], path[1]);
      var tail := path[1..];
      assert Walk(g, tail) && tail[|tail| - 1] == path[|path| - 1];
      ReachesAlong(g, a, tail);
    }
  }

  lemma {:induction false} RankAlong(g: Graph, path: seq<Revision>)
    requires g.Valid() && Walk(g, path) && |path| > 1
    ensures path[0] in g.rank && path[|path| - 1] in g.rank && g.rank[path[|path| - 1]] < g.rank[path[0]]
    decreases |path|
  {
    assert path[1] in g.Parents(path[0]);
    if |path| > 2 {
      var tail := path[1..];
      assert Walk(g, tail) && tail[|tail| - 1] == path[|path| - 1];
      RankAlong(g, tail);
    }
  }

  /** Ancestors have lower rank, so no revision is its own proper ancestor. */
  lemma RankFalls(g: Graph, hi: Revision, lo: Revision)
    requires g.Valid() && Reaches(g, hi, lo) && hi != lo
    ensures hi in g.rank && lo in g.rank && g.rank[lo] < g.rank[hi]
  {
    var path :| Walk(g, path) && path[0] == hi && path[|path| - 1] == lo;
    RankAlong(g, path);
  }

  lemma NoCycle(g: Graph, a: Revision, b: Revision)
    requires g.Valid() && Reaches(g, a, b) && Reaches(g, b, a)
    ensures a == b
  {
    if a != b {
      RankFalls(g, a, b);
      RankFalls(g, b, a);
      assert false;
    }
  }

  // ----- What a version table stands for -----

  ghost predicate DownClosed(g: Graph, a: set<Revision>) {
    a <= g.parents.Keys && forall r <- a :: g.Parents(r) <= a
  }

  /** The revisions applied when the table shows `version`: those in it and all their ancestors. */
  ghost function Down(g: Graph, version: set<Revision>): set<Revision> {
    set r | r in g.parents && exists w :: w in version && Reaches(g, w, r)
  }

  /** No revision of the table is an ancestor of another. */
  ghost predicate Antichain(g: Graph, version: set<Revision>) {
    version <= g.parents.Keys && forall a <- version, b <- version :: Reaches(g, a, b) ==> a == b
  }

  ghost function Maximal(g: Graph, a: set<Revision>): set<Revision> {
    set r <- a | forall c <- a :: r !in g.Parents(c)
  }

  lemma InDown(g: Graph, version: set<Revision>, w: Revision, r: Revision)
    requires w in version && Reaches(g, w, r) && r in g.parents
    ensures r in Down(g, version)
  {
  }

  lemma DownIsClosed(g: Graph, version: set<Revision>)
    requires g.Valid()
    ensures DownClosed(g, Down(g, version)) && version * g.parents.Keys <= Down(g, version)
  {
    forall r <- Down(g, version), p | p in g.Parents(r) ensures p in Down(g, version) {
      var w :| w in version && Reaches(g, w, r);
      ReachesParent(g, w, r, p);
      assert p in g.rank;
    }
    forall r <- version | r in g.parents ensures r in Down(g, version) {
      ReachesSelf(g, r);
    }
  }

  lemma {:induction false} ClosedAlong(g: Graph, a: set<Revision>, path: seq<Revision>)
    requires DownClosed(g, a) && Walk(g, path) && path[0] in a
    ensures path[|path| - 1] in a
    decreases |path|
  {
    if |path| > 1 {
      assert path[1] in g.Parents(path[0]);
      var tail := path[1..];
      assert Walk(g, tail) && tail[|tail| - 1] == path[|path| - 1];
      ClosedAlong(g, a, tail);
    }
  }

  /** It is the least closed set that holds the version. */
  lemma DownIsLeast(g: Graph, version: set<Revision>, a: set<Revision>)
    requires DownClosed(g, a) && version <= a
    ensures Down(g, version) <= a
  {
    forall r <- Down(g, version) ensures r in a {
      var w :| w in version && Reaches(g, w, r);
      var path :| Walk(g, path) && path[0] == w && path[|path| - 1] == r;
      ClosedAlong(g, a, path);
    }
  }

  lemma DownOfNothing(g: Graph)
    ensures Down(g, {}) == {} && Antichain(g, {})
  {
  }

  lemma SingletonAntichain(g: Graph, r: Revision)
    requires r in g.parents
    ensures Antichain(g, {r})
  {
  }

  /** The table shows exactly the maximal revisions of what has been applied. */
  lemma AntichainIsMaximal(g: Graph, version: set<Revision>)
    requires g.Valid() && Antichain(g, version)
    ensures Maximal(g, Down(g, version)) == version
  {
    DownIsClosed(g, version);
    forall r <- version ensures r in Maximal(g, Down(g, version)) {
      forall c <- Down(g, version) ensures r !in g.Parents(c) {
        NotParentOf(g, version, r, c);
      }
    }
    forall r <- Maximal(g, Down(g, version)) ensures r in version {
      var w :| w in version && Reaches(g, w, r);
      if w != r {
        var first, last := ReachesSplit(g, w, r);
        InParents(g, last, r);
        InDown(g, version, w, last);
      }
    }
  }

  lemma InParents(g: Graph, c: Revision, p: Revision)
    requires p in g.Parents(c)
    ensures c in g.parents
  {
  }

  lemma NotParentOf(g: Graph, version: set<Revision>, r: Revision, c: Revision)
    requires g.Valid() && Antichain(g, version) && r in version && c in Down(g, version)
    ensures r !in g.Parents(c)
  {
    if r in g.Parents(c) {
      var w :| w in version && Reaches(g, w, c);
      ReachesParent(g, w, c, r);
      assert w == r;
      ReachesSelf(g, c);
      ReachesParent(g, c, c, r);
      NoCycle(g, r, c);
      assert false;
    }
  }

  /** So a table is determined by what has been applied. */
  lemma SameDownSameVersion(g: Graph, a: set<Revision>, b: set<Revision>)
    requires g.Valid() && Antichain(g, a) && Antichain(g, b) && Down(g, a) == Down(g, b)
    ensures a == b
  {
    AntichainIsMaximal(g, a);
    AntichainIsMaximal(g, b);
  }

  // ----- Applying one revision -----

  /** The revision can be applied next. */
  ghost predicate Next(g: Graph, version: set<Revision>, r: Revision) {
    r in g.parents && r !in Down(g, version) && g.Parents(r) <= Down(g, version)
  }

  /** Alembic's bookkeeping: the revision replaces those of its parents that the table shows. */
  function Advanced(g: Graph, version: set<Revision>, r: Revision): set<Revision> {
    version - g.Parents(r) + {r}
  }

  lemma AdvancedDown(g: Graph, version: set<Revision>, r: Revision)
    requires g.Valid() && version <= g.parents.Keys && Next(g, version, r)
    ensures Down(g, Advanced(g, version, r)) == Down(g, version) + {r}
  {
    var after, was := Advanced(g, version, r), Down(g, version);
    DownIsClosed(g, version);
    DownIsClosed(g, after);
    assert DownClosed(g, was + {r});
    DownIsLeast(g, after, was + {r});
    forall w <- version ensures w in Down(g, after) {
      if w in g.Parents(r) {
        ReachesSelf(g, r);
        ReachesParent(g, r, r, w);
        InDown(g, after, r, w);
      }
    }
    DownIsLeast(g, version, Down(g, after));
  }

  /** An old revision below the new one is a parent of it, and so no longer shown. */
  lemma OldBelowNew(g: Graph, version: set<Revision>, r: Revision, a: Revision)
    requires g.Valid() && Antichain(g, version) && Next(g, version, r) && a in version && Reaches(g, r, a)
    ensures a in g.Parents(r)
  {
    ReachesSelf(g, a);
    InDown(g, version, a, a);
    var first, last := ReachesSplit(g, r, a);
    var w :| w in version && Reaches(g, w, first);
    ReachesThrough(g, w, first, a);
    assert w == a;
    NoCycle(g, a, first);
  }

  lemma AdvancedAntichain(g: Graph, version: set<Revision>, r: Revision)
    requires g.Valid() && Antichain(g, version) && Next(g, version, r)
    ensures Antichain(g, Advanced(g, version, r))
  {
    var after := Advanced(g, version, r);
    forall a <- after, b <- after | Reaches(g, a, b) ensures a == b {
      if a == r && b != r {
        OldBelowNew(g, version, r, b);
        assert false;
      } else if b == r && a != r {
        InDown(g, version, a, r);
        assert false;
      }
    }
  }

  /** Wherever something is pending, some revision can be applied next. */
  lemma SomethingIsNext(g: Graph, known: set<Revision>, version: set<Revision>) returns (r: Revision)
    requires g.Valid() && DownClosed(g, known) && !(known <= Down(g, version))
    ensures r in known && Next(g, version, r)
  {
    r :| r in known && r !in Down(g, version);
    r := LowestPending(g, known, version, r);
  }

  lemma {:induction false} LowestPending(g: Graph, known: set<Revision>, version: set<Revision>, start: Revision)
    returns (r: Revision)
    requires g.Valid() && DownClosed(g, known) && start in known && start !in Down(g, version)
    ensures r in known && Next(g, version, r)
    decreases g.rank[start]
  {
    r := start;
    if p :| p in g.Parents(start) && p !in Down(g, version) {
      r := LowestPending(g, known, version, p);
    }
  }

  // ----- Logs -----

  ghost function Elements(log: seq<Revision>): set<Revision> {
    set r <- log
  }

  /** The log lists revisions outside `base`, none twice, each after all its parents. */
  ghost predicate Lists(g: Graph, base: set<Revision>, log: seq<Revision>) {
    forall i :: 0 <= i < |log| ==>
      log[i] in g.parents && log[i] !in base + Elements(log[..i]) && g.Parents(log[i]) <= base + Elements(log[..i])
  }

  lemma ElementsSnoc(log: seq<Revision>, r: Revision)
    ensures Elements(log + [r]) == Elements(log) + {r}
  {
  }

  lemma ListsSnoc(g: Graph, base: set<Revision>, log: seq<Revision>, r: Revision)
    requires Lists(g, base, log) && r in g.parents && r !in base + Elements(log) && g.Parents(r) <= base + Elements(log)
    ensures Lists(g, base, log + [r])
  {
    var longer := log + [r];
    forall i | 0 <= i < |longer|
      ensures longer[i] in g.parents && longer[i] !in base + Elements(longer[..i]) &&
                g.Parents(longer[i]) <= base + Elements(longer[..i])
    {
      assert longer[..i] == log[..i];
      assert i == |log| ==> log[..i] == log;
    }
  }

  lemma ListsDistinct(g: Graph, base: set<Revision>, log: seq<Revision>, i: nat, j: nat)
    requires Lists(g, base, log) && i < j < |log|
    ensures log[i] != log[j]
  {
    assert log[..j][i] in Elements(log[..j]);
  }

  lemma ListsNothing(g: Graph, base: set<Revision>)
    ensures Lists(g, base, []) && Elements([]) == {}
  {
  }
}
