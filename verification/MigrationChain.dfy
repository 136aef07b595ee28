/** The chain checker that `rewrite_alembic_revisions.py` runs over the migration
    directory.  A file is represented by its name and by what the two assignment
    patterns matched in its text.  The checker fills dictionaries in nested loops; its
    clean verdict is proved to mean "one linear chain covering every file". */
module MigrationChain {

  import opened Options

  /** What the `down_revision` pattern matched: nothing, the literal `None`, or a quoted id. */
  datatype DownMatch = NoMatch | NoneLiteral | Quoted(id: string)

  datatype MigrationFile = MigrationFile(name: string, revision: Option<string>, down: DownMatch)
  {
    predicate Parsed() {
      revision.Some? && !down.NoMatch?
    }

    function Down(): Option<string> {
      if down.Quoted? then Some(down.id) else None
    }
  }

  datatype Error =
    | MissingRevision(name: string)
    | MissingDownRevision(name: string)
    | DuplicateRevision(revision: string)
    | FilenameMismatch(revision: string, name: string)
    | MissingTarget(target: string, referencedBy: string)
    | RootCount(roots: nat)
    | HeadCount(heads: nat)
    | CycleAt(revision: string)
    | Unreachable(missing: set<string>)

  type Links = map<string, Option<string>>

  // ----- What a clean migration directory is -----

  /** `chain` lists every file's revision exactly once, root first, each one revising the
      one before it. */
  ghost predicate LinearChain(files: seq<MigrationFile>, chain: seq<string>) {
    && |chain| == |files| > 0
    && (forall f <- files :: f.Parsed() && f.name == f.revision.value + ".py" && f.revision.value in chain)
    && (forall i, j :: 0 <= i < j < |files| ==> files[i].revision != files[j].revision)
    && (forall i, j :: 0 <= i < j < |chain| ==> chain[i] != chain[j])
    && (forall f <- files :: f.Parsed() && f.revision == Some(chain[0]) ==> f.Down() == None)
    && (forall f <- files, i :: 0 < i < |chain| && f.Parsed() && f.revision == Some(chain[i]) ==>
         f.Down() == Some(chain[i - 1]))
  }

  // ----- The link dictionary that the first loop builds -----

  /** The dictionary after scanning `files`: the first parsed file of a revision wins. */
  ghost function LinksOf(files: seq<MigrationFile>): Links {
    if files == [] then map[] else
      var before, f := LinksOf(files[..|files| - 1]), files[|files| - 1];
      if f.Parsed() && f.revision.value !in before then before[f.revision.value := f.Down()] else before
  }

  ghost function Targets(links: Links): set<string> {
    set r | r in links && links[r].Some? :: links[r].value
  }

  ghost function Roots(links: Links): set<string> {
    set r | r in links && links[r] == None
  }

  ghost function Heads(links: Links): set<string> {
    set r | r in links && r !in Targets(links)
  }

  /** Following `down_revision` from `r` stops after exactly `d` steps. */
  ghost predicate StopsAfter(links: Links, r: string, d: nat)
    decreases d
  {
    var down := if r in links then links[r] else None;
    if d == 0 then down == None else down.Some? && StopsAfter(links, down.value, d - 1)
  }

  ghost predicate Stops(links: Links, r: string) {
    exists d: nat :: StopsAfter(links, r, d)
  }

  ghost predicate Trail(links: Links, trail: seq<string>) {
    && trail != []
    && forall i :: 0 <= i < |trail| - 1 ==> trail[i] in links && links[trail[i]] == Some(trail[i + 1])
  }

  /** Following `down_revision` from `r` leads back to `r`. */
  ghost predicate OnCycle(links: Links, r: string) {
    exists loop :: Trail(links, loop) && |loop| > 1 && loop[0] == r && loop[|loop| - 1] == r
  }

  ghost predicate ParsedAs(f: MigrationFile, r: string) {
    f.revision == Some(r) && f.down != NoMatch
  }

  /** What is wrong with file `k` by itself or in view of the files before it. */
  ghost predicate FoundAt(files: seq<MigrationFile>, k: nat, e: Error)
    requires k < |files|
  {
    var f := files[k];
    match e
    case MissingRevision(n) => f.name == n && f.revision == None
    case MissingDownRevision(n) => f.name == n && f.revision != None && f.down == NoMatch
    case DuplicateRevision(r) => ParsedAs(f, r) && exists i :: 0 <= i < k && ParsedAs(files[i], r)
    case FilenameMismatch(r, n) =>
      f.name == n && n != r + ".py" && ParsedAs(f, r) && forall i :: 0 <= i < k ==> !ParsedAs(files[i], r)
    case _ => false
  }

  /** The defects that the checker is to report; after the first loop they are those of the
      dictionary. */
  ghost predicate Defect(files: seq<MigrationFile>, e: Error) {
    var links := LinksOf(files);
    match e
    case MissingTarget(t, r) => r in links && links[r] == Some(t) && t !in links
    case RootCount(n) => n == |Roots(links)| != 1
    case HeadCount(n) => n == |Heads(links)| != 1
    case CycleAt(r) => OnCycle(links, r)
    case Unreachable(m) => m == {} && !Closed(links)
    case _ => exists k :: 0 <= k < |files| && FoundAt(files, k, e)
  }

  // ----- Walk lemmas -----

  lemma {:induction false} StopsAfterUnique(links: Links, r: string, d: nat, e: nat)
    requires StopsAfter(links, r, d) && StopsAfter(links, r, e)
    ensures d == e
    decreases d
  {
    if d > 0 && e > 0 {
      StopsAfterUnique(links, links[r].value, d - 1, e - 1);
    }
  }

  /** A walk that has made `|trail| - 1` steps has that many fewer left. */
  lemma {:induction false} StopsAlong(links: Links, trail: seq<string>, d: nat)
    requires Trail(links, trail) && StopsAfter(links, trail[0], d)
    ensures |trail| - 1 <= d && StopsAfter(links, trail[|trail| - 1], d - (|trail| - 1))
  {
    if |trail| > 1 {
      StopsAlong(links, trail[1..], d - 1);
    }
  }

  lemma {:induction false} StopsFromEnd(links: Links, trail: seq<string>, d: nat)
    requires Trail(links, trail) && StopsAfter(links, trail[|trail| - 1], d)
    ensures StopsAfter(links, trail[0], d + |trail| - 1)
  {
    if |trail| > 1 {
      StopsFromEnd(links, trail[1..], d);
    }
  }

  /** Meeting a revision again means that no revision on the walk ever stops. */
  lemma RepeatNeverStops(links: Links, trail: seq<string>, i: nat)
    requires Trail(links, trail) && i < |trail| - 1 && trail[i] == trail[|trail| - 1]
    ensures !Stops(links, trail[0]) && !Stops(links, trail[i])
  {
    var loop := trail[i..];
    if Stops(links, trail[i]) {
      var d: nat :| StopsAfter(links, trail[i], d);
      StopsAlong(links, loop, d);
      StopsAfterUnique(links, trail[i], d, d - (|loop| - 1));
      assert false;
    }
    if Stops(links, trail[0]) {
      var d: nat :| StopsAfter(links, trail[0], d);
      StopsAlong(links, trail[..i + 1], d);
      assert false;
    }
  }

  lemma {:induction false} TrailStays(links: Links, trail: seq<string>, within: set<string>)
    requires Trail(links, trail) && trail[0] in within
    requires forall x :: x in within && x in links && links[x].Some? ==> links[x].value in within
    ensures trail[|trail| - 1] in within
  {
    if |trail| > 1 {
      TrailStays(links, trail[1..], within);
    }
  }

  /** A walk that starts on a cycle comes first back to where it started. */
  lemma CycleEntry(links: Links, trail: seq<string>, i: nat)
    requires Trail(links, trail) && i < |trail| - 1 && trail[i] == trail[|trail| - 1]
    requires forall j, k :: 0 <= j < k < |trail| - 1 ==> trail[j] != trail[k]
    requires OnCycle(links, trail[0])
    ensures i == 0
  {
    var loop :| Trail(links, loop) && |loop| > 1 && loop[0] == trail[0] && loop[|loop| - 1] == trail[0];
    var onLoop, onTail := set x | x in loop, set x | x in trail[i..];
    LoopIsClosed(links, loop);
    TrailStays(links, trail[..i + 1], onLoop);
    assert trail[i] in loop;
    var k :| 0 <= k < |loop| && loop[k] == trail[i];
    LoopIsClosed(links, trail[i..]);
    TrailStays(links, loop[k..], onTail);
    assert trail[0] in trail[i..];
    var j :| 0 <= j < |trail[i..]| && trail[i..][j] == trail[0];
    assert trail[i + j] == trail[0];
  }

  /** The walk never leaves a loop. */
  lemma LoopIsClosed(links: Links, loop: seq<string>)
    requires Trail(links, loop) && |loop| > 1 && loop[0] == loop[|loop| - 1]
    ensures forall x :: x in loop && x in links && links[x].Some? ==> links[x].value in loop
  {
    forall x | x in loop && x in links && links[x].Some? ensures links[x].value in loop {
      var k :| 0 <= k < |loop| && loop[k] == x;
      assert links[x] == Some(loop[if k == |loop| - 1 then 1 else k + 1]);
    }
  }

  lemma LoopNeverStops(links: Links, r: string)
    requires OnCycle(links, r)
    ensures r in links && !Stops(links, r)
  {
    var loop :| Trail(links, loop) && |loop| > 1 && loop[0] == r && loop[|loop| - 1] == r;
    RepeatNeverStops(links, loop, 0);
  }

  // ----- One root, one head, no cycle, no dangling target: a single path -----

  ghost predicate Closed(links: Links) {
    forall r :: r in links && links[r].Some? ==> links[r].value in links
  }

  ghost predicate Sound(links: Links) {
    && |Roots(links)| == 1
    && |Heads(links)| == 1
    && Closed(links)
    && (forall r :: r in links ==> Stops(links, r))
  }

  /** The walk from `r` down to the root, written root first. */
  ghost function Path(links: Links, r: string, d: nat): (p: seq<string>)
    requires StopsAfter(links, r, d)
    ensures |p| == d + 1 && p[d] == r
    decreases d
  {
    if d == 0 then [r] else Path(links, links[r].value, d - 1) + [r]
  }

  lemma {:induction false} PathLinks(links: Links, r: string, d: nat)
    requires r in links && StopsAfter(links, r, d)
    requires Closed(links)
    ensures forall i :: 0 <= i <= d ==> Path(links, r, d)[i] in links && StopsAfter(links, Path(links, r, d)[i], i)
    ensures links[Path(links, r, d)[0]] == None
    ensures forall i :: 0 < i <= d ==> links[Path(links, r, d)[i]] == Some(Path(links, r, d)[i - 1])
    decreases d
  {
    if d > 0 {
      PathLinks(links, links[r].value, d - 1);
    }
  }

  /** Some revision of a non-empty set lies deepest. */
  lemma {:induction false} Deepest(links: Links, s: set<string>) returns (r: string, d: nat)
    requires s != {} && forall x <- s :: Stops(links, x)
    ensures r in s && StopsAfter(links, r, d)
    ensures forall x <- s, e: nat :: StopsAfter(links, x, e) ==> e <= d
    decreases |s|
  {
    var x :| x in s;
    var dx: nat :| StopsAfter(links, x, dx);
    var rest := s - {x};
    r, d := x, dx;
    if rest != {} {
      var r', d' := Deepest(links, rest);
      if d' > dx {
        r, d := r', d';
      }
    }
    forall y <- s, e: nat | StopsAfter(links, y, e) ensures e <= d {
      if y == x {
        StopsAfterUnique(links, x, dx, e);
      } else {
        assert y in rest;
      }
    }
  }

  /** The dictionary links exactly the revisions of `chain`, each to the one before it. */
  ghost predicate ChainOf(links: Links, chain: seq<string>) {
    && chain != [] && (forall r :: r in links <==> r in chain)
    && (forall i, j :: 0 <= i < j < |chain| ==> chain[i] != chain[j])
    && chain[0] in links && links[chain[0]] == None
    && (forall i :: 0 < i < |chain| ==> chain[i] in links && links[chain[i]] == Some(chain[i - 1]))
  }

  /** The hard direction: the four local checks force one path through every revision.
      A deepest revision off the head's path would have a deeper child off the path. */
  lemma SoundIsOnePath(links: Links) returns (chain: seq<string>)
    requires Sound(links)
    ensures ChainOf(links, chain)
  {
    var head :| head in Heads(links);
    assert Heads(links) == {head} by { SingletonIs(Heads(links), head); }
    var d: nat :| StopsAfter(links, head, d);
    chain := Path(links, head, d);
    PathLinks(links, head, d);
    forall c <- chain | links[c].Some? ensures links[c].value in chain {
      var i :| 0 <= i < |chain| && chain[i] == c;
      assert links[c] == Some(chain[i - 1]);
    }
    var off := links.Keys - set r | r in chain;
    if off != {} {
      var r, depth := Deepest(links, off);
      assert head == chain[d];
      assert r !in Heads(links);
      var child :| child in links && links[child] == Some(r);
      assert StopsAfter(links, child, depth + 1);
      assert false;
    }
    forall i, j | 0 <= i < j < |chain| ensures chain[i] != chain[j] {
      if chain[i] == chain[j] {
        StopsAfterUnique(links, chain[i], i, j);
        assert false;
      }
    }
  }

  lemma SingletonIs<T>(s: set<T>, x: T)
    requires |s| == 1 && x in s
    ensures s == {x}
  {
    assert |s - {x}| == 0;
  }

  // ----- Files and dictionary -----

  /** Every file contributed its own revision. */
  ghost predicate Clean(files: seq<MigrationFile>) {
    && (forall f <- files :: f.Parsed() && f.name == f.revision.value + ".py")
    && (forall i, j :: 0 <= i < j < |files| ==> files[i].revision != files[j].revision)
  }

  lemma {:induction false} LinksDomain(files: seq<MigrationFile>)
    ensures forall r :: r in LinksOf(files) <==> exists f <- files :: f.Parsed() && f.revision == Some(r)
    ensures forall r :: r in LinksOf(files) ==> exists f <- files ::
              f.Parsed() && f.revision == Some(r) && f.Down() == LinksOf(files)[r]
  {
    if files != [] {
      var init, f := files[..|files| - 1], files[|files| - 1];
      LinksDomain(init);
      assert files == init + [f];
      forall r | r in LinksOf(files) && r !in LinksOf(init)
        ensures exists g <- files :: g.Parsed() && g.revision == Some(r) && g.Down() == LinksOf(files)[r]
      {
        assert f in files && f.revision == Some(r);
      }
    }
  }

  lemma {:induction false} CleanLinks(files: seq<MigrationFile>)
    requires Clean(files)
    ensures |LinksOf(files)| == |files|
    ensures forall f <- files :: f.revision.value in LinksOf(files) && LinksOf(files)[f.revision.value] == f.Down()
  {
    if files != [] {
      var init, f := files[..|files| - 1], files[|files| - 1];
      assert files == init + [f];
      CleanSplits(init, f);
      CleanLinks(init);
      assert LinksOf(files) == LinksOf(init)[f.revision.value := f.Down()];
    }
  }

  /** The last file of a clean directory brings a revision of its own. */
  lemma CleanSplits(init: seq<MigrationFile>, f: MigrationFile)
    requires Clean(init + [f])
    ensures Clean(init) && f.Parsed() && f.revision.value !in LinksOf(init)
    ensures forall g <- init :: g.revision != f.revision
  {
    var files := init + [f];
    assert f in files && forall g <- init :: g in files;
    forall g <- init ensures g.revision != f.revision {
      var i :| 0 <= i < |init| && init[i] == g;
      assert files[i].revision != files[|init|].revision;
    }
    assert forall i :: 0 <= i < |init| ==> files[i] == init[i];
    LinksDomain(init);
  }

  lemma DistinctLength(chain: seq<string>, s: set<string>)
    requires forall i, j :: 0 <= i < j < |chain| ==> chain[i] != chain[j]
    requires forall r :: r in s <==> r in chain
    ensures |chain| == |s|
    decreases |chain|
  {
    if chain != [] {
      var init, last := chain[..|chain| - 1], chain[|chain| - 1];
      assert chain == init + [last];
      DistinctLength(init, s - {last});
    } else {
      assert s == {};
    }
  }

  lemma SoundCleanIsChain(files: seq<MigrationFile>)
    requires Clean(files) && Sound(LinksOf(files))
    ensures exists chain :: LinearChain(files, chain)
  {
    var links := LinksOf(files);
    var chain := SoundIsOnePath(links);
    CleanLinks(files);
    DistinctLength(chain, links.Keys);
    assert LinearChain(files, chain);
  }

  lemma ChainIsClean(files: seq<MigrationFile>, chain: seq<string>)
    requires LinearChain(files, chain)
    ensures Clean(files)
    ensures LinksOf(files).Keys == set r | r in chain
    ensures LinksOf(files)[chain[0]] == None
    ensures forall i :: 0 < i < |chain| ==> LinksOf(files)[chain[i]] == Some(chain[i - 1])
  {
    var links, all := LinksOf(files), set r | r in chain;
    ChainKeys(files, chain);
    forall i | 0 < i < |chain| ensures links[chain[i]] == Some(chain[i - 1]) {
      assert chain[i] in all;
      ChainLink(files, chain, i);
    }
    assert chain[0] in all;
    ChainLink(files, chain, 0);
  }

  /** In a linear chain the dictionary holds exactly the revisions of the chain. */
  lemma ChainKeys(files: seq<MigrationFile>, chain: seq<string>)
    requires LinearChain(files, chain)
    ensures Clean(files) && LinksOf(files).Keys == set r | r in chain
  {
    var links, all := LinksOf(files), set r | r in chain;
    CleanLinks(files);
    LinksDomain(files);
    DistinctLength(chain, all);
    assert links.Keys <= all;
    SubsetSameSize(links.Keys, all);
  }

  lemma ChainLink(files: seq<MigrationFile>, chain: seq<string>, i: nat)
    requires LinearChain(files, chain) && i < |chain| && chain[i] in LinksOf(files)
    ensures LinksOf(files)[chain[i]] == if i == 0 then None else Some(chain[i - 1])
  {
    LinksDomain(files);
    var f :| f in files && f.Parsed() && f.revision == Some(chain[i]) && f.Down() == LinksOf(files)[chain[i]];
  }

  lemma SubsetSameSize<T>(a: set<T>, b: set<T>)
    requires a <= b && |a| == |b|
    ensures a == b
  {
    assert |b - a| == 0;
  }

  lemma {:induction false} ChainStops(links: Links, chain: seq<string>, i: nat)
    requires i < |chain| && chain[0] in links && links[chain[0]] == None
    requires forall k :: 0 < k < |chain| ==> chain[k] in links && links[chain[k]] == Some(chain[k - 1])
    ensures StopsAfter(links, chain[i], i)
  {
    if i > 0 {
      ChainStops(links, chain, i - 1);
    }
  }

  lemma ChainWalksStop(links: Links, chain: seq<string>, r: string)
    requires ChainOf(links, chain) && r in links
    ensures Stops(links, r) && (links[r].Some? ==> links[r].value in links)
  {
    var i :| 0 <= i < |chain| && chain[i] == r;
    ChainStops(links, chain, i);
    if i > 0 {
      assert chain[i - 1] in chain;
    }
  }

  lemma ChainHasOneRoot(links: Links, chain: seq<string>)
    requires ChainOf(links, chain)
    ensures Roots(links) == {chain[0]}
  {
    forall r | r in links ensures links[r] == None <==> r == chain[0] {
      var i :| 0 <= i < |chain| && chain[i] == r;
      if i > 0 {
        assert links[chain[i]] == Some(chain[i - 1]);
      }
    }
  }

  lemma ChainHasOneHead(links: Links, chain: seq<string>)
    requires ChainOf(links, chain)
    ensures Heads(links) == {chain[|chain| - 1]}
  {
    var last := chain[|chain| - 1];
    forall c | c in links && links[c].Some? ensures links[c].value != last {
      var k :| 0 <= k < |chain| && chain[k] == c;
      assert links[c] == Some(chain[k - 1]);
    }
    forall r | r in links ensures r in Heads(links) <==> r == last {
      var i :| 0 <= i < |chain| && chain[i] == r;
      if i < |chain| - 1 {
        assert chain[i + 1] in links && links[chain[i + 1]] == Some(r);
      }
    }
    assert last in chain;
  }

  lemma ChainIsSound(files: seq<MigrationFile>, chain: seq<string>)
    requires LinearChain(files, chain)
    ensures Clean(files) && Sound(LinksOf(files))
  {
    ChainIsClean(files, chain);
    var links := LinksOf(files);
    assert ChainOf(links, chain) by {
      assert forall r :: r in links <==> r in chain;
      assert forall i :: 0 <= i < |chain| ==> chain[i] in chain;
    }
    forall r | r in links ensures Stops(links, r) && (links[r].Some? ==> links[r].value in links) {
      ChainWalksStop(links, chain, r);
    }
    ChainHasOneRoot(links, chain);
    ChainHasOneHead(links, chain);
  }

  /** The verdict in terms of the dictionary is the verdict in terms of the files. */
  lemma SoundIffChain(files: seq<MigrationFile>)
    ensures Clean(files) && Sound(LinksOf(files)) <==> exists chain :: LinearChain(files, chain)
  {
    if Clean(files) && Sound(LinksOf(files)) {
      SoundCleanIsChain(files);
    }
    if chain :| LinearChain(files, chain) {
      ChainIsSound(files, chain);
    }
  }

  // ----- The checker -----

  /** First loop: read the files into `revisions` (with its insertion order) and `downTargets`. */
  method ReadRevisions(files: seq<MigrationFile>)
    returns (revisions: Links, order: seq<string>, downTargets: set<string>, errors: seq<Error>)
    ensures revisions == LinksOf(files) && downTargets == Targets(revisions)
    ensures (forall r :: r in order <==> r in revisions) &&
              (forall i, j :: 0 <= i < j < |order| ==> order[i] != order[j])
    ensures errors == [] <==> Clean(files)
    ensures FoundUpTo(files, |files|, errors)
  {
    revisions, order, downTargets, errors := map[], [], {}, [];
    for n := 0 to |files|
      invariant revisions == LinksOf(files[..n]) && downTargets == Targets(revisions)
      invariant forall r :: r in order <==> r in revisions
      invariant forall i, j :: 0 <= i < j < |order| ==> order[i] != order[j]
      invariant errors == [] <==> Clean(files[..n])
      invariant FoundUpTo(files, n, errors)
    {
      var f := files[n];
      assert files[..n + 1][..n] == files[..n];
      CleanStep(files, n);
      var isNew, error := ReadFile(f, revisions, files, n);
      if isNew {
        TargetsStep(revisions, f.revision.value, f.Down());
        revisions := revisions[f.revision.value := f.Down()];
        order := order + [f.revision.value];
        if f.down.Quoted? {
          downTargets := downTargets + {f.down.id};
        }
      }
      FoundStep(files, n, errors, error);
      if error.Some? {
        errors := errors + [error.value];
      }
    }
    assert files[..|files|] == files;
  }

  /** The errors are exactly what is wrong with the first `n` files. */
  ghost predicate FoundUpTo(files: seq<MigrationFile>, n: nat, errors: seq<Error>)
    requires n <= |files|
  {
    forall e :: e in errors <==> exists k :: 0 <= k < n && FoundAt(files, k, e)
  }

  lemma FoundStep(files: seq<MigrationFile>, n: nat, errors: seq<Error>, error: Option<Error>)
    requires n < |files| && FoundUpTo(files, n, errors) && forall e :: FoundAt(files, n, e) <==> error == Some(e)
    ensures FoundUpTo(files, n + 1, if error.Some? then errors + [error.value] else errors)
  {
    var after := if error.Some? then errors + [error.value] else errors;
    forall e ensures e in after <==> exists k :: 0 <= k < n + 1 && FoundAt(files, k, e) {
      assert e in after <==> e in errors || error == Some(e);
      assert FoundAt(files, n, e) <==> error == Some(e);
      if e in errors {
        var k :| 0 <= k < n && FoundAt(files, k, e);
      }
    }
  }

  /** What the loop finds out about one file: whether it enters the dictionary, and its error. */
  method ReadFile(f: MigrationFile, revisions: Links, ghost files: seq<MigrationFile>, ghost n: nat)
    returns (isNew: bool, error: Option<Error>)
    requires n < |files| && f == files[n] && revisions == LinksOf(files[..n])
    ensures isNew <==> f.Parsed() && f.revision.value !in revisions
    ensures error.None? <==> isNew && f.name == f.revision.value + ".py"
    ensures forall e :: FoundAt(files, n, e) <==> error == Some(e)
  {
    NewIff(files, n);
    if f.revision.None? {
      return false, Some(MissingRevision(f.name));
    }
    if f.down.NoMatch? {
      return false, Some(MissingDownRevision(f.name));
    }
    if f.revision.value in revisions {
      return false, Some(DuplicateRevision(f.revision.value));
    }
    if f.name != f.revision.value + ".py" {
      return true, Some(FilenameMismatch(f.revision.value, f.name));
    }
    return true, None;
  }

  /** A revision is in the dictionary exactly when an earlier file brought it. */
  lemma NewIff(files: seq<MigrationFile>, n: nat)
    requires n < |files|
    ensures forall r :: r in LinksOf(files[..n]) <==> exists i :: 0 <= i < n && ParsedAs(files[i], r)
  {
    LinksDomain(files[..n]);
    forall r | r in LinksOf(files[..n]) ensures exists i :: 0 <= i < n && ParsedAs(files[i], r) {
      var g :| g in files[..n] && g.Parsed() && g.revision == Some(r);
      var i :| 0 <= i < n && files[i] == g;
      assert ParsedAs(files[i], r);
    }
    forall i, r | 0 <= i < n && ParsedAs(files[i], r) ensures r in LinksOf(files[..n]) {
      assert files[i] in files[..n];
    }
  }

  lemma TargetsStep(links: Links, r: string, down: Option<string>)
    requires r !in links
    ensures Targets(links[r := down]) == Targets(links) + if down.Some? then {down.value} else {}
  {
    var links' := links[r := down];
    forall t | t in Targets(links) ensures t in Targets(links') {
      var x :| x in links && links[x] == Some(t);
      assert links'[x] == Some(t);
    }
    if down.Some? {
      assert links'[r] == down;
    }
  }

  lemma CleanStep(files: seq<MigrationFile>, n: nat)
    requires n < |files|
    ensures Clean(files[..n + 1]) <==>
            && Clean(files[..n]) && files[n].Parsed() && files[n].revision.value !in LinksOf(files[..n])
            && files[n].name == files[n].revision.value + ".py"
  {
    var init, f := files[..n], files[n];
    assert files[..n + 1] == init + [f];
    LinksDomain(init);
    if Clean(init + [f]) {
      assert f in init + [f];
      assert Clean(init) by {
        forall g <- init ensures g.Parsed() && g.name == g.revision.value + ".py" {
          assert g in init + [f];
        }
        forall i, j | 0 <= i < j < |init| ensures init[i].revision != init[j].revision {
          assert (init + [f])[i] == init[i] && (init + [f])[j] == init[j];
        }
      }
      if f.revision.value in LinksOf(init) {
        assert false;
      }
    }
  }

  /** The starts are visited and, with every revision, what it revises; nothing else could be. */
  ghost predicate VisitedFrom(links: Links, starts: seq<string>, visited: set<string>) {
    && (forall r <- starts :: r in visited) && visited <= links.Keys + Targets(links)
    && (forall r :: r in visited && r in links && links[r].Some? ==> links[r].value in visited)
  }

  /** A walk reports a cycle exactly when it never stops, at a revision on that cycle, and at its
      first revision if that is on one. */
  ghost predicate TruthOfWalk(links: Links, revision: string, cycle: Option<string>) {
    && (cycle == None <==> Stops(links, revision))
    && (cycle.Some? ==> OnCycle(links, cycle.value))
    && (OnCycle(links, revision) ==> cycle == Some(revision))
  }

  /** The walk from `revision` so far: nothing met twice, and all but `current` collected. */
  ghost predicate Walked(links: Links, revision: string, trail: seq<string>, seen: set<string>, current: string) {
    && Trail(links, trail) && trail[0] == revision && trail[|trail| - 1] == current
    && (forall r :: r in seen <==> r in trail[..|trail| - 1])
    && (forall j, k :: 0 <= j < k < |trail| - 1 ==> trail[j] != trail[k])
  }

  lemma WalksOn(links: Links, revision: string, trail: seq<string>, seen: set<string>, current: string, down: string)
    requires Walked(links, revision, trail, seen, current) && current !in seen
    requires current in links && links[current] == Some(down)
    ensures Walked(links, revision, trail + [down], seen + {current}, down)
  {
    var n := |trail| - 1;
    var longer := trail + [down];
    assert longer[..|longer| - 1] == trail[..n] + [current];
    forall j, k | 0 <= j < k < |longer| - 1 ensures longer[j] != longer[k] {
      assert j < n && trail[j] in trail[..n];
    }
  }

  /** Meeting a revision again: the walk never stops, that revision is on a cycle, and it is the
      first one of the walk if that is on a cycle. */
  lemma ComesBack(links: Links, revision: string, trail: seq<string>, seen: set<string>, current: string)
    requires Walked(links, revision, trail, seen, current) && current in seen
    ensures !Stops(links, revision) && OnCycle(links, current)
    ensures OnCycle(links, revision) ==> current == revision
  {
    var i :| 0 <= i < |trail| - 1 && trail[i] == current;
    RepeatNeverStops(links, trail, i);
    var loop := trail[i..];
    assert Trail(links, loop) && loop[0] == current && loop[|loop| - 1] == current;
    if OnCycle(links, revision) {
      CycleEntry(links, trail, i);
    }
  }

  lemma NoLoop(links: Links, r: string)
    requires Stops(links, r)
    ensures !OnCycle(links, r)
  {
    if OnCycle(links, r) {
      LoopNeverStops(links, r);
    }
  }

  /** The inner loop: follow `down_revision` from `revision`, collecting what was seen. */
  method Walk(revisions: Links, revision: string) returns (seen: set<string>, cycle: Option<string>)
    requires revision in revisions
    ensures TruthOfWalk(revisions, revision, cycle)
    ensures VisitedFrom(revisions, [revision], seen)
  {
    seen, cycle := {}, None;
    var current := revision;
    ghost var trail := [revision];
    while true
      invariant Walked(revisions, revision, trail, seen, current)
      invariant seen <= revisions.Keys && (current in revisions || current in Targets(revisions))
      invariant forall r <- seen :: revisions[r].Some? && (revisions[r].value in seen || revisions[r].value == current)
      decreases revisions.Keys + Targets(revisions) - seen
    {
      if current in seen {
        ComesBack(revisions, revision, trail, seen, current);
        cycle := Some(current);
        return;
      }
      ghost var before := seen;
      seen := seen + {current};
      var down := if current in revisions then revisions[current] else None;
      if down.None? {
        StopsFromEnd(revisions, trail, 0);
        NoLoop(revisions, revision);
        return;
      }
      assert down.value in Targets(revisions) by { assert revisions[current] == down; }
      WalksOn(revisions, revision, trail, before, current, down.value);
      trail, current := trail + [down.value], down.value;
    }
  }

  /** Second loop: every `down_revision` must be a known revision. */
  method CheckTargets(ghost files: seq<MigrationFile>, revisions: Links, order: seq<string>)
    returns (errors: seq<Error>)
    requires revisions == LinksOf(files) && forall r :: r in order <==> r in revisions
    ensures errors == [] <==> Closed(revisions)
    ensures forall e :: e in errors <==> e.MissingTarget? && Defect(files, e)
  {
    errors := [];
    for n := 0 to |order|
      invariant forall e <- errors :: e.MissingTarget? && Defect(files, e)
      invariant forall k :: 0 <= k < n && revisions[order[k]].Some? && revisions[order[k]].value !in revisions ==>
                  MissingTarget(revisions[order[k]].value, order[k]) in errors
      invariant errors == [] <==> forall k :: 0 <= k < n && revisions[order[k]].Some? ==>
                  revisions[order[k]].value in revisions
    {
      var down := revisions[order[n]];
      if down.Some? && down.value !in revisions {
        errors := errors + [MissingTarget(down.value, order[n])];
      }
    }
  }

  /** The two list comprehensions that count roots and heads. */
  method CountEnds(revisions: Links, order: seq<string>, downTargets: set<string>) returns (roots: nat, heads: nat)
    requires downTargets == Targets(revisions) && forall r :: r in order <==> r in revisions
    requires forall i, j :: 0 <= i < j < |order| ==> order[i] != order[j]
    ensures roots == |Roots(revisions)| && heads == |Heads(revisions)|
  {
    var rootList, headList := [], [];
    for n := 0 to |order|
      invariant forall r :: r in rootList <==> r in order[..n] && revisions[r] == None
      invariant forall r :: r in headList <==> r in order[..n] && r !in downTargets
      invariant forall i, j :: 0 <= i < j < |rootList| ==> rootList[i] != rootList[j]
      invariant forall i, j :: 0 <= i < j < |headList| ==> headList[i] != headList[j]
    {
      assert order[..n + 1] == order[..n] + [order[n]];
      assert order[n] !in order[..n];
      if revisions[order[n]].None? {
        rootList := rootList + [order[n]];
      }
      if order[n] !in downTargets {
        headList := headList + [order[n]];
      }
    }
    assert order[..|order|] == order;
    DistinctLength(rootList, Roots(revisions));
    DistinctLength(headList, Heads(revisions));
    roots, heads := |rootList|, |headList|;
  }

  /** Last loop: walk down from every revision.  What was visited is every revision, plus any
      dangling targets. */
  method WalkAll(revisions: Links, order: seq<string>) returns (errors: seq<Error>, visited: set<string>)
    requires forall r :: r in order <==> r in revisions
    ensures errors == [] <==> forall r :: r in revisions ==> Stops(revisions, r)
    ensures forall e :: e in errors <==> e.CycleAt? && OnCycle(revisions, e.revision)
    ensures visited == revisions.Keys + Targets(revisions)
  {
    ghost var found;
    errors, visited, found := WalkEach(revisions, order);
    AllVisited(revisions, order, visited);
    CyclesAll(revisions, order, found);
  }

  /** The loop itself, with what each walk found. */
  method WalkEach(revisions: Links, order: seq<string>)
    returns (errors: seq<Error>, visited: set<string>, ghost found: seq<Option<string>>)
    requires forall r <- order :: r in revisions
    ensures |found| == |order| && errors == Reported(found)
    ensures forall k :: 0 <= k < |order| ==> TruthOfWalk(revisions, order[k], found[k])
    ensures VisitedFrom(revisions, order, visited)
  {
    errors, visited, found := [], {}, [];
    for n := 0 to |order|
      invariant |found| == n && errors == Reported(found)
      invariant forall k :: 0 <= k < n ==> TruthOfWalk(revisions, order[k], found[k])
      invariant VisitedFrom(revisions, order[..n], visited)
    {
      var seen, cycle := Walk(revisions, order[n]);
      ReportedSnoc(found, cycle);
      found := found + [cycle];
      if cycle.Some? {
        errors := errors + [CycleAt(cycle.value)];
      }
      VisitedStep(revisions, order, n, visited, seen);
      visited := visited + seen;
    }
    assert order[..|order|] == order;
  }

  /** The errors for what the walks found. */
  ghost function Reported(found: seq<Option<string>>): seq<Error> {
    if found == [] then []
    else
      var last := found[|found| - 1];
      Reported(found[..|found| - 1]) + if last.Some? then [CycleAt(last.value)] else []
  }

  lemma ReportedSnoc(found: seq<Option<string>>, cycle: Option<string>)
    ensures Reported(found + [cycle]) == Reported(found) + if cycle.Some? then [CycleAt(cycle.value)] else []
  {
    assert (found + [cycle])[..|found|] == found;
  }

  lemma {:induction false} ReportedIff(found: seq<Option<string>>, e: Error)
    ensures e in Reported(found) <==> e.CycleAt? && Some(e.revision) in found
  {
    if found != [] {
      var init, last := found[..|found| - 1], found[|found| - 1];
      assert found == init + [last];
      ReportedIff(init, e);
    }
  }

  lemma VisitedStep(links: Links, order: seq<string>, n: nat, visited: set<string>, seen: set<string>)
    requires n < |order| && VisitedFrom(links, order[..n], visited) && VisitedFrom(links, [order[n]], seen)
    ensures VisitedFrom(links, order[..n + 1], visited + seen)
  {
    assert order[..n + 1] == order[..n] + [order[n]];
    assert order[n] in [order[n]];
  }

  lemma AllVisited(links: Links, order: seq<string>, visited: set<string>)
    requires (forall r :: r in order <==> r in links) && VisitedFrom(links, order, visited)
    ensures visited == links.Keys + Targets(links)
  {
  }

  lemma CyclesAll(links: Links, order: seq<string>, found: seq<Option<string>>)
    requires |found| == |order| && forall k :: 0 <= k < |order| ==> TruthOfWalk(links, order[k], found[k])
    requires forall r :: r in order <==> r in links
    ensures Reported(found) == [] <==> forall r :: r in links ==> Stops(links, r)
    ensures forall e :: e in Reported(found) <==> e.CycleAt? && OnCycle(links, e.revision)
  {
    forall e ensures e in Reported(found) <==> e.CycleAt? && OnCycle(links, e.revision) {
      ReportedIff(found, e);
      if e.CycleAt? {
        FoundIffOnCycle(links, order, found, e.revision);
      }
    }
    NothingFoundIff(links, order, found);
  }

  lemma FoundIffOnCycle(links: Links, order: seq<string>, found: seq<Option<string>>, r: string)
    requires |found| == |order| && forall k :: 0 <= k < |order| ==> TruthOfWalk(links, order[k], found[k])
    requires forall r :: r in order <==> r in links
    ensures Some(r) in found <==> OnCycle(links, r)
  {
    if OnCycle(links, r) {
      LoopNeverStops(links, r);
      var k :| 0 <= k < |order| && order[k] == r;
      assert TruthOfWalk(links, order[k], found[k]);
    }
  }

  lemma NothingFoundIff(links: Links, order: seq<string>, found: seq<Option<string>>)
    requires |found| == |order| && forall k :: 0 <= k < |order| ==> TruthOfWalk(links, order[k], found[k])
    requires forall r :: r in order <==> r in links
    ensures Reported(found) == [] <==> forall r :: r in links ==> Stops(links, r)
  {
    if Reported(found) == [] {
      forall r | r in links ensures Stops(links, r) {
        var k :| 0 <= k < |order| && order[k] == r;
        assert TruthOfWalk(links, order[k], found[k]);
        if found[k].Some? {
          ReportedIff(found, CycleAt(found[k].value));
        }
      }
    } else {
      var e := Reported(found)[0];
      ReportedIff(found, e);
      var k :| 0 <= k < |found| && found[k] == Some(e.revision);
      assert TruthOfWalk(links, order[k], found[k]);
      assert order[k] in order;
    }
  }

  /** The reachability test can only ever notice a dangling target. */
  lemma VisitedCount(links: Links)
    ensures |links.Keys + Targets(links)| == |links| <==> Closed(links)
  {
    var all := links.Keys + Targets(links);
    if Closed(links) {
      assert all == links.Keys;
    } else {
      var r :| r in links && links[r].Some? && links[r].value !in links;
      assert links[r].value in all;
      if |all| == |links| {
        SubsetSameSize(links.Keys, all);
      }
    }
  }

  method CheckEnds(ghost files: seq<MigrationFile>, roots: nat, heads: nat) returns (errors: seq<Error>)
    requires roots == |Roots(LinksOf(files))| && heads == |Heads(LinksOf(files))|
    ensures errors == [] <==> roots == 1 && heads == 1
    ensures forall e :: e in errors <==> (e.RootCount? || e.HeadCount?) && Defect(files, e)
  {
    errors := [];
    if roots != 1 {
      errors := errors + [RootCount(roots)];
    }
    if heads != 1 {
      errors := errors + [HeadCount(heads)];
    }
  }

  method CheckVisited(ghost files: seq<MigrationFile>, revisions: Links, visited: set<string>)
    returns (errors: seq<Error>)
    requires revisions == LinksOf(files) && visited == revisions.Keys + Targets(revisions)
    ensures errors == [] <==> Closed(revisions)
    ensures forall e :: e in errors <==> e.Unreachable? && Defect(files, e)
  {
    VisitedCount(revisions);
    errors := [];
    if |visited| != |revisions| {
      assert revisions.Keys - visited == {};
      errors := [Unreachable(revisions.Keys - visited)];
    }
  }

  /** What is found file by file is the part of the defects that concerns single files. */
  lemma FoundIsDefect(files: seq<MigrationFile>, errors: seq<Error>, e: Error)
    requires FoundUpTo(files, |files|, errors)
    ensures e in errors <==>
            (e.MissingRevision? || e.MissingDownRevision? || e.DuplicateRevision? || e.FilenameMismatch?) &&
            Defect(files, e)
  {
  }

  /** `_validate_chain`: no errors exactly when the directory is one linear chain, and what is
      reported is exactly what is wrong with it. */
  method ValidateChain(files: seq<MigrationFile>) returns (errors: seq<Error>)
    ensures errors == [] <==> exists chain :: LinearChain(files, chain)
    ensures forall e :: e in errors <==> Defect(files, e)
  {
    var revisions, order, downTargets, fileErrors := ReadRevisions(files);
    var targetErrors := CheckTargets(files, revisions, order);
    var roots, heads := CountEnds(revisions, order, downTargets);
    var endErrors := CheckEnds(files, roots, heads);
    var cycleErrors, visited := WalkAll(revisions, order);
    var visitErrors := CheckVisited(files, revisions, visited);
    errors := fileErrors + targetErrors + endErrors + cycleErrors + visitErrors;
    SoundIffChain(files);
    forall e ensures e in errors <==> Defect(files, e) {
      assert e in errors <==>
        e in fileErrors || e in targetErrors || e in endErrors || e in cycleErrors || e in visitErrors;
      FoundIsDefect(files, fileErrors, e);
    }
  }
}
