/** `run_upgrade` under several replicas.  Each replica takes the migration lock, inspects the
    version table, and then refuses, skips, or bootstraps, remaps and upgrades.  Replicas may
    run different builds of one revision graph with branches and merges, fail or crash at any
    step (which releases the lock), time out and try again.  A migration is atomic with its
    version bump. */
module MigrationUpgrade {
  import opened Options
  import opened RevisionGraph

  type Rid = nat

  /** A replica's build knows the revisions up to its head. */
  datatype Build = Build(known: set<Revision>, head: Revision, bootstrap: bool, autoRemap: bool)

  /** The graph, the id tables of `revision_ids.py`, the repair constants of `migrate.py`, and the
      legacy migration order with its revisions. */
  datatype Config = Config(
    graph: Graph, oldToNew: map<Revision, Revision>,
    branchLegacy: Revision, branchAncestor: Revision, branchDescendants: set<Revision>,
    legacyOrder: seq<string>, legacyRevision: map<string, Revision>,
    createsTable: bool, builds: map<Rid, Build>)
  {
    ghost predicate Valid() {
      && graph.Valid()
      && (forall o :: o in oldToNew ==> o !in graph.parents)
      && branchLegacy in oldToNew
      && (forall r :: r in builds ==> BuildOk(builds[r]))
    }

    ghost predicate BuildOk(build: Build) {
      && build.head in graph.parents && build.known == Down(graph, {build.head})
      && (forall n <- legacyOrder :: n in legacyRevision && legacyRevision[n] in build.known)
    }

    predicate Knows(r: Rid, revision: Revision)
      requires r in builds
    {
      revision in builds[r].known || revision in oldToNew
    }
  }

  /** The shared database: version table, legacy history, and the log of migrations executed. */
  datatype Database = Database(hasVersion: bool, version: set<Revision>,
                               legacy: Option<set<string>>, legacyTables: bool, log: seq<Revision>)

  datatype Result = Success(version: set<Revision>) | Failure

  datatype Pc =
    | Outside                      // not in run_upgrade, or waiting for the lock
    | Inspecting
    | Bootstrapping
    | Stamping(revision: Revision) // version table created, stamp still to come
    | EnsuringTable
    | Remapping
    | Upgrading
    | Confirming
    | Releasing(result: Result)
    | Left(result: Result)

  datatype State = State(db: Database, lock: Option<Rid>, pcs: map<Rid, Pc>)

  /** `pick` is the revision that Alembic runs next, whatever topological order it uses. */
  datatype Event =
    | Acquire(r: Rid)
    | TimeOut(r: Rid)
    | Step(r: Rid, pick: Revision)
    | Crash(r: Rid)
    | Retry(r: Rid)

  predicate Inside(pc: Pc) {
    !pc.Outside? && !pc.Left?
  }

  ghost predicate Enabled(cfg: Config, s: State, e: Event) {
    e.r in s.pcs && e.r in cfg.builds &&
    match e
    case Acquire(r) => s.pcs[r].Outside? && s.lock == None
    case TimeOut(r) => s.pcs[r].Outside?
    case Step(r, pick) => Inside(s.pcs[r]) && (s.pcs[r].Upgrading? ==> MayPick(cfg, s.db.version, r, pick))
    case Crash(r) => Inside(s.pcs[r])
    case Retry(r) => s.pcs[r].Left?
  }

  // ----- The pieces of _run_upgrade_locked -----

  /** `_contiguous_prefix_count`. */
  function LegacyPrefix(order: seq<string>, applied: set<string>): (n: nat)
    ensures n <= |order| && (forall i :: 0 <= i < n ==> order[i] in applied)
    ensures n < |order| ==> order[n] !in applied
  {
    if order != [] && order[0] in applied then 1 + LegacyPrefix(order[1..], applied) else 0
  }

  method ContiguousPrefixCount(order: seq<string>, applied: set<string>) returns (contiguous: nat)
    ensures contiguous == LegacyPrefix(order, applied)
  {
    contiguous := 0;
    for n := 0 to |order|
      invariant contiguous == n
      invariant LegacyPrefix(order, applied) == n + LegacyPrefix(order[n..], applied)
    {
      if order[n] in applied {
        assert order[n..][1..] == order[n + 1..];
        contiguous := contiguous + 1;
        continue;
      }
      return;
    }
  }

  /** The revision that `_bootstrap_legacy_history` stamps, if any. */
  function LegacyStamp(cfg: Config, db: Database): Option<Revision> {
    if db.hasVersion || db.legacy.None? || !db.legacyTables then None else LegacyHead(cfg, db.legacy.value)
  }

  /** The revision of the last migration in the contiguous legacy history. */
  function LegacyHead(cfg: Config, applied: set<string>): Option<Revision> {
    var n := LegacyPrefix(cfg.legacyOrder, applied);
    if n == 0 || cfg.legacyOrder[n - 1] !in cfg.legacyRevision then None
    else Some(cfg.legacyRevision[cfg.legacyOrder[n - 1]])
  }

  /** Exactly the first `n` migrations of the order have been applied without a gap. */
  ghost predicate AppliedPrefix(order: seq<string>, applied: set<string>, n: nat) {
    n <= |order| && (forall i :: 0 <= i < n ==> order[i] in applied) && (n < |order| ==> order[n] !in applied)
  }

  /** The contiguous legacy history ends with a migration that corresponds to `revision`. */
  ghost predicate HistoryEndsAt(cfg: Config, applied: set<string>, revision: Revision) {
    exists n: nat :: AppliedPrefix(cfg.legacyOrder, applied, n) && 0 < n && cfg.legacyOrder[n - 1] in cfg.legacyRevision
                     && cfg.legacyRevision[cfg.legacyOrder[n - 1]] == revision
  }

  /** There is one such length, and it decides what is stamped: the revision of the last
      migration before the gap, or nothing if the first one is missing already. */
  lemma LegacyHeadIs(cfg: Config, applied: set<string>, n: nat)
    requires AppliedPrefix(cfg.legacyOrder, applied, n) && forall m <- cfg.legacyOrder :: m in cfg.legacyRevision
    ensures LegacyPrefix(cfg.legacyOrder, applied) == n
    ensures LegacyHead(cfg, applied) == if n == 0 then None else Some(cfg.legacyRevision[cfg.legacyOrder[n - 1]])
  {
    var m := LegacyPrefix(cfg.legacyOrder, applied);
    assert !(m < n) && !(n < m);
  }

  lemma HistoryEndIsHead(cfg: Config, applied: set<string>, revision: Revision)
    ensures HistoryEndsAt(cfg, applied, revision) <==> LegacyHead(cfg, applied) == Some(revision)
  {
    var m := LegacyPrefix(cfg.legacyOrder, applied);
    assert AppliedPrefix(cfg.legacyOrder, applied, m);
    forall n: nat | AppliedPrefix(cfg.legacyOrder, applied, n) ensures n == m {
      assert !(m < n) && !(n < m);
    }
  }

  /** The id that a version row is remapped to. */
  function NewId(cfg: Config, v: Revision): Revision {
    if v in cfg.oldToNew then cfg.oldToNew[v] else v
  }

  function NewIds(cfg: Config, version: set<Revision>): set<Revision> {
    set v <- version :: NewId(cfg, v)
  }

  /** `_remap_legacy_alembic_revisions` on the set of version rows. */
  function Remap(cfg: Config, version: set<Revision>): set<Revision> {
    var mapped := NewIds(cfg, version);
    if cfg.branchLegacy in version && cfg.branchAncestor in mapped && mapped * cfg.branchDescendants != {} then
      mapped - {cfg.branchAncestor}
    else mapped
  }

  predicate AllKnown(cfg: Config, r: Rid, version: set<Revision>)
    requires r in cfg.builds
  {
    forall v <- version :: cfg.Knows(r, v)
  }

  /** Alembic accepts the table: it knows every row, and no row is an ancestor of another. */
  ghost predicate Accepts(cfg: Config, r: Rid, version: set<Revision>)
    requires r in cfg.builds
  {
    version <= cfg.builds[r].known && Antichain(cfg.graph, version)
  }

  /** If there is something to run, `pick` is a pending revision whose parents have all run. */
  ghost predicate MayPick(cfg: Config, version: set<Revision>, r: Rid, pick: Revision)
    requires r in cfg.builds
  {
    Accepts(cfg, r, version) && version != {cfg.builds[r].head} ==>
        pick in cfg.builds[r].known && Next(cfg.graph, version, pick)
  }

  function Executed(cfg: Config, db: Database, pick: Revision): Database {
    db.(hasVersion := true, version := Advanced(cfg.graph, db.version, pick), log := db.log + [pick])
  }

  /** One step of the lock holder: the new database and the new program counter. */
  ghost function Locked(cfg: Config, db: Database, r: Rid, pc: Pc, pick: Revision): (Database, Pc)
    requires r in cfg.builds && Inside(pc) && !pc.Releasing?
  {
    var build := cfg.builds[r];
    match pc
    case Inspecting =>
      if !AllKnown(cfg, r, db.version) then (db, Releasing(Failure))
      else if db.hasVersion && db.version == {build.head} then (db, Releasing(Success(db.version)))
      else (db, Bootstrapping)
    case Bootstrapping =>
      var stamp := LegacyStamp(cfg, db);
      if build.bootstrap && stamp.Some? then
        (if cfg.createsTable then db.(hasVersion := true) else db, Stamping(stamp.value))
      else (db, EnsuringTable)
    case Stamping(revision) => (db.(hasVersion := true, version := {revision}), EnsuringTable)
    case EnsuringTable => (if cfg.createsTable then db.(hasVersion := true) else db, Remapping)
    case Remapping =>
      if !build.autoRemap || db.version == {} then (db, Upgrading)
      else if !AllKnown(cfg, r, db.version) then (db, Releasing(Failure))
      else (db.(version := Remap(cfg, db.version)), Upgrading)
    case Upgrading =>
      if !Accepts(cfg, r, db.version) then (db, Releasing(Failure))
      else if db.version == {build.head} then (db, Confirming)
      else (Executed(cfg, db, pick), Upgrading)
    case Confirming => (db, Releasing(Success(db.version)))
  }

  ghost function Apply(cfg: Config, s: State, e: Event): State
    requires Enabled(cfg, s, e)
  {
    match e
    case Acquire(r) => s.(lock := Some(r), pcs := s.pcs[r := Inspecting])
    case TimeOut(r) => s.(pcs := s.pcs[r := Left(Failure)])
    case Crash(r) => s.(lock := None, pcs := s.pcs[r := Left(Failure)])
    case Retry(r) => s.(pcs := s.pcs[r := Outside])
    case Step(r, pick) =>
      if s.pcs[r].Releasing? then s.(lock := None, pcs := s.pcs[r := Left(s.pcs[r].result)])
      else
        var (db, pc) := Locked(cfg, s.db, r, s.pcs[r], pick);
        s.(db := db, pcs := s.pcs[r := pc])
  }

  ghost predicate Runs(cfg: Config, s: State, events: seq<Event>, t: State)
    decreases |events|
  {
    if events == [] then s == t
    else Enabled(cfg, s, events[0]) && Runs(cfg, Apply(cfg, s, events[0]), events[1..], t)
  }

  /** Nobody is in the locked section and nothing has been executed yet. */
  ghost predicate Initial(cfg: Config, s: State) {
    && cfg.Valid() && cfg.builds.Keys == s.pcs.Keys
    && s.lock == None && (forall r :: r in s.pcs ==> s.pcs[r].Outside?)
    && s.db.log == [] && (!s.db.hasVersion ==> s.db.version == {})
  }

  // ----- Mutual exclusion -----

  ghost predicate LockOk(cfg: Config, s: State) {
    cfg.Valid() && cfg.builds.Keys == s.pcs.Keys && Exclusive(s)
  }

  /** Exactly the lock holder is in the locked section. */
  ghost predicate Exclusive(s: State) {
    && (forall r :: r in s.pcs ==> (Inside(s.pcs[r]) <==> s.lock == Some(r)))
    && (s.lock.Some? ==> s.lock.value in s.pcs)
  }

  lemma LockStep(cfg: Config, s: State, e: Event)
    requires Exclusive(s) && Enabled(cfg, s, e)
    ensures Exclusive(Apply(cfg, s, e)) && Apply(cfg, s, e).pcs.Keys == s.pcs.Keys
  {
  }

  // ----- The remap -----

  /** Remapping leaves a table alone that holds only revisions of the graph. */
  lemma RemapOnGraph(cfg: Config, version: set<Revision>)
    requires cfg.Valid() && version <= cfg.graph.parents.Keys
    ensures Remap(cfg, version) == version
  {
    assert forall v <- version :: NewId(cfg, v) == v;
    assert cfg.branchLegacy !in version;
  }

  /** Exactly what the remap leaves: rows with a current id, the new ids of the old ones, and without the
      repair ancestor if the old branch id stood beside one of the branch's descendants. */
  lemma RemapIs(cfg: Config, version: set<Revision>, w: Revision)
    ensures w in Remap(cfg, version) <==>
            && ((w in version && w !in cfg.oldToNew) ||
                (exists o :: o in version && o in cfg.oldToNew && cfg.oldToNew[o] == w))
            && !(w == cfg.branchAncestor && cfg.branchLegacy in version &&
                 exists d :: d in version &&
                             (if d in cfg.oldToNew then cfg.oldToNew[d] else d) in cfg.branchDescendants)
  {
    var mapped := NewIds(cfg, version);
    forall d | d in version ensures NewId(cfg, d) in mapped {
    }
    if mapped * cfg.branchDescendants != {} {
      var m :| m in mapped * cfg.branchDescendants;
      var d :| d in version && NewId(cfg, d) == m;
    } else {
      forall d | d in version ensures NewId(cfg, d) !in cfg.branchDescendants {
        assert NewId(cfg, d) !in mapped * cfg.branchDescendants;
      }
    }
  }

  /** Running the remap again, after a crash or on another replica, changes nothing more. */
  lemma RemapIdempotent(cfg: Config, version: set<Revision>)
    requires cfg.Valid() && forall o :: o in cfg.oldToNew ==> cfg.oldToNew[o] !in cfg.oldToNew
    ensures Remap(cfg, Remap(cfg, version)) == Remap(cfg, version)
  {
    var once := Remap(cfg, version);
    forall v <- once ensures v !in cfg.oldToNew {
      var u :| u in version && v == NewId(cfg, u);
    }
    assert NewIds(cfg, once) == once;
  }

  /** The remap brings a branched table (the old branch id beside a descendant of its repair
      ancestor) onto the single line of the descendant; a table that holds the two ends under
      their new ids already is left with both. */
  lemma RemapRepairsBranch(cfg: Config, d: Revision)
    requires cfg.Valid() && cfg.branchAncestor == cfg.oldToNew[cfg.branchLegacy] && cfg.branchAncestor !in cfg.oldToNew
    requires NewId(cfg, d) in cfg.branchDescendants && NewId(cfg, d) != cfg.branchAncestor
    ensures Remap(cfg, {cfg.branchLegacy, d}) == {NewId(cfg, d)}
    ensures d !in cfg.oldToNew ==> Remap(cfg, {cfg.branchAncestor, d}) == {cfg.branchAncestor, d}
  {
    NewIdsOfPair(cfg, cfg.branchLegacy, d);
    assert NewId(cfg, d) in NewIds(cfg, {cfg.branchLegacy, d}) * cfg.branchDescendants;
    NewIdsOfPair(cfg, cfg.branchAncestor, d);
  }

  /** And the repair is needed: Alembic refuses a table with a revision beside its own ancestor. */
  lemma RepairMakesAntichain(cfg: Config, d: Revision)
    requires cfg.Valid() && cfg.branchAncestor == cfg.oldToNew[cfg.branchLegacy] &&
               cfg.branchAncestor in cfg.graph.parents
    requires d in cfg.branchDescendants && d in cfg.graph.parents && d != cfg.branchAncestor
    requires Reaches(cfg.graph, d, cfg.branchAncestor)
    ensures Antichain(cfg.graph, Remap(cfg, {cfg.branchLegacy, d}))
    ensures !Antichain(cfg.graph, NewIds(cfg, {cfg.branchLegacy, d}))
  {
    assert NewId(cfg, d) == d && cfg.branchAncestor !in cfg.oldToNew;
    RemapRepairsBranch(cfg, d);
    SingletonAntichain(cfg.graph, d);
    NewIdsOfPair(cfg, cfg.branchLegacy, d);
  }

  lemma NewIdsOfPair(cfg: Config, a: Revision, b: Revision)
    ensures NewIds(cfg, {a, b}) == {NewId(cfg, a), NewId(cfg, b)}
  {
    assert a in {a, b} && b in {a, b};
  }

  // ----- The log -----

  /** The executed migrations are, in order, what separates the applied revisions from `base`:
      each once, each after its parents; the table shows the maximal applied revisions. */
  ghost predicate RanOn(cfg: Config, db: Database, base: set<Revision>) {
    && Antichain(cfg.graph, db.version) && DownClosed(cfg.graph, base)
    && Lists(cfg.graph, base, db.log) && Down(cfg.graph, db.version) == base + Elements(db.log)
  }

  ghost predicate LogOk(cfg: Config, db: Database) {
    && (!db.hasVersion ==> db.version == {} && db.log == [])
    && (db.log != [] ==> exists base :: RanOn(cfg, db, base))
  }

  /** What the lock holder has established about the database. */
  ghost predicate HolderOk(cfg: Config, db: Database, r: Rid, pc: Pc)
    requires r in cfg.builds
  {
    match pc
    case Bootstrapping => AllKnown(cfg, r, db.version)
    case Stamping(revision) => db.version == {} && db.log == [] && revision in cfg.builds[r].known
    case EnsuringTable => AllKnown(cfg, r, db.version)
    case Remapping => AllKnown(cfg, r, db.version)
    case Confirming => db.hasVersion && db.version == {cfg.builds[r].head}
    case Releasing(result) => result.Success? ==> db.hasVersion && db.version == result.version == {cfg.builds[r].head}
    case _ => true
  }

  /** A replica that left with success saw its own head, and nothing up to it is ever undone. */
  ghost predicate LeftOk(cfg: Config, db: Database, r: Rid, pc: Pc)
    requires r in cfg.builds
  {
    pc.Left? && pc.result.Success? ==>
      && pc.result.version == {cfg.builds[r].head} && db.hasVersion
      && Antichain(cfg.graph, db.version) && cfg.builds[r].known <= Down(cfg.graph, db.version)
  }

  ghost predicate Inv(cfg: Config, s: State) {
    && LockOk(cfg, s)
    && LogOk(cfg, s.db)
    && (forall r :: r in s.pcs && Inside(s.pcs[r]) ==> HolderOk(cfg, s.db, r, s.pcs[r]))
    && (forall r :: r in s.pcs ==> LeftOk(cfg, s.db, r, s.pcs[r]))
  }

  /** Executing a revision that can run next extends what ran from `base`. */
  lemma ExecutedRan(cfg: Config, db: Database, base: set<Revision>, pick: Revision)
    requires cfg.graph.Valid() && RanOn(cfg, db, base) && Next(cfg.graph, db.version, pick)
    ensures RanOn(cfg, Executed(cfg, db, pick), base)
  {
    AdvancedAntichain(cfg.graph, db.version, pick);
    ListsAdvanced(cfg.graph, base, db.version, db.log, pick);
  }

  lemma NothingRanYet(cfg: Config, db: Database)
    requires cfg.graph.Valid() && Antichain(cfg.graph, db.version) && db.log == []
    ensures RanOn(cfg, db, Down(cfg.graph, db.version))
  {
    DownIsClosed(cfg.graph, db.version);
    ListsNothing(cfg.graph, Down(cfg.graph, db.version));
  }

  /** `after` stands for at least what `before` stands for. */
  ghost predicate NotBehind(cfg: Config, before: set<Revision>, after: set<Revision>) {
    Antichain(cfg.graph, before) ==> Antichain(cfg.graph, after) && Down(cfg.graph, before) <= Down(cfg.graph, after)
  }

  lemma StampAdvances(cfg: Config, db: Database, revision: Revision)
    requires cfg.Valid() && db.version == {} && db.log == [] && revision in cfg.graph.parents
    ensures LogOk(cfg, db.(hasVersion := true, version := {revision})) && NotBehind(cfg, db.version, {revision})
  {
    DownOfNothing(cfg.graph);
    SingletonAntichain(cfg.graph, revision);
  }

  lemma RemapAdvances(cfg: Config, db: Database)
    requires cfg.Valid() && LogOk(cfg, db)
    ensures LogOk(cfg, db.(version := Remap(cfg, db.version))) && NotBehind(cfg, db.version, Remap(cfg, db.version))
  {
    if db.version <= cfg.graph.parents.Keys {
      RemapOnGraph(cfg, db.version);
    }
  }

  lemma ExecutedAdvances(cfg: Config, db: Database, pick: Revision)
    requires cfg.Valid() && LogOk(cfg, db) && Antichain(cfg.graph, db.version) && Next(cfg.graph, db.version, pick)
    ensures LogOk(cfg, Executed(cfg, db, pick)) && NotBehind(cfg, db.version, Executed(cfg, db, pick).version)
  {
    if db.log == [] {
      NothingRanYet(cfg, db);
    }
    var base :| RanOn(cfg, db, base);
    ExecutedRan(cfg, db, base, pick);
    AdvancedDown(cfg.graph, db.version, pick);
  }

  lemma KnownInGraph(cfg: Config, r: Rid)
    requires cfg.Valid() && r in cfg.builds
    ensures cfg.builds[r].known <= cfg.graph.parents.Keys && DownClosed(cfg.graph, cfg.builds[r].known)
    ensures cfg.builds[r].head in cfg.builds[r].known
  {
    assert cfg.BuildOk(cfg.builds[r]);
    DownIsClosed(cfg.graph, {cfg.builds[r].head});
  }

  /** The applied revisions only ever grow. */
  lemma LockedAdvances(cfg: Config, db: Database, r: Rid, pc: Pc, pick: Revision)
    requires cfg.Valid() && r in cfg.builds && Inside(pc) && !pc.Releasing?
    requires LogOk(cfg, db) && HolderOk(cfg, db, r, pc) && (pc.Upgrading? ==> MayPick(cfg, db.version, r, pick))
    ensures var db' := Locked(cfg, db, r, pc, pick).0;
            LogOk(cfg, db') && (db.hasVersion ==> db'.hasVersion) && NotBehind(cfg, db.version, db'.version)
  {
    match pc {
      case Stamping(revision) =>
        KnownInGraph(cfg, r);
        StampAdvances(cfg, db, revision);
      case Remapping =>
        RemapAdvances(cfg, db);
      case Upgrading =>
        if Accepts(cfg, r, db.version) && db.version != {cfg.builds[r].head} {
          ExecutedAdvances(cfg, db, pick);
        }
      case _ =>
    }
  }

  lemma StampIsKnown(cfg: Config, db: Database, r: Rid)
    requires cfg.Valid() && r in cfg.builds && LegacyStamp(cfg, db).Some?
    ensures LegacyStamp(cfg, db).value in cfg.builds[r].known
  {
    assert cfg.BuildOk(cfg.builds[r]);
    var n := LegacyPrefix(cfg.legacyOrder, db.legacy.value);
    assert cfg.legacyOrder[n - 1] in cfg.legacyOrder;
  }

  lemma LockedHolder(cfg: Config, db: Database, r: Rid, pc: Pc, pick: Revision)
    requires cfg.Valid() && r in cfg.builds && Inside(pc) && !pc.Releasing?
    requires LogOk(cfg, db) && HolderOk(cfg, db, r, pc)
    ensures var (db', pc') := Locked(cfg, db, r, pc, pick); Inside(pc') && HolderOk(cfg, db', r, pc')
  {
    match pc {
      case Bootstrapping =>
        if LegacyStamp(cfg, db).Some? {
          StampIsKnown(cfg, db, r);
        }
      case Stamping(revision) =>
        assert AllKnown(cfg, r, {revision});
      case Upgrading =>
        assert db.version != {} ==> db.hasVersion;
      case _ =>
    }
  }

  lemma LeftKept(cfg: Config, db: Database, db': Database, r: Rid, pc: Pc)
    requires r in cfg.builds && LeftOk(cfg, db, r, pc)
    requires (db.hasVersion ==> db'.hasVersion) && NotBehind(cfg, db.version, db'.version)
    ensures LeftOk(cfg, db', r, pc)
  {
  }

  lemma JustLeft(cfg: Config, db: Database, r: Rid, result: Result)
    requires cfg.Valid() && r in cfg.builds && HolderOk(cfg, db, r, Releasing(result))
    ensures LeftOk(cfg, db, r, Left(result))
  {
    assert cfg.BuildOk(cfg.builds[r]);
    SingletonAntichain(cfg.graph, cfg.builds[r].head);
  }

  lemma HolderStep(cfg: Config, s: State, r: Rid, pick: Revision)
    requires Inv(cfg, s) && Enabled(cfg, s, Step(r, pick)) && !s.pcs[r].Releasing?
    ensures Inv(cfg, Apply(cfg, s, Step(r, pick)))
  {
    var s' := Apply(cfg, s, Step(r, pick));
    LockStep(cfg, s, Step(r, pick));
    LockedAdvances(cfg, s.db, r, s.pcs[r], pick);
    LockedHolder(cfg, s.db, r, s.pcs[r], pick);
    forall q | q in s'.pcs ensures LeftOk(cfg, s'.db, q, s'.pcs[q]) {
      if q != r {
        LeftKept(cfg, s.db, s'.db, q, s.pcs[q]);
      }
    }
  }

  lemma ReleaseStep(cfg: Config, s: State, r: Rid, pick: Revision)
    requires Inv(cfg, s) && Enabled(cfg, s, Step(r, pick)) && s.pcs[r].Releasing?
    ensures Inv(cfg, Apply(cfg, s, Step(r, pick)))
  {
    LockStep(cfg, s, Step(r, pick));
    JustLeft(cfg, s.db, r, s.pcs[r].result);
  }

  lemma LockEvent(cfg: Config, s: State, e: Event)
    requires Inv(cfg, s) && Enabled(cfg, s, e) && !e.Step?
    ensures Inv(cfg, Apply(cfg, s, e)) && Apply(cfg, s, e).db == s.db
  {
    LockStep(cfg, s, e);
  }

  lemma StepKeeps(cfg: Config, s: State, e: Event)
    requires Inv(cfg, s) && Enabled(cfg, s, e)
    ensures Inv(cfg, Apply(cfg, s, e))
  {
    if !e.Step? {
      LockEvent(cfg, s, e);
    } else if s.pcs[e.r].Releasing? {
      ReleaseStep(cfg, s, e.r, e.pick);
    } else {
      HolderStep(cfg, s, e.r, e.pick);
    }
  }

  lemma InitialInv(cfg: Config, s: State)
    requires Initial(cfg, s)
    ensures Inv(cfg, s)
  {
  }

  lemma {:induction false} RunKeeps(cfg: Config, s: State, events: seq<Event>, t: State)
    requires Inv(cfg, s) && Runs(cfg, s, events, t)
    ensures Inv(cfg, t)
    decreases |events|
  {
    if events != [] {
      StepKeeps(cfg, s, events[0]);
      RunKeeps(cfg, Apply(cfg, s, events[0]), events[1..], t);
    }
  }

  // ----- Theorems -----

  /** Writes never interleave: only the lock holder writes, and there is only one. */
  lemma WritesAreExclusive(cfg: Config, s0: State, events: seq<Event>, s: State, e: Event)
    requires Initial(cfg, s0) && Runs(cfg, s0, events, s)
    requires Enabled(cfg, s, e)
    ensures Inv(cfg, s)
    ensures Apply(cfg, s, e).db != s.db ==> e.Step? && s.lock == Some(e.r)
    ensures forall q, r :: q in s.pcs && r in s.pcs && Inside(s.pcs[q]) && Inside(s.pcs[r]) ==> q == r
  {
    InitialInv(cfg, s0);
    RunKeeps(cfg, s0, events, s);
  }

  /** In every run the log is a topologically ordered listing, without repetition, of the
      revisions that separate what is applied now from what was applied when the first migration
      ran, and the table shows the maximal applied revisions. */
  lemma EachMigrationOnce(cfg: Config, s0: State, events: seq<Event>, s: State)
    requires Initial(cfg, s0) && Runs(cfg, s0, events, s)
    ensures forall i, j :: 0 <= i < j < |s.db.log| ==> s.db.log[i] != s.db.log[j]
    ensures s.db.log != [] ==>
              && s.db.version == Maximal(cfg.graph, Down(cfg.graph, s.db.version))
              && exists base :: RanOn(cfg, s.db, base)
  {
    InitialInv(cfg, s0);
    RunKeeps(cfg, s0, events, s);
    if s.db.log != [] {
      var base :| RanOn(cfg, s.db, base);
      AntichainIsMaximal(cfg.graph, s.db.version);
      forall i, j | 0 <= i < j < |s.db.log| ensures s.db.log[i] != s.db.log[j] {
        ListsDistinct(cfg.graph, base, s.db.log, i, j);
      }
    }
  }

  /** A replica that returned normally saw its own head and nothing else, and none of what leads
      up to it is ever undone, whatever crashes and other builds do. */
  lemma ReturnedSawHead(cfg: Config, s0: State, events: seq<Event>, s: State, r: Rid)
    requires Initial(cfg, s0) && Runs(cfg, s0, events, s)
    requires r in s.pcs && s.pcs[r].Left? && s.pcs[r].result.Success?
    ensures r in cfg.builds && s.pcs[r].result.version == {cfg.builds[r].head}
    ensures Antichain(cfg.graph, s.db.version) && Down(cfg.graph, {cfg.builds[r].head}) <= Down(cfg.graph, s.db.version)
  {
    InitialInv(cfg, s0);
    RunKeeps(cfg, s0, events, s);
    assert LeftOk(cfg, s.db, r, s.pcs[r]);
    assert cfg.BuildOk(cfg.builds[r]);
  }

  /** The lock holder writes only to a database whose revisions its build knows. */
  lemma UnknownIsNotWritten(cfg: Config, s: State, e: Event)
    requires Inv(cfg, s) && Enabled(cfg, s, e) && Apply(cfg, s, e).db != s.db
    ensures e.r in cfg.builds && forall v <- s.db.version :: v in cfg.builds[e.r].known || v in cfg.oldToNew
  {
    assert HolderOk(cfg, s.db, e.r, s.pcs[e.r]);
  }

  /** A revision that no replica knows freezes the database for good. */
  lemma {:induction false} UnknownFreezes(cfg: Config, s: State, events: seq<Event>, t: State, unknown: Revision)
    requires Inv(cfg, s) && Runs(cfg, s, events, t)
    requires unknown in s.db.version && forall r :: r in cfg.builds ==> !cfg.Knows(r, unknown)
    ensures t.db == s.db
    decreases |events|
  {
    if events != [] {
      var e := events[0];
      var s' := Apply(cfg, s, e);
      if s'.db != s.db {
        UnknownIsNotWritten(cfg, s, e);
      }
      StepKeeps(cfg, s, e);
      UnknownFreezes(cfg, s', events[1..], t, unknown);
    }
  }

  // ----- Exactly the pending migrations -----

  /** Counting old ids by what they map to, what is applied is `base` and what the log lists. */
  ghost predicate RanFrom(cfg: Config, db: Database, base: set<Revision>) {
    db.hasVersion && RanOn(cfg, db.(version := Remap(cfg, db.version)), base)
  }

  ghost predicate NobodyStamps(s: State) {
    forall r :: r in s.pcs ==> !s.pcs[r].Stamping?
  }

  lemma RanFromOnGraph(cfg: Config, db: Database, base: set<Revision>)
    requires cfg.Valid() && db.version <= cfg.graph.parents.Keys
    ensures RanFrom(cfg, db, base) <==> db.hasVersion && RanOn(cfg, db, base)
  {
    RemapOnGraph(cfg, db.version);
  }

  lemma ExecutedRanFrom(cfg: Config, db: Database, base: set<Revision>, pick: Revision)
    requires cfg.Valid() && RanOn(cfg, db, base) && Next(cfg.graph, db.version, pick)
    ensures RanFrom(cfg, Executed(cfg, db, pick), base)
  {
    ExecutedRan(cfg, db, base, pick);
    RanFromOnGraph(cfg, Executed(cfg, db, pick), base);
  }

  lemma RemapRanFrom(cfg: Config, db: Database, base: set<Revision>)
    requires cfg.Valid() && RanFrom(cfg, db, base)
    ensures RanFrom(cfg, db.(version := Remap(cfg, db.version)), base)
  {
    RemapOnGraph(cfg, Remap(cfg, db.version));
  }

  lemma LockedRanFrom(cfg: Config, db: Database, r: Rid, pc: Pc, pick: Revision, base: set<Revision>)
    requires cfg.Valid() && r in cfg.builds && Inside(pc) && !pc.Releasing? && !pc.Stamping?
    requires RanFrom(cfg, db, base) && (pc.Upgrading? ==> MayPick(cfg, db.version, r, pick))
    ensures RanFrom(cfg, Locked(cfg, db, r, pc, pick).0, base) && !Locked(cfg, db, r, pc, pick).1.Stamping?
  {
    match pc {
      case Remapping =>
        RemapRanFrom(cfg, db, base);
      case Upgrading =>
        if Accepts(cfg, r, db.version) && db.version != {cfg.builds[r].head} {
          RanFromOnGraph(cfg, db, base);
          ExecutedRanFrom(cfg, db, base, pick);
        }
      case _ =>
    }
  }

  lemma RanFromStep(cfg: Config, s: State, e: Event, base: set<Revision>)
    requires cfg.Valid() && Enabled(cfg, s, e) && RanFrom(cfg, s.db, base) && NobodyStamps(s)
    ensures RanFrom(cfg, Apply(cfg, s, e).db, base) && NobodyStamps(Apply(cfg, s, e))
  {
    if e.Step? && !s.pcs[e.r].Releasing? {
      LockedRanFrom(cfg, s.db, e.r, s.pcs[e.r], e.pick, base);
    }
  }

  /** From a version table that stands for `base` (an old id counting as the revision it maps to)
      every run executes exactly what separates the applied revisions from `base`, each once. */
  lemma {:induction false} PendingRunOnce(cfg: Config, s: State, events: seq<Event>, t: State, base: set<Revision>)
    requires Inv(cfg, s) && Runs(cfg, s, events, t)
    requires RanFrom(cfg, s.db, base) && NobodyStamps(s)
    ensures RanFrom(cfg, t.db, base) && NobodyStamps(t)
    decreases |events|
  {
    if events != [] {
      StepKeeps(cfg, s, events[0]);
      RanFromStep(cfg, s, events[0], base);
      PendingRunOnce(cfg, Apply(cfg, s, events[0]), events[1..], t, base);
    }
  }

  /** The log holds, each once and in topological order, every revision up to the head of `r`
      that `base` does not hold, and whatever newer builds added. */
  ghost predicate RanPending(cfg: Config, db: Database, base: set<Revision>, r: Rid)
    requires r in cfg.builds
  {
    RanOn(cfg, db, base) && cfg.builds[r].known - base <= Elements(db.log)
  }

  lemma ReturnedRan(cfg: Config, t: State, base: set<Revision>, r: Rid)
    requires Inv(cfg, t) && RanFrom(cfg, t.db, base) && r in t.pcs && t.pcs[r].Left? && t.pcs[r].result.Success?
    ensures RanPending(cfg, t.db, base, r)
  {
    assert LeftOk(cfg, t.db, r, t.pcs[r]);
    RanFromOnGraph(cfg, t.db, base);
  }

  /** Once a replica has returned normally, everything pending up to its head has been executed. */
  lemma ReturnedRanPending(cfg: Config, s: State, events: seq<Event>, t: State, base: set<Revision>, r: Rid)
    requires Inv(cfg, s) && Runs(cfg, s, events, t) && RanFrom(cfg, s.db, base) && NobodyStamps(s)
    requires r in t.pcs && t.pcs[r].Left? && t.pcs[r].result.Success?
    ensures r in cfg.builds && RanPending(cfg, t.db, base, r)
  {
    RunKeeps(cfg, s, events, t);
    PendingRunOnce(cfg, s, events, t, base);
    ReturnedRan(cfg, t, base, r);
  }

  // ----- Databases without a version table -----

  /** There is no legacy history, or its tables are missing, or not even its first migration was applied. */
  ghost predicate NothingToStamp(cfg: Config, db: Database) {
    || db.legacy.None? || !db.legacyTables
    || cfg.legacyOrder == [] || cfg.legacyOrder[0] !in db.legacy.value
  }

  /** No version table yet, nothing executed, and nobody has or will have a reason to stamp: a new
      installation, or a legacy database that cannot be stamped. */
  ghost predicate Unversioned(cfg: Config, s: State) {
    && !s.db.hasVersion && s.db.version == {} && s.db.log == []
    && (NothingToStamp(cfg, s.db) || forall r :: r in cfg.builds ==> !cfg.builds[r].bootstrap)
    && NobodyStamps(s)
  }

  lemma EmptyRanFromRoot(cfg: Config, db: Database)
    requires cfg.Valid() && db.hasVersion && db.version == {} && db.log == []
    ensures RanFrom(cfg, db, {})
  {
    DownOfNothing(cfg.graph);
    NothingRanYet(cfg, db);
    RanFromOnGraph(cfg, db, {});
  }

  lemma UnversionedLocked(cfg: Config, db: Database, r: Rid, pc: Pc, pick: Revision)
    requires cfg.Valid() && r in cfg.builds && Inside(pc) && !pc.Releasing? && !pc.Stamping?
    requires !db.hasVersion && db.version == {} && db.log == [] &&
               (LegacyStamp(cfg, db).None? || !cfg.builds[r].bootstrap)
    requires pc.Upgrading? ==> MayPick(cfg, db.version, r, pick)
    ensures var (db', pc') := Locked(cfg, db, r, pc, pick); !pc'.Stamping? && (db' == db || RanFrom(cfg, db', {}))
  {
    DownOfNothing(cfg.graph);
    match pc {
      case EnsuringTable =>
        EmptyRanFromRoot(cfg, db.(hasVersion := true));
      case Upgrading =>
        NothingRanYet(cfg, db);
        ExecutedRanFrom(cfg, db, {}, pick);
      case _ =>
    }
  }

  lemma UnversionedStep(cfg: Config, s: State, e: Event)
    requires cfg.Valid() && Enabled(cfg, s, e) && Unversioned(cfg, s)
    ensures var s' := Apply(cfg, s, e); NobodyStamps(s') && (s'.db == s.db || RanFrom(cfg, s'.db, {}))
  {
    if e.Step? && !s.pcs[e.r].Releasing? {
      UnversionedLocked(cfg, s.db, e.r, s.pcs[e.r], e.pick);
    }
  }

  /** However many replicas race to set up a database without a version table, it stays untouched
      or has executed the graph from its roots, each revision once. */
  lemma {:induction false} FreshRunOnce(cfg: Config, s: State, events: seq<Event>, t: State)
    requires Inv(cfg, s) && Runs(cfg, s, events, t) && Unversioned(cfg, s)
    ensures Unversioned(cfg, t) || (RanFrom(cfg, t.db, {}) && NobodyStamps(t))
    decreases |events|
  {
    if events != [] {
      var e := events[0];
      var s' := Apply(cfg, s, e);
      StepKeeps(cfg, s, e);
      UnversionedStep(cfg, s, e);
      if s'.db == s.db {
        FreshRunOnce(cfg, s', events[1..], t);
      } else {
        PendingRunOnce(cfg, s', events[1..], t, {});
      }
    }
  }

  /** So a replica that returned from setting up a database has seen everything up to its head
      executed exactly once. */
  lemma ReturnedRanFresh(cfg: Config, s: State, events: seq<Event>, t: State, r: Rid)
    requires Inv(cfg, s) && Runs(cfg, s, events, t) && Unversioned(cfg, s)
    requires r in t.pcs && t.pcs[r].Left? && t.pcs[r].result.Success?
    ensures r in cfg.builds && RanPending(cfg, t.db, {}, r)
  {
    RunKeeps(cfg, s, events, t);
    FreshRunOnce(cfg, s, events, t);
    assert LeftOk(cfg, t.db, r, t.pcs[r]);
    ReturnedRan(cfg, t, {}, r);
  }

  // ----- Legacy databases -----

  /** Where a replica can be before the stamp; one that does not bootstrap passes it by. */
  ghost predicate BeforeStamp(build: Build, pc: Pc, revision: Revision) {
    || pc.Outside? || pc.Left? || pc.Inspecting? || pc.Bootstrapping? || pc == Releasing(Failure)
    || if build.bootstrap then pc == Stamping(revision) else pc.EnsuringTable? || pc.Remapping? || pc.Upgrading?
  }

  ghost predicate LegacyDatabase(cfg: Config, db: Database, revision: Revision) {
    && db.version == {} && db.log == []
    && db.legacy.Some? && db.legacyTables && HistoryEndsAt(cfg, db.legacy.value, revision)
  }

  /** Before the stamp: no version table, or just created by a replica about to stamp. */
  ghost predicate Unstamped(cfg: Config, s: State, revision: Revision) {
    && LegacyDatabase(cfg, s.db, revision)
    && (forall r :: r in s.pcs && r in cfg.builds ==> BeforeStamp(cfg.builds[r], s.pcs[r], revision))
    && (s.db.hasVersion ==>
          cfg.createsTable && s.lock.Some? && s.lock.value in s.pcs && s.pcs[s.lock.value] == Stamping(revision))
  }

  /** No replica crashes between creating the version table and stamping it. */
  ghost predicate NoCrashWhileStamping(cfg: Config, s: State, events: seq<Event>)
    decreases |events|
  {
    events != [] && Enabled(cfg, s, events[0]) ==>
      && !(events[0].Crash? && cfg.createsTable && s.pcs[events[0].r].Stamping?)
      && NoCrashWhileStamping(cfg, Apply(cfg, s, events[0]), events[1..])
  }

  lemma StampedRanFrom(cfg: Config, db: Database, revision: Revision)
    requires cfg.Valid() && revision in cfg.graph.parents && db.log == []
    ensures RanFrom(cfg, db.(hasVersion := true, version := {revision}), Down(cfg.graph, {revision}))
  {
    var stamped := db.(hasVersion := true, version := {revision});
    SingletonAntichain(cfg.graph, revision);
    NothingRanYet(cfg, stamped);
    RanFromOnGraph(cfg, stamped, Down(cfg.graph, {revision}));
  }

  /** Once the holder has left the stamping step, nobody is in it. */
  lemma OnlyHolderStamps(s: State, s': State, r: Rid)
    requires Exclusive(s) && r in s.pcs && Inside(s.pcs[r]) && s'.pcs.Keys == s.pcs.Keys
    requires !s'.pcs[r].Stamping? && forall q :: q in s.pcs && q != r ==> s'.pcs[q] == s.pcs[q]
    ensures NobodyStamps(s')
  {
    forall q | q in s'.pcs ensures !s'.pcs[q].Stamping? {
      assert q != r ==> !Inside(s.pcs[q]);
    }
  }

  lemma StampStep(cfg: Config, s: State, r: Rid, pick: Revision, revision: Revision)
    requires LockOk(cfg, s) && Enabled(cfg, s, Step(r, pick)) && s.db.log == []
    requires s.pcs[r] == Stamping(revision) && revision in cfg.graph.parents
    ensures var s' := Apply(cfg, s, Step(r, pick)); RanFrom(cfg, s'.db, Down(cfg.graph, {revision})) && NobodyStamps(s')
  {
    StampedRanFrom(cfg, s.db, revision);
    OnlyHolderStamps(s, Apply(cfg, s, Step(r, pick)), r);
  }

  /** One step of a bootstrapping holder that has not reached the stamp. */
  lemma BeforeStampLocked(cfg: Config, db: Database, r: Rid, pc: Pc, pick: Revision, revision: Revision)
    requires r in cfg.builds && cfg.builds[r].bootstrap && LegacyDatabase(cfg, db, revision) && !db.hasVersion
    requires Inside(pc) && BeforeStamp(cfg.builds[r], pc, revision) && !pc.Stamping? && !pc.Releasing?
    ensures var (db', pc') := Locked(cfg, db, r, pc, pick);
            && db' == db.(hasVersion := db'.hasVersion) && BeforeStamp(cfg.builds[r], pc', revision)
            && (db'.hasVersion ==> cfg.createsTable && pc' == Stamping(revision))
  {
    HistoryEndIsHead(cfg, db.legacy.value, revision);
  }

  /** One step of a holder that does not bootstrap: it leaves the database alone, or it starts the
      graph at its roots. */
  lemma PassingByLocked(cfg: Config, db: Database, r: Rid, pc: Pc, pick: Revision, revision: Revision)
    requires cfg.Valid() && r in cfg.builds && !cfg.builds[r].bootstrap
    requires LegacyDatabase(cfg, db, revision) && !db.hasVersion
    requires Inside(pc) && BeforeStamp(cfg.builds[r], pc, revision) && !pc.Releasing?
    requires pc.Upgrading? ==> MayPick(cfg, db.version, r, pick)
    ensures var (db', pc') := Locked(cfg, db, r, pc, pick);
            && !pc'.Stamping?
            && (RanFrom(cfg, db', {}) || (db' == db && BeforeStamp(cfg.builds[r], pc', revision)))
  {
    UnversionedLocked(cfg, db, r, pc, pick);
  }

  lemma BeforeStampStep(cfg: Config, s: State, r: Rid, pick: Revision, revision: Revision)
    requires Exclusive(s) && Enabled(cfg, s, Step(r, pick)) && Unstamped(cfg, s, revision)
    requires !s.pcs[r].Stamping? && (cfg.builds[r].bootstrap || s.pcs[r].Releasing?)
    ensures Unstamped(cfg, Apply(cfg, s, Step(r, pick)), revision)
  {
    assert BeforeStamp(cfg.builds[r], s.pcs[r], revision) && s.lock == Some(r);
    if !s.pcs[r].Releasing? {
      BeforeStampLocked(cfg, s.db, r, s.pcs[r], pick, revision);
    }
  }

  lemma PassingByStep(cfg: Config, s: State, r: Rid, pick: Revision, revision: Revision)
    requires LockOk(cfg, s) && Enabled(cfg, s, Step(r, pick)) && Unstamped(cfg, s, revision)
    requires !cfg.builds[r].bootstrap && !s.pcs[r].Releasing?
    ensures var s' := Apply(cfg, s, Step(r, pick));
            Unstamped(cfg, s', revision) || (RanFrom(cfg, s'.db, {}) && NobodyStamps(s'))
  {
    assert BeforeStamp(cfg.builds[r], s.pcs[r], revision) && s.lock == Some(r);
    PassingByLocked(cfg, s.db, r, s.pcs[r], pick, revision);
    OnlyHolderStamps(s, Apply(cfg, s, Step(r, pick)), r);
  }

  lemma OutsideStep(cfg: Config, s: State, e: Event, revision: Revision)
    requires Exclusive(s) && Enabled(cfg, s, e) && Unstamped(cfg, s, revision) && !e.Step?
    requires !(e.Crash? && cfg.createsTable && s.pcs[e.r].Stamping?)
    ensures Unstamped(cfg, Apply(cfg, s, e), revision)
  {
    var s' := Apply(cfg, s, e);
    assert s'.db == s.db && s'.pcs == s.pcs[e.r := s'.pcs[e.r]];
    assert BeforeStamp(cfg.builds[e.r], s'.pcs[e.r], revision);
    if e.Crash? {
      assert s.lock == Some(e.r);
    }
  }

  /** Executed from `revision` on if it was stamped, or from the roots if a replica that does not
      bootstrap came first. */
  ghost predicate LegacyRan(cfg: Config, db: Database, revision: Revision) {
    || RanFrom(cfg, db, Down(cfg.graph, {revision}))
    || (RanFrom(cfg, db, {}) && exists r :: r in cfg.builds && !cfg.builds[r].bootstrap)
  }

  lemma UnstampedStep(cfg: Config, s: State, e: Event, revision: Revision)
    requires LockOk(cfg, s) && Enabled(cfg, s, e) && Unstamped(cfg, s, revision) && revision in cfg.graph.parents
    requires !(e.Crash? && cfg.createsTable && s.pcs[e.r].Stamping?)
    ensures var s' := Apply(cfg, s, e);
            Unstamped(cfg, s', revision) || (LegacyRan(cfg, s'.db, revision) && NobodyStamps(s'))
  {
    if !e.Step? {
      OutsideStep(cfg, s, e, revision);
    } else if s.pcs[e.r].Stamping? {
      assert BeforeStamp(cfg.builds[e.r], s.pcs[e.r], revision);
      StampStep(cfg, s, e.r, e.pick, revision);
    } else if cfg.builds[e.r].bootstrap || s.pcs[e.r].Releasing? {
      BeforeStampStep(cfg, s, e.r, e.pick, revision);
    } else {
      PassingByStep(cfg, s, e.r, e.pick, revision);
    }
  }

  lemma LegacyStaysRan(cfg: Config, s: State, events: seq<Event>, t: State, revision: Revision)
    requires Inv(cfg, s) && Runs(cfg, s, events, t) && LegacyRan(cfg, s.db, revision) && NobodyStamps(s)
    ensures LegacyRan(cfg, t.db, revision)
  {
    if RanFrom(cfg, s.db, Down(cfg.graph, {revision})) {
      PendingRunOnce(cfg, s, events, t, Down(cfg.graph, {revision}));
    } else {
      PendingRunOnce(cfg, s, events, t, {});
    }
  }

  /** A legacy database is stamped at the end of its contiguous history and only what that does
      not include is executed, each revision once, provided no replica crashes between creating
      the version table and stamping it; only a replica that runs with the bootstrap disabled
      can start at the roots instead, and then that is what every run has executed, once. */
  lemma {:induction false} LegacyRunOnce(cfg: Config, s: State, events: seq<Event>, t: State, revision: Revision)
    requires Inv(cfg, s) && Runs(cfg, s, events, t) && NoCrashWhileStamping(cfg, s, events)
    requires revision in cfg.graph.parents && Unstamped(cfg, s, revision)
    ensures Unstamped(cfg, t, revision) || LegacyRan(cfg, t.db, revision)
    decreases |events|
  {
    if events != [] {
      var e := events[0];
      var s' := Apply(cfg, s, e);
      StepKeeps(cfg, s, e);
      UnstampedStep(cfg, s, e, revision);
      if LegacyRan(cfg, s'.db, revision) && NobodyStamps(s') {
        LegacyStaysRan(cfg, s', events[1..], t, revision);
      } else {
        LegacyRunOnce(cfg, s', events[1..], t, revision);
      }
    }
  }

  lemma LegacyHeadIsKnown(cfg: Config, applied: set<string>, revision: Revision, r: Rid)
    requires cfg.Valid() && r in cfg.builds && HistoryEndsAt(cfg, applied, revision)
    ensures revision in cfg.graph.parents && Down(cfg.graph, {revision}) <= cfg.builds[r].known
  {
    assert cfg.BuildOk(cfg.builds[r]);
    var n: nat :| AppliedPrefix(cfg.legacyOrder, applied, n) && 0 < n &&
                  cfg.legacyOrder[n - 1] in cfg.legacyRevision &&
                  cfg.legacyRevision[cfg.legacyOrder[n - 1]] == revision;
    assert cfg.legacyOrder[n - 1] in cfg.legacyOrder;
    KnownInGraph(cfg, r);
    DownIsLeast(cfg.graph, {revision}, cfg.builds[r].known);
  }

  /** A database without version table whose legacy history ends with its `n`-th migration. */
  ghost predicate LegacyHistory(cfg: Config, db: Database, n: nat) {
    && !db.hasVersion && db.legacy.Some? && db.legacyTables
    && 0 < n && AppliedPrefix(cfg.legacyOrder, db.legacy.value, n)
    && (forall m <- cfg.legacyOrder :: m in cfg.legacyRevision)
  }

  /** The revision of the `i`-th legacy migration. */
  function LegacyAt(cfg: Config, i: nat): Revision
    requires i < |cfg.legacyOrder| && cfg.legacyOrder[i] in cfg.legacyRevision
  {
    cfg.legacyRevision[cfg.legacyOrder[i]]
  }

  lemma HistoryIsLegacy(cfg: Config, s: State, n: nat)
    requires Initial(cfg, s) && LegacyHistory(cfg, s.db, n)
    ensures LegacyDatabase(cfg, s.db, LegacyAt(cfg, n - 1)) && Unstamped(cfg, s, LegacyAt(cfg, n - 1))
  {
    assert HistoryEndsAt(cfg, s.db.legacy.value, LegacyAt(cfg, n - 1));
  }

  lemma {:induction false} StaysAntichain(cfg: Config, s: State, events: seq<Event>, t: State)
    requires Inv(cfg, s) && Runs(cfg, s, events, t) && Antichain(cfg.graph, s.db.version)
    ensures Antichain(cfg.graph, t.db.version)
    decreases |events|
  {
    if events != [] {
      var e := events[0];
      StepKeeps(cfg, s, e);
      if e.Step? && !s.pcs[e.r].Releasing? {
        LockedAdvances(cfg, s.db, e.r, s.pcs[e.r], e.pick);
      }
      StaysAntichain(cfg, Apply(cfg, s, e), events[1..], t);
    }
  }

  ghost predicate AllBootstrap(cfg: Config) {
    forall r :: r in cfg.builds ==> cfg.builds[r].bootstrap
  }

  /** What a bootstrapping run has executed, seen from the stamped revision. */
  lemma LegacyRanOn(cfg: Config, s: State, events: seq<Event>, t: State, n: nat)
    requires Initial(cfg, s) && LegacyHistory(cfg, s.db, n) && Runs(cfg, s, events, t)
    requires NoCrashWhileStamping(cfg, s, events) && AllBootstrap(cfg) && cfg.builds != map[]
    ensures Inv(cfg, t) && LegacyAt(cfg, n - 1) in cfg.graph.parents
    ensures Unstamped(cfg, t, LegacyAt(cfg, n - 1)) ||
            (t.db.hasVersion && RanOn(cfg, t.db, Down(cfg.graph, {LegacyAt(cfg, n - 1)})))
  {
    var revision := LegacyAt(cfg, n - 1);
    var r :| r in cfg.builds;
    InitialInv(cfg, s);
    HistoryIsLegacy(cfg, s, n);
    LegacyHeadIsKnown(cfg, s.db.legacy.value, revision, r);
    LegacyRunOnce(cfg, s, events, t, revision);
    RunKeeps(cfg, s, events, t);
    if !Unstamped(cfg, t, revision) {
      DownOfNothing(cfg.graph);
      StaysAntichain(cfg, s, events, t);
      RanFromOnGraph(cfg, t.db, Down(cfg.graph, {revision}));
    }
  }

  /** A legacy database with its first `n` migrations applied: if every replica bootstraps and none
      crashes between creating the version table and stamping it, no run executes a revision that
      the one of the `n`-th migration descends from, and until something is executed the table
      holds just that revision. */
  lemma LegacyStampsLast(cfg: Config, s: State, events: seq<Event>, t: State, n: nat)
    requires Initial(cfg, s) && LegacyHistory(cfg, s.db, n) && Runs(cfg, s, events, t)
    requires NoCrashWhileStamping(cfg, s, events) && AllBootstrap(cfg) && cfg.builds != map[]
    ensures forall i :: 0 <= i < n && Reaches(cfg.graph, LegacyAt(cfg, n - 1), LegacyAt(cfg, i)) ==>
                          LegacyAt(cfg, i) !in t.db.log
    ensures t.db.hasVersion && NobodyStamps(t) && t.db.log == [] ==> t.db.version == {LegacyAt(cfg, n - 1)}
  {
    var revision := LegacyAt(cfg, n - 1);
    LegacyRanOn(cfg, s, events, t, n);
    if !Unstamped(cfg, t, revision) {
      forall i | 0 <= i < n && Reaches(cfg.graph, revision, LegacyAt(cfg, i)) ensures LegacyAt(cfg, i) !in t.db.log {
        LegacyNotListed(cfg, t.db.log, revision, LegacyAt(cfg, i));
      }
      if t.db.log == [] {
        StampStands(cfg, t.db, revision);
      }
    }
  }

  lemma StampStands(cfg: Config, db: Database, revision: Revision)
    requires cfg.Valid() && revision in cfg.graph.parents && RanOn(cfg, db, Down(cfg.graph, {revision})) && db.log == []
    ensures db.version == {revision}
  {
    SingletonAntichain(cfg.graph, revision);
    SameDownSameVersion(cfg.graph, db.version, {revision});
  }

  lemma LegacyNotListed(cfg: Config, log: seq<Revision>, revision: Revision, older: Revision)
    requires Lists(cfg.graph, Down(cfg.graph, {revision}), log) && Reaches(cfg.graph, revision, older)
    ensures older !in log
  {
    if older in cfg.graph.parents {
      InDown(cfg.graph, {revision}, revision, older);
    }
    forall i | 0 <= i < |log| ensures log[i] != older {
    }
  }

  /** Once a replica has returned, that is exact: of the applied legacy migrations, those and only
      those have been executed again that the stamped revision does not descend from.  None, if
      the legacy migrations lie on one line. */
  lemma LegacyRerunIff(cfg: Config, s: State, events: seq<Event>, t: State, n: nat, r: Rid)
    requires Initial(cfg, s) && LegacyHistory(cfg, s.db, n) && Runs(cfg, s, events, t)
    requires NoCrashWhileStamping(cfg, s, events) && AllBootstrap(cfg)
    requires r in t.pcs && t.pcs[r].Left? && t.pcs[r].result.Success?
    ensures forall i :: 0 <= i < n ==>
              (LegacyAt(cfg, i) in t.db.log <==> !Reaches(cfg.graph, LegacyAt(cfg, n - 1), LegacyAt(cfg, i)))
  {
    var revision := LegacyAt(cfg, n - 1);
    LegacyRanOn(cfg, s, events, t, n);
    ReturnedIsStamped(cfg, t, r, revision);
    forall i | 0 <= i < n
      ensures LegacyAt(cfg, i) in t.db.log <==> !Reaches(cfg.graph, revision, LegacyAt(cfg, i))
    {
      assert cfg.legacyOrder[i] in cfg.legacyOrder && cfg.BuildOk(cfg.builds[r]);
      RerunIff(cfg, t, revision, LegacyAt(cfg, i), r);
    }
  }

  lemma RerunIff(cfg: Config, t: State, revision: Revision, older: Revision, r: Rid)
    requires Inv(cfg, t) && RanOn(cfg, t.db, Down(cfg.graph, {revision}))
    requires r in t.pcs && t.pcs[r].Left? && t.pcs[r].result.Success? && older in cfg.builds[r].known
    ensures older in t.db.log <==> !Reaches(cfg.graph, revision, older)
  {
    if Reaches(cfg.graph, revision, older) {
      LegacyNotListed(cfg, t.db.log, revision, older);
    } else {
      assert LeftOk(cfg, t.db, r, t.pcs[r]);
      assert older in Elements(t.db.log);
    }
  }

  lemma ReturnedIsStamped(cfg: Config, t: State, r: Rid, revision: Revision)
    requires Inv(cfg, t) && r in t.pcs && t.pcs[r].Left? && t.pcs[r].result.Success?
    ensures t.db.hasVersion && !Unstamped(cfg, t, revision)
  {
    assert LeftOk(cfg, t.db, r, t.pcs[r]) && cfg.BuildOk(cfg.builds[r]);
    DownOfNothing(cfg.graph);
    KnownInGraph(cfg, r);
  }

  lemma CrashForgets(cfg: Config, s: State, r: Rid)
    requires Inv(cfg, s) && r in s.pcs && s.db.hasVersion && s.pcs[r].Stamping?
    ensures Enabled(cfg, s, Crash(r)) && Inv(cfg, Apply(cfg, s, Crash(r)))
    ensures RanFrom(cfg, Apply(cfg, s, Crash(r)).db, {}) && NobodyStamps(Apply(cfg, s, Crash(r)))
  {
    assert HolderOk(cfg, s.db, r, s.pcs[r]);
    OnlyHolderStamps(s, Apply(cfg, s, Crash(r)), r);
    EmptyRanFromRoot(cfg, s.db);
    StepKeeps(cfg, s, Crash(r));
  }

  /** The proviso is exact: on a backend where the table is created first, a crash before the
      stamp makes later replicas execute the graph from its roots, so that whoever returns has
      run again everything the legacy history had applied. */
  lemma CrashBeforeStampReruns(cfg: Config, s: State, r: Rid, events: seq<Event>, t: State, q: Rid)
    requires Inv(cfg, s) && r in s.pcs && s.db.hasVersion && s.pcs[r].Stamping?
    requires LegacyDatabase(cfg, s.db, s.pcs[r].revision) && Runs(cfg, Apply(cfg, s, Crash(r)), events, t)
    requires q in t.pcs && t.pcs[q].Left? && t.pcs[q].result.Success?
    ensures q in cfg.builds && RanPending(cfg, t.db, {}, q)
    ensures Down(cfg.graph, {s.pcs[r].revision}) <= Elements(t.db.log)
  {
    CrashForgets(cfg, s, r);
    ReturnedRanPending(cfg, Apply(cfg, s, Crash(r)), events, t, {}, q);
    LegacyHeadIsKnown(cfg, s.db.legacy.value, s.pcs[r].revision, q);
  }

  // ----- Progress -----

  lemma Prepend(cfg: Config, s: State, e: Event, events: seq<Event>, t: State)
    requires Enabled(cfg, s, e) && Runs(cfg, Apply(cfg, s, e), events, t)
    ensures Runs(cfg, s, [e] + events, t)
  {
    assert ([e] + events)[1..] == events;
  }

  /** Replica `r` has left with its head, the lock is free, and since `s` exactly what `base` does
      not include has been executed, each revision once and after its parents. */
  ghost predicate Finished(cfg: Config, s: State, t: State, r: Rid, base: set<Revision>)
    requires r in cfg.builds
  {
    && r in t.pcs && t.pcs[r] == Left(Success({cfg.builds[r].head})) && t.lock == None
    && |s.db.log| <= |t.db.log| && t.db.log[..|s.db.log|] == s.db.log
    && Lists(cfg.graph, base, t.db.log[|s.db.log|..])
    && base + Elements(t.db.log[|s.db.log|..]) == cfg.builds[r].known
  }

  /** The run since `start` has executed exactly what separates the table from `base`. */
  ghost predicate Under(cfg: Config, start: State, s: State, base: set<Revision>) {
    && |start.db.log| <= |s.db.log| && s.db.log[..|start.db.log|] == start.db.log
    && Lists(cfg.graph, base, s.db.log[|start.db.log|..])
    && Down(cfg.graph, s.db.version) == base + Elements(s.db.log[|start.db.log|..])
  }

  /** One round of the upgrade loop. */
  lemma UpgradeRound(cfg: Config, s: State, r: Rid) returns (pick: Revision)
    requires Inv(cfg, s) && r in s.pcs && s.pcs[r].Upgrading? && Accepts(cfg, r, s.db.version)
    requires s.db.version != {cfg.builds[r].head}
    ensures Enabled(cfg, s, Step(r, pick)) && Next(cfg.graph, s.db.version, pick) && pick in cfg.builds[r].known
    ensures Apply(cfg, s, Step(r, pick)) == s.(db := Executed(cfg, s.db, pick), pcs := s.pcs[r := Upgrading])
  {
    var build, g := cfg.builds[r], cfg.graph;
    KnownInGraph(cfg, r);
    assert cfg.BuildOk(build);
    if build.known <= Down(g, s.db.version) {
      DownIsLeast(g, s.db.version, build.known);
      SingletonAntichain(g, build.head);
      SameDownSameVersion(g, s.db.version, {build.head});
      assert false;
    }
    pick := SomethingIsNext(g, build.known, s.db.version);
  }

  lemma LaterPart(log: seq<Revision>, n: nat, pick: Revision)
    requires n <= |log|
    ensures (log + [pick])[n..] == log[n..] + [pick] && (log + [pick])[..n] == log[..n]
  {
  }

  lemma ListsAdvanced(g: Graph, base: set<Revision>, version: set<Revision>, more: seq<Revision>, pick: Revision)
    requires g.Valid() && version <= g.parents.Keys && Next(g, version, pick)
    requires Lists(g, base, more) && Down(g, version) == base + Elements(more)
    ensures Lists(g, base, more + [pick]) && Down(g, Advanced(g, version, pick)) == base + Elements(more + [pick])
  {
    ListsSnoc(g, base, more, pick);
    ElementsSnoc(more, pick);
    AdvancedDown(g, version, pick);
  }

  lemma UnderExecuted(cfg: Config, start: State, s: State, pick: Revision, pcs: map<Rid, Pc>, base: set<Revision>)
    requires cfg.Valid() && Under(cfg, start, s, base) && Antichain(cfg.graph, s.db.version) &&
               Next(cfg.graph, s.db.version, pick)
    ensures Under(cfg, start, s.(db := Executed(cfg, s.db, pick), pcs := pcs), base)
  {
    LaterPart(s.db.log, |start.db.log|, pick);
    ListsAdvanced(cfg.graph, base, s.db.version, s.db.log[|start.db.log|..], pick);
  }

  lemma AcceptsNext(cfg: Config, version: set<Revision>, r: Rid, pick: Revision)
    requires cfg.Valid() && r in cfg.builds && Accepts(cfg, r, version) && Next(cfg.graph, version, pick) &&
               pick in cfg.builds[r].known
    ensures Accepts(cfg, r, Advanced(cfg.graph, version, pick))
    ensures var known, after := cfg.builds[r].known, Advanced(cfg.graph, version, pick);
            known - Down(cfg.graph, after) < known - Down(cfg.graph, version)
  {
    AdvancedAntichain(cfg.graph, version, pick);
    AdvancedDown(cfg.graph, version, pick);
  }

  /** A replica that got as far as upgrading and is left alone runs what is pending and leaves. */
  lemma {:induction false} UpgradesToHead(cfg: Config, start: State, s: State, r: Rid, base: set<Revision>)
    returns (events: seq<Event>, t: State)
    requires Inv(cfg, s) && r in s.pcs && s.pcs[r].Upgrading? && Accepts(cfg, r, s.db.version) &&
               Under(cfg, start, s, base)
    ensures Runs(cfg, s, events, t) && Finished(cfg, start, t, r, base)
    decreases cfg.builds[r].known - Down(cfg.graph, s.db.version)
  {
    if s.db.version == {cfg.builds[r].head} {
      events, t := ConfirmsAndLeaves(cfg, start, s, r, base);
    } else {
      var pick := UpgradeRound(cfg, s, r);
      var s1 := Apply(cfg, s, Step(r, pick));
      StepKeeps(cfg, s, Step(r, pick));
      AcceptsNext(cfg, s.db.version, r, pick);
      UnderExecuted(cfg, start, s, pick, s1.pcs, base);
      events, t := UpgradesToHead(cfg, start, s1, r, base);
      Prepend(cfg, s, Step(r, pick), events, t);
      events := [Step(r, pick)] + events;
    }
  }

  lemma ConfirmsAndLeaves(cfg: Config, start: State, s: State, r: Rid, base: set<Revision>)
    returns (events: seq<Event>, t: State)
    requires LockOk(cfg, s) && r in s.pcs && s.pcs[r].Upgrading? && s.db.version == {cfg.builds[r].head}
    requires Accepts(cfg, r, s.db.version) && Under(cfg, start, s, base)
    ensures Runs(cfg, s, events, t) && Finished(cfg, start, t, r, base)
  {
    var e := Step(r, cfg.builds[r].head);
    assert cfg.BuildOk(cfg.builds[r]);
    var s1 := Apply(cfg, s, e);
    var s2 := Apply(cfg, s1, e);
    t := Apply(cfg, s2, e);
    Prepend(cfg, s2, e, [], t);
    Prepend(cfg, s1, e, [e] + [], t);
    Prepend(cfg, s, e, [e] + ([e] + []), t);
    events := [e] + ([e] + ([e] + []));
  }

  /** The table that the upgrade sees behind the remap. */
  function UpgradeTable(cfg: Config, version: set<Revision>, r: Rid): set<Revision>
    requires r in cfg.builds
  {
    if cfg.builds[r].autoRemap then Remap(cfg, version) else version
  }

  /** The table as bootstrapping and remapping leave it for the upgrade. */
  function Prepared(cfg: Config, db: Database, r: Rid): set<Revision>
    requires r in cfg.builds
  {
    var stamp := LegacyStamp(cfg, db);
    UpgradeTable(cfg, if cfg.builds[r].bootstrap && stamp.Some? then {stamp.value} else db.version, r)
  }

  /** `s` is at `pc` in replica `r`'s hands, with nothing executed since `start`. */
  ghost predicate At(cfg: Config, start: State, s: State, r: Rid, pc: Pc) {
    Inv(cfg, s) && r in s.pcs && s.pcs[r] == pc && s.db.log == start.db.log
  }

  lemma QuietLocked(cfg: Config, db: Database, r: Rid, pc: Pc, pick: Revision)
    requires r in cfg.builds && Inside(pc) && !pc.Releasing? && !pc.Upgrading?
    ensures Locked(cfg, db, r, pc, pick).0.log == db.log
  {
  }

  lemma HolderMoves(cfg: Config, s: State, r: Rid, pick: Revision)
    requires Enabled(cfg, s, Step(r, pick)) && !s.pcs[r].Releasing?
    ensures var (db, pc) := Locked(cfg, s.db, r, s.pcs[r], pick);
            Apply(cfg, s, Step(r, pick)) == s.(db := db, pcs := s.pcs[r := pc])
  {
  }

  /** One step that executes nothing. */
  lemma QuietStep(cfg: Config, start: State, s: State, r: Rid, pc: Pc) returns (t: State)
    requires At(cfg, start, s, r, pc)
    requires Inside(pc) && !pc.Releasing? && !pc.Upgrading?
    ensures var e := Step(r, cfg.builds[r].head); var (db, next) := Locked(cfg, s.db, r, pc, cfg.builds[r].head);
            && Enabled(cfg, s, e) && t == Apply(cfg, s, e) && t == s.(db := db, pcs := s.pcs[r := next])
            && At(cfg, start, t, r, next)
  {
    var pick := cfg.builds[r].head;
    t := Apply(cfg, s, Step(r, pick));
    HolderMoves(cfg, s, r, pick);
    QuietLocked(cfg, s.db, r, pc, pick);
    HolderStep(cfg, s, r, pick);
  }

  /** The remap hands the upgrade its table. */
  lemma RemapStep(cfg: Config, start: State, s: State, r: Rid) returns (t: State)
    requires At(cfg, start, s, r, Remapping)
    ensures var e := Step(r, cfg.builds[r].head);
            && Enabled(cfg, s, e) && t == Apply(cfg, s, e) && At(cfg, start, t, r, Upgrading)
            && t.db.version == UpgradeTable(cfg, s.db.version, r)
  {
    assert HolderOk(cfg, s.db, r, s.pcs[r]);
    RemapOnGraph(cfg, {});
    t := QuietStep(cfg, start, s, r, Remapping);
  }

  /** From the creation of the version table on. */
  lemma RemapsAndUpgrades(cfg: Config, start: State, s: State, r: Rid, base: set<Revision>)
    returns (events: seq<Event>, t: State)
    requires At(cfg, start, s, r, EnsuringTable) && base == Down(cfg.graph, UpgradeTable(cfg, s.db.version, r))
    requires Accepts(cfg, r, UpgradeTable(cfg, s.db.version, r))
    ensures Runs(cfg, s, events, t) && Finished(cfg, start, t, r, base)
  {
    var e := Step(r, cfg.builds[r].head);
    var s1 := QuietStep(cfg, start, s, r, EnsuringTable);
    var s2 := RemapStep(cfg, start, s1, r);
    NothingSince(cfg, start, s2, base);
    events, t := UpgradesToHead(cfg, start, s2, r, base);
    Prepend(cfg, s1, e, events, t);
    Prepend(cfg, s, e, [e] + events, t);
    events := [e] + ([e] + events);
  }

  lemma NothingSince(cfg: Config, start: State, s: State, base: set<Revision>)
    requires s.db.log == start.db.log && base == Down(cfg.graph, s.db.version)
    ensures Under(cfg, start, s, base)
  {
    assert s.db.log[|start.db.log|..] == [] && s.db.log[..|start.db.log|] == start.db.log;
    ListsNothing(cfg.graph, base);
  }

  /** A replica that finds the lock free and a table that Alembic will accept once it has been
      stamped or remapped, as need be, can always get through: it returns with its head, having
      executed exactly what was pending. */
  lemma SoloReplicaReachesHead(cfg: Config, s: State, r: Rid) returns (events: seq<Event>, t: State)
    requires Inv(cfg, s) && s.lock == None && r in s.pcs && s.pcs[r].Outside?
    requires forall v <- s.db.version :: v in cfg.builds[r].known || v in cfg.oldToNew
    requires Prepared(cfg, s.db, r) <= cfg.builds[r].known && Antichain(cfg.graph, Prepared(cfg, s.db, r))
    ensures Runs(cfg, s, events, t) && Finished(cfg, s, t, r, Down(cfg.graph, Prepared(cfg, s.db, r)))
  {
    var build, e, base := cfg.builds[r], Step(r, cfg.builds[r].head), Down(cfg.graph, Prepared(cfg, s.db, r));
    var s1 := Taken(cfg, s, r);
    var s2 := QuietStep(cfg, s, s1, r, Inspecting);
    if s2.pcs[r].Releasing? {
      t := Apply(cfg, s2, e);
      Prepend(cfg, s2, e, [], t);
      events := [e] + [];
      AlreadyAtHead(cfg, s, s2, t, r);
    } else {
      events, t := BootstrapsAndUpgrades(cfg, s, s2, r, base);
    }
    Prepend(cfg, s1, e, events, t);
    Prepend(cfg, s, Acquire(r), [e] + events, t);
    events := [Acquire(r)] + ([e] + events);
  }

  /** So a replica left alone with a legacy database executes exactly what the revision of the last
      contiguous legacy migration does not include. */
  lemma SoloReplicaFinishesHistory(cfg: Config, s: State, r: Rid, n: nat) returns (events: seq<Event>, t: State)
    requires Initial(cfg, s) && LegacyHistory(cfg, s.db, n) && r in s.pcs && cfg.builds[r].bootstrap
    ensures Runs(cfg, s, events, t) && Finished(cfg, s, t, r, Down(cfg.graph, {LegacyAt(cfg, n - 1)}))
  {
    var revision := LegacyAt(cfg, n - 1);
    InitialInv(cfg, s);
    LegacyHeadIs(cfg, s.db.legacy.value, n);
    HistoryIsLegacy(cfg, s, n);
    LegacyHeadIsKnown(cfg, s.db.legacy.value, revision, r);
    StampIsKnown(cfg, s.db, r);
    RemapOnGraph(cfg, {revision});
    SingletonAntichain(cfg.graph, revision);
    events, t := SoloReplicaReachesHead(cfg, s, r);
  }

  lemma AlreadyAtHead(cfg: Config, s: State, s2: State, t: State, r: Rid)
    requires cfg.Valid() && r in cfg.builds && s.db.hasVersion && s.db.version == {cfg.builds[r].head} &&
               t.db == s.db == s2.db
    requires r in t.pcs && t.pcs[r] == Left(Success({cfg.builds[r].head})) && t.lock == None
    ensures Finished(cfg, s, t, r, Down(cfg.graph, Prepared(cfg, s.db, r)))
  {
    assert cfg.BuildOk(cfg.builds[r]);
    RemapOnGraph(cfg, s.db.version);
    NothingSince(cfg, s, t, Down(cfg.graph, s.db.version));
  }

  lemma BootstrapsAndUpgrades(cfg: Config, start: State, s: State, r: Rid, base: set<Revision>)
    returns (events: seq<Event>, t: State)
    requires At(cfg, start, s, r, Bootstrapping) && base == Down(cfg.graph, Prepared(cfg, s.db, r))
    requires Accepts(cfg, r, Prepared(cfg, s.db, r))
    ensures Runs(cfg, s, events, t) && Finished(cfg, start, t, r, base)
  {
    var e, stamp := Step(r, cfg.builds[r].head), LegacyStamp(cfg, s.db);
    var s1 := QuietStep(cfg, start, s, r, Bootstrapping);
    if cfg.builds[r].bootstrap && stamp.Some? {
      var s2 := QuietStep(cfg, start, s1, r, Stamping(stamp.value));
      events, t := RemapsAndUpgrades(cfg, start, s2, r, base);
      Prepend(cfg, s1, e, events, t);
      events := [e] + events;
    } else {
      events, t := RemapsAndUpgrades(cfg, start, s1, r, base);
    }
    Prepend(cfg, s, e, events, t);
    events := [e] + events;
  }

  // ----- The crash before the stamp happens -----

  /** A bootstrapping replica's steps from the inspection of a legacy database to the stamp. */
  lemma LegacySteps(cfg: Config, db: Database, r: Rid, revision: Revision, pick: Revision)
    requires r in cfg.builds && cfg.builds[r].bootstrap && cfg.createsTable
    requires !db.hasVersion && LegacyDatabase(cfg, db, revision)
    ensures Locked(cfg, db, r, Inspecting, pick) == (db, Bootstrapping)
    ensures Locked(cfg, db, r, Bootstrapping, pick) == (db.(hasVersion := true), Stamping(revision))
  {
    HistoryEndIsHead(cfg, db.legacy.value, revision);
  }

  lemma Taken(cfg: Config, s: State, r: Rid) returns (t: State)
    requires Inv(cfg, s) && s.lock == None && r in s.pcs && s.pcs[r].Outside?
    ensures Enabled(cfg, s, Acquire(r)) && t == Apply(cfg, s, Acquire(r)) && At(cfg, s, t, r, Inspecting)
    ensures t == s.(lock := Some(r), pcs := s.pcs[r := Inspecting])
  {
    t := Apply(cfg, s, Acquire(r));
    LockEvent(cfg, s, Acquire(r));
  }

  /** From the free lock to the open stamp: the version table has been created, and is empty. */
  lemma ReachesStamp(cfg: Config, s: State, r: Rid, revision: Revision) returns (events: seq<Event>, t: State)
    requires Inv(cfg, s) && s.lock == None && r in s.pcs && s.pcs[r].Outside? && cfg.builds[r].bootstrap
    requires cfg.createsTable && !s.db.hasVersion && LegacyDatabase(cfg, s.db, revision)
    ensures Runs(cfg, s, events, t) && Inv(cfg, t) && t.db == s.db.(hasVersion := true)
    ensures t.pcs == s.pcs[r := Stamping(revision)]
  {
    var e := Step(r, cfg.builds[r].head);
    LegacySteps(cfg, s.db, r, revision, cfg.builds[r].head);
    var s1 := Taken(cfg, s, r);
    var s2 := QuietStep(cfg, s, s1, r, Inspecting);
    t := QuietStep(cfg, s, s2, r, Bootstrapping);
    ThreeSteps(cfg, s, Acquire(r), s1, e, s2, e, t);
    events := [Acquire(r), e, e];
  }

  lemma ThreeSteps(cfg: Config, s: State, e0: Event, s1: State, e1: Event, s2: State, e2: Event, t: State)
    requires Enabled(cfg, s, e0) && s1 == Apply(cfg, s, e0) && Enabled(cfg, s1, e1) && s2 == Apply(cfg, s1, e1)
    requires Enabled(cfg, s2, e2) && t == Apply(cfg, s2, e2)
    ensures Runs(cfg, s, [e0, e1, e2], t)
  {
    Prepend(cfg, s2, e2, [], t);
    Prepend(cfg, s1, e1, [e2] + [], t);
    Prepend(cfg, s, e0, [e1] + ([e2] + []), t);
    assert [e0] + ([e1] + ([e2] + [])) == [e0, e1, e2];
  }

  lemma {:induction false} RunsConcat(cfg: Config, s: State, before: seq<Event>, m: State, after: seq<Event>, t: State)
    requires Runs(cfg, s, before, m) && Runs(cfg, m, after, t)
    ensures Runs(cfg, s, before + after, t)
    decreases |before|
  {
    if before == [] {
      assert before + after == after;
    } else {
      RunsConcat(cfg, Apply(cfg, s, before[0]), before[1..], m, after, t);
      assert (before + after)[1..] == before[1..] + after;
    }
  }

  /** A replica that has nothing to stamp starts at the roots of an empty table. */
  lemma NothingToRemap(cfg: Config, db: Database, q: Rid)
    requires cfg.Valid() && q in cfg.builds && LegacyStamp(cfg, db).None? && db.version == {}
    ensures AllKnown(cfg, q, db.version) && Prepared(cfg, db, q) == {} && Accepts(cfg, q, {})
  {
    DownOfNothing(cfg.graph);
    RemapOnGraph(cfg, {});
  }

  /** For every legacy database on such a backend there is a run in which one replica crashes
      before its stamp and another one then returns with its head, having executed again all
      that the legacy history had applied. */
  lemma CrashRerunExists(cfg: Config, s: State, r: Rid, q: Rid, revision: Revision)
    returns (events: seq<Event>, t: State)
    requires Initial(cfg, s) && r != q && r in s.pcs && q in s.pcs && cfg.builds[r].bootstrap
    requires cfg.createsTable && !s.db.hasVersion && LegacyDatabase(cfg, s.db, revision)
    ensures Runs(cfg, s, events, t) && q in t.pcs && t.pcs[q] == Left(Success({cfg.builds[q].head}))
    ensures Down(cfg.graph, {revision}) <= Elements(t.db.log)
  {
    InitialInv(cfg, s);
    var before, m := ReachesStamp(cfg, s, r, revision);
    CrashForgets(cfg, m, r);
    var s4 := Apply(cfg, m, Crash(r));
    NothingToRemap(cfg, s4.db, q);
    var after;
    after, t := SoloReplicaReachesHead(cfg, s4, q);
    CrashBeforeStampReruns(cfg, m, r, after, t, q);
    Prepend(cfg, m, Crash(r), after, t);
    RunsConcat(cfg, s, before, m, [Crash(r)] + after, t);
    events := before + ([Crash(r)] + after);
  }

  // ----- An example with a branch and a merge -----

  function ExampleGraph(): Graph {
    Graph(map["a" := {}, "b" := {"a"}, "c" := {"a"}, "d" := {"b", "c"}], map["a" := 0, "b" := 1, "c" := 1, "d" := 2])
  }

  function ExampleBuild(): Build {
    Build({"a", "b", "c", "d"}, "d", true, true)
  }

  /** Two replicas of one build; the legacy migrations `m1` and `m2` correspond to `a` and `b`. */
  function ExampleConfig(): Config {
    Config(ExampleGraph(), map["old" := "a"], "old", "a", {}, ["m1", "m2"], map["m1" := "a", "m2" := "b"], true,
           map[0 := ExampleBuild(), 1 := ExampleBuild()])
  }

  function ExampleStart(legacy: Option<set<string>>): State {
    State(Database(false, {}, legacy, true, []), None, map[0 := Outside, 1 := Outside])
  }

  lemma ExampleKnown()
    ensures ExampleGraph().Valid() && Down(ExampleGraph(), {"d"}) == {"a", "b", "c", "d"}
  {
    var g, all, down := ExampleGraph(), {"a", "b", "c", "d"}, Down(ExampleGraph(), {"d"});
    DownIsClosed(g, {"d"});
    assert "d" in {"d"} * g.parents.Keys;
    assert g.Parents("d") == {"b", "c"} && g.Parents("b") == {"a"};
    assert "b" in g.Parents("d") && "c" in g.Parents("d") && "a" in g.Parents("b");
    DownIsLeast(g, {"d"}, all);
  }

  lemma ExampleBuilds()
    ensures ExampleConfig().builds.Keys == {0, 1} && forall r <- {0, 1} :: ExampleConfig().builds[r] == ExampleBuild()
  {
  }

  lemma ExampleBuildOk()
    ensures ExampleConfig().BuildOk(ExampleBuild())
  {
    ExampleKnown();
  }

  lemma ExampleIsValid()
    ensures ExampleConfig().Valid()
  {
    var cfg := ExampleConfig();
    ExampleKnown();
    ExampleBuilds();
    ExampleBuildOk();
    assert cfg.oldToNew.Keys == {"old"} && "old" !in cfg.graph.parents;
    assert forall r :: r in cfg.builds ==> cfg.builds[r] == ExampleBuild();
  }

  lemma ExampleShape(legacy: Option<set<string>>)
    ensures var s := ExampleStart(legacy);
            && s.pcs.Keys == {0, 1} && (forall r :: r in s.pcs ==> s.pcs[r] == Outside) && s.lock == None
            && !s.db.hasVersion && s.db.version == {} && s.db.log == [] && s.db.legacy == legacy
  {
  }

  /** The assumptions of the theorems above can be met. */
  lemma ExampleInitial(legacy: Option<set<string>>)
    ensures Initial(ExampleConfig(), ExampleStart(legacy))
    ensures legacy.None? ==> Unversioned(ExampleConfig(), ExampleStart(legacy))
  {
    ExampleShape(legacy);
    InitialFrom(ExampleConfig(), ExampleStart(legacy)) by {
      ExampleIsValid();
      ExampleBuilds();
    }
  }

  lemma InitialFrom(cfg: Config, s: State)
    requires cfg.Valid() && cfg.builds.Keys == s.pcs.Keys && s.lock == None
    requires forall r :: r in s.pcs ==> s.pcs[r] == Outside
    requires !s.db.hasVersion && s.db.version == {} && s.db.log == []
    ensures Initial(cfg, s) && (s.db.legacy.None? ==> Unversioned(cfg, s))
  {
  }

  lemma ExampleLegacy()
    ensures LegacyHistory(ExampleConfig(), ExampleStart(Some({"m1", "m2"})).db, 2)
    ensures LegacyAt(ExampleConfig(), 0) == "a" && LegacyAt(ExampleConfig(), 1) == "b"
  {
  }

  lemma ExampleReady()
    ensures var cfg, s := ExampleConfig(), ExampleStart(None);
            0 in cfg.builds && AllKnown(cfg, 0, s.db.version) && Prepared(cfg, s.db, 0) == {} && Accepts(cfg, 0, {})
  {
    ExampleBuilds();
    ExampleIsValid();
    NothingToRemap(ExampleConfig(), ExampleStart(None).db, 0);
  }

  /** A replica sets up a new database over a graph with a branch and a merge: all four revisions
      run once, parents first. */
  lemma ExampleRuns() returns (events: seq<Event>, t: State)
    ensures Runs(ExampleConfig(), ExampleStart(None), events, t) && 0 in t.pcs && t.pcs[0] == Left(Success({"d"}))
    ensures Lists(ExampleGraph(), {}, t.db.log) && Elements(t.db.log) == {"a", "b", "c", "d"}
  {
    ExampleInitial(None);
    InitialInv(ExampleConfig(), ExampleStart(None));
    ExampleReady();
    events, t := SoloReplicaReachesHead(ExampleConfig(), ExampleStart(None), 0);
    ExampleFinished(t);
  }

  lemma ExampleFinished(t: State)
    requires Finished(ExampleConfig(), ExampleStart(None), t, 0, Down(ExampleGraph(), {}))
    ensures 0 in t.pcs && t.pcs[0] == Left(Success({"d"}))
    ensures Lists(ExampleGraph(), {}, t.db.log) && Elements(t.db.log) == {"a", "b", "c", "d"}
  {
    DownOfNothing(ExampleGraph());
    assert t.db.log[0..] == t.db.log;
  }

  /** Over a legacy history up to `b` only `c` and `d` run: neither `a` nor `b` is executed again. */
  lemma ExampleStamps() returns (events: seq<Event>, t: State)
    ensures Runs(ExampleConfig(), ExampleStart(Some({"m1", "m2"})), events, t)
    ensures 0 in t.pcs && t.pcs[0] == Left(Success({"d"})) && Elements(t.db.log) == {"c", "d"}
  {
    var start := ExampleStart(Some({"m1", "m2"}));
    ExampleInitial(Some({"m1", "m2"}));
    ExampleLegacy();
    ExampleBuilds();
    events, t := SoloReplicaFinishesHistory(ExampleConfig(), start, 0, 2);
    ExampleDownB();
    ExampleElements(t.db.log);
    assert t.db.log[0..] == t.db.log;
  }

  lemma ExampleDownB()
    ensures Down(ExampleGraph(), {"b"}) == {"a", "b"}
  {
    var g := ExampleGraph();
    ExampleKnown();
    DownIsClosed(g, {"b"});
    assert "b" in {"b"} * g.parents.Keys;
    assert g.Parents("b") == {"a"} && "a" in g.Parents("b") && g.Parents("a") == {};
    DownIsLeast(g, {"b"}, {"a", "b"});
  }

  lemma ExampleElements(log: seq<Revision>)
    requires Lists(ExampleGraph(), {"a", "b"}, log) && {"a", "b"} + Elements(log) == {"a", "b", "c", "d"}
    ensures Elements(log) == {"c", "d"}
  {
    forall r | r in log ensures r !in {"a", "b"} {
      var i :| 0 <= i < |log| && log[i] == r;
    }
  }

  /** One replica crashes before the stamp, and the other one runs both legacy migrations again. */
  lemma ExampleReruns() returns (events: seq<Event>, t: State)
    ensures Runs(ExampleConfig(), ExampleStart(Some({"m1", "m2"})), events, t)
    ensures 1 in t.pcs && t.pcs[1] == Left(Success({"d"})) && "a" in t.db.log && "b" in t.db.log
  {
    ExampleInitial(Some({"m1", "m2"}));
    ExampleLegacy();
    HistoryIsLegacy(ExampleConfig(), ExampleStart(Some({"m1", "m2"})), 2);
    events, t := CrashRerunExists(ExampleConfig(), ExampleStart(Some({"m1", "m2"})), 0, 1, "b");
    ExampleDownB();
    assert "a" in Elements(t.db.log) && "b" in Elements(t.db.log);
  }
}
