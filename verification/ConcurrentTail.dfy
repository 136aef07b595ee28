/** Concurrent tail appends.  `sync_files` reads the stored offset outside the write lock,
    reads the file, and only then commits; nothing is re-checked.  Here several syncs of one
    growing file interleave those three steps freely, so the stored offset may even move
    backwards.  The rows stay complete up to the stored offset all the same. */
module ConcurrentTail {
  import opened JsonlTail
  import opened UsageIndex

  datatype Worker =
    | Idle
    | ReadState(start: nat)                 // has read the stored offset
    | ReadTail(start: nat, text: Bytes)     // has read the complete lines behind it

  datatype State = State(file: Bytes, offset: nat, rows: map<string, Entry>, workers: map<nat, Worker>)

  datatype Event =
    | Grow(more: Bytes)
    | LoadState(w: nat)
    | LoadTail(w: nat)
    | Commit(w: nat)

  predicate Enabled(s: State, e: Event) {
    match e
    case Grow(_) => true
    case LoadState(w) => w in s.workers && s.workers[w].Idle?
    case LoadTail(w) => w in s.workers && s.workers[w].ReadState? && s.workers[w].start <= |s.file|
    case Commit(w) => w in s.workers && s.workers[w].ReadTail?
  }

  function Apply(s: State, e: Event, parser: LineParser, version: nat): State
    requires Enabled(s, e)
  {
    match e
    case Grow(more) => s.(file := s.file + more)
    case LoadState(w) => s.(workers := s.workers[w := ReadState(s.offset)])
    case LoadTail(w) =>
      var start := s.workers[w].start;
      s.(workers := s.workers[w := ReadTail(start, CompletePrefix(s.file[start..]))])
    case Commit(w) =>
      var ReadTail(start, text) := s.workers[w];
      s.(rows := KeyedOnto(s.rows, EntriesOf(parser, version, text)), offset := start + |text|,
          workers := s.workers[w := Idle])
  }

  ghost predicate Runs(s: State, events: seq<Event>, t: State, parser: LineParser, version: nat)
    decreases |events|
  {
    if events == [] then s == t
    else Enabled(s, events[0]) && Runs(Apply(s, events[0], parser, version), events[1..], t, parser, version)
  }

  // ----- The invariant -----

  /** Every entry of the prefix has its row. */
  ghost predicate Covers(rows: map<string, Entry>, prefix: Bytes, parser: LineParser, version: nat) {
    forall e <- EntriesOf(parser, version, prefix) :: e.key in rows
  }

  /** Every row is an entry of the file's complete lines. */
  ghost predicate Within(rows: map<string, Entry>, file: Bytes, parser: LineParser, version: nat) {
    forall k :: k in rows ==> rows[k].key == k && rows[k] in EntriesOf(parser, version, CompletePrefix(file))
  }

  ghost predicate CoveredTo(s: State, n: nat, parser: LineParser, version: nat) {
    n <= |s.file| && Complete(s.file[..n]) && Covers(s.rows, s.file[..n], parser, version)
  }

  /** What a worker carries is a complete stretch of the file, and everything before it is
      already in the rows. */
  ghost predicate WorkerOk(s: State, worker: Worker, parser: LineParser, version: nat) {
    match worker
    case Idle => true
    case ReadState(start) => CoveredTo(s, start, parser, version)
    case ReadTail(start, text) =>
      && CoveredTo(s, start, parser, version)
      && start + |text| <= |s.file|
      && s.file[..start + |text|] == s.file[..start] + text
      && Complete(s.file[..start + |text|])
  }

  ghost predicate Inv(s: State, parser: LineParser, version: nat) {
    && CoveredTo(s, s.offset, parser, version)
    && Within(s.rows, s.file, parser, version)
    && (forall w :: w in s.workers ==> WorkerOk(s, s.workers[w], parser, version))
  }

  lemma EntriesConcat(parser: LineParser, version: nat, a: Bytes, b: Bytes)
    requires Complete(a)
    ensures EntriesOf(parser, version, a + b) == EntriesOf(parser, version, a) + EntriesOf(parser, version, b)
  {
    ScratchTail(parser, version, a, b);
  }

  lemma {:induction false} KeyedKeys(m: map<string, Entry>, entries: seq<Entry>)
    ensures forall k :: k in KeyedOnto(m, entries) <==> k in m || exists e <- entries :: e.key == k
    ensures forall k :: k in KeyedOnto(m, entries) ==>
              (k in m && KeyedOnto(m, entries)[k] == m[k]) ||
                  (KeyedOnto(m, entries)[k] in entries && KeyedOnto(m, entries)[k].key == k)
    decreases |entries|
  {
    if entries != [] {
      var init := entries[..|entries| - 1];
      assert entries == init + [entries[|entries| - 1]];
      KeyedKeys(m, init);
    }
  }

  /** Growing the file and adding rows keep whatever was covered, and every worker's claim. */
  lemma MoreKeepsWorker(s: State, s': State, worker: Worker, parser: LineParser, version: nat)
    requires s.file <= s'.file && s.rows.Keys <= s'.rows.Keys && WorkerOk(s, worker, parser, version)
    ensures WorkerOk(s', worker, parser, version)
  {
    if !worker.Idle? {
      assert s'.file[..worker.start] == s.file[..worker.start];
      if worker.ReadTail? {
        assert s'.file[..worker.start + |worker.text|] == s.file[..worker.start + |worker.text|];
      }
    }
  }

  lemma WorkersKeep(s: State, s': State, moved: set<nat>, parser: LineParser, version: nat)
    requires s.file <= s'.file && s.rows.Keys <= s'.rows.Keys && Inv(s, parser, version)
    requires s'.workers.Keys == s.workers.Keys && forall w :: w in s.workers && w !in moved ==>
               s'.workers[w] == s.workers[w]
    ensures forall w :: w in s'.workers && w !in moved ==> WorkerOk(s', s'.workers[w], parser, version)
  {
    forall w | w in s'.workers && w !in moved ensures WorkerOk(s', s'.workers[w], parser, version) {
      MoreKeepsWorker(s, s', s.workers[w], parser, version);
    }
  }

  lemma PrefixEntries(file: Bytes, n: nat, parser: LineParser, version: nat)
    requires n <= |file| && Complete(file[..n])
    ensures forall e <- EntriesOf(parser, version, file[..n]) :: e in EntriesOf(parser, version, CompletePrefix(file))
  {
    CompleteLengthFrom(file, n);
    var whole := CompletePrefix(file);
    assert whole == file[..n] + whole[n..];
    EntriesConcat(parser, version, file[..n], whole[n..]);
  }

  lemma GrowWithin(s: State, more: Bytes, parser: LineParser, version: nat)
    requires Within(s.rows, s.file, parser, version)
    ensures Within(s.rows, s.file + more, parser, version)
  {
    var n := CompleteLength(s.file);
    assert (s.file + more)[..n] == CompletePrefix(s.file);
    PrefixEntries(s.file + more, n, parser, version);
  }

  /** A commit covers the prefix up to the end of what it read. */
  lemma CommitCovers(rows: map<string, Entry>, prefix: Bytes, text: Bytes, whole: Bytes, parser: LineParser,
                     version: nat)
    requires Complete(prefix) && whole == prefix + text && Covers(rows, prefix, parser, version)
    ensures rows.Keys <= KeyedOnto(rows, EntriesOf(parser, version, text)).Keys
    ensures Covers(KeyedOnto(rows, EntriesOf(parser, version, text)), whole, parser, version)
  {
    KeyedKeys(rows, EntriesOf(parser, version, text));
    EntriesConcat(parser, version, prefix, text);
  }

  /** A commit adds nothing from outside the file. */
  lemma CommitWithin(rows: map<string, Entry>, file: Bytes, start: nat, text: Bytes, parser: LineParser, version: nat)
    requires Within(rows, file, parser, version)
    requires start + |text| <= |file| && file[..start + |text|] == file[..start] + text
    requires Complete(file[..start]) && Complete(file[..start + |text|])
    ensures Within(KeyedOnto(rows, EntriesOf(parser, version, text)), file, parser, version)
  {
    var entries := EntriesOf(parser, version, text);
    KeyedKeys(rows, entries);
    EntriesConcat(parser, version, file[..start], text);
    PrefixEntries(file, start + |text|, parser, version);
    forall e <- entries ensures e in EntriesOf(parser, version, CompletePrefix(file)) {
      assert e in EntriesOf(parser, version, file[..start] + text);
    }
  }

  lemma LoadTailOk(s: State, start: nat, parser: LineParser, version: nat)
    requires CoveredTo(s, start, parser, version)
    ensures WorkerOk(s, ReadTail(start, CompletePrefix(s.file[start..])), parser, version)
  {
    CompleteLengthFrom(s.file, start);
    var end := start + CompleteLength(s.file[start..]);
    assert s.file[..end] == s.file[..start] + CompletePrefix(s.file[start..]);
    assert s.file[..end] == CompletePrefix(s.file);
  }

  /** The invariant, once the offset, the rows and the moved workers have been dealt with. */
  lemma Assemble(s: State, s': State, moved: set<nat>, parser: LineParser, version: nat)
    requires s.file <= s'.file && s.rows.Keys <= s'.rows.Keys && Inv(s, parser, version)
    requires s'.workers.Keys == s.workers.Keys && forall w :: w in s.workers && w !in moved ==>
               s'.workers[w] == s.workers[w]
    requires forall w <- moved :: w in s'.workers && WorkerOk(s', s'.workers[w], parser, version)
    requires WorkerOk(s', ReadState(s'.offset), parser, version) && Within(s'.rows, s'.file, parser, version)
    ensures Inv(s', parser, version)
  {
    WorkersKeep(s, s', moved, parser, version);
  }

  lemma GrowStep(s: State, more: Bytes, parser: LineParser, version: nat)
    requires Inv(s, parser, version)
    ensures Inv(Apply(s, Grow(more), parser, version), parser, version)
  {
    var s' := Apply(s, Grow(more), parser, version);
    GrowWithin(s, more, parser, version);
    MoreKeepsWorker(s, s', ReadState(s.offset), parser, version);
    Assemble(s, s', {}, parser, version);
  }

  lemma LoadStateStep(s: State, w: nat, parser: LineParser, version: nat)
    requires Inv(s, parser, version) && Enabled(s, LoadState(w))
    ensures Inv(Apply(s, LoadState(w), parser, version), parser, version)
  {
    var s' := Apply(s, LoadState(w), parser, version);
    MoreKeepsWorker(s, s', ReadState(s.offset), parser, version);
    Assemble(s, s', {w}, parser, version);
  }

  lemma LoadTailStep(s: State, w: nat, parser: LineParser, version: nat)
    requires Inv(s, parser, version) && Enabled(s, LoadTail(w))
    ensures Inv(Apply(s, LoadTail(w), parser, version), parser, version)
  {
    var s' := Apply(s, LoadTail(w), parser, version);
    LoadTailOk(s, s.workers[w].start, parser, version);
    MoreKeepsWorker(s, s', s'.workers[w], parser, version);
    MoreKeepsWorker(s, s', ReadState(s.offset), parser, version);
    Assemble(s, s', {w}, parser, version);
  }

  /** The rows cover the prefix up to `end` and hold nothing from outside the file. */
  ghost predicate CommitReady(s: State, rows: map<string, Entry>, end: nat, parser: LineParser, version: nat) {
    && end <= |s.file| && Complete(s.file[..end]) && Covers(rows, s.file[..end], parser, version)
    && Within(rows, s.file, parser, version)
  }

  /** Any larger rows that cover the prefix up to the new offset will do. */
  lemma CommitMoves(s: State, w: nat, rows: map<string, Entry>, end: nat, parser: LineParser, version: nat)
    requires Inv(s, parser, version) && w in s.workers && s.rows.Keys <= rows.Keys
    requires CommitReady(s, rows, end, parser, version)
    ensures Inv(s.(rows := rows, offset := end, workers := s.workers[w := Idle]), parser, version)
  {
    Assemble(s, s.(rows := rows, offset := end, workers := s.workers[w := Idle]), {w}, parser, version);
  }

  /** What a worker that has read a tail can rely on. */
  lemma TailInHand(s: State, w: nat, parser: LineParser, version: nat)
    requires Inv(s, parser, version) && w in s.workers && s.workers[w].ReadTail?
    ensures var ReadTail(start, text) := s.workers[w];
            && start + |text| <= |s.file| && s.file[..start + |text|] == s.file[..start] + text
            && Complete(s.file[..start]) && Complete(s.file[..start + |text|])
            && Covers(s.rows, s.file[..start], parser, version)
  {
    assert WorkerOk(s, s.workers[w], parser, version);
  }

  /** What a commit leaves behind. */
  lemma CommitResult(s: State, w: nat, parser: LineParser, version: nat) returns (rows: map<string, Entry>, end: nat)
    requires Inv(s, parser, version) && Enabled(s, Commit(w))
    ensures Apply(s, Commit(w), parser, version) == s.(rows := rows, offset := end, workers := s.workers[w := Idle])
    ensures s.rows.Keys <= rows.Keys && CommitReady(s, rows, end, parser, version)
  {
    var ReadTail(start, text) := s.workers[w];
    rows, end := KeyedOnto(s.rows, EntriesOf(parser, version, text)), start + |text|;
    TailInHand(s, w, parser, version);
    CommitCovers(s.rows, s.file[..start], text, s.file[..end], parser, version);
    CommitWithin(s.rows, s.file, start, text, parser, version);
  }

  lemma CommitStep(s: State, w: nat, parser: LineParser, version: nat)
    requires Inv(s, parser, version) && Enabled(s, Commit(w))
    ensures Inv(Apply(s, Commit(w), parser, version), parser, version)
  {
    var rows, end := CommitResult(s, w, parser, version);
    CommitMoves(s, w, rows, end, parser, version);
  }

  lemma StepKeeps(s: State, e: Event, parser: LineParser, version: nat)
    requires Inv(s, parser, version) && Enabled(s, e)
    ensures Inv(Apply(s, e, parser, version), parser, version)
  {
    match e
    case Grow(more) => GrowStep(s, more, parser, version);
    case LoadState(w) => LoadStateStep(s, w, parser, version);
    case LoadTail(w) => LoadTailStep(s, w, parser, version);
    case Commit(w) => CommitStep(s, w, parser, version);
  }

  /** A store at rest: no sync under way, rows complete up to the offset. */
  ghost predicate AtRest(s: State, parser: LineParser, version: nat) {
    && (forall w :: w in s.workers ==> s.workers[w].Idle?)
    && CoveredTo(s, s.offset, parser, version)
    && Within(s.rows, s.file, parser, version)
  }

  lemma {:induction false} RunKeeps(s: State, events: seq<Event>, t: State, parser: LineParser, version: nat)
    requires Inv(s, parser, version) && Runs(s, events, t, parser, version)
    ensures Inv(t, parser, version)
    decreases |events|
  {
    if events != [] {
      StepKeeps(s, events[0], parser, version);
      RunKeeps(Apply(s, events[0], parser, version), events[1..], t, parser, version);
    }
  }

  /** Even after the stored offset has moved back, one undisturbed sync brings the index to the end
      of the file's complete lines again. */
  lemma OneSyncRecovers(s: State, w: nat, parser: LineParser, version: nat) returns (t: State)
    requires Inv(s, parser, version) && w in s.workers && s.workers[w].Idle?
    ensures Runs(s, [LoadState(w), LoadTail(w), Commit(w)], t, parser, version) && Inv(t, parser, version)
    ensures t.file == s.file && t.offset == CompleteLength(s.file)
    ensures Covers(t.rows, CompletePrefix(t.file), parser, version)
  {
    var s1 := Apply(s, LoadState(w), parser, version);
    LoadStateStep(s, w, parser, version);
    var s2 := Apply(s1, LoadTail(w), parser, version);
    LoadTailStep(s1, w, parser, version);
    t := Apply(s2, Commit(w), parser, version);
    CommitStep(s2, w, parser, version);
    CompleteLengthFrom(s.file, s.offset);
    ThreeSteps(s, LoadState(w), s1, LoadTail(w), s2, Commit(w), t, parser, version);
  }

  lemma ThreeSteps(s: State, e0: Event, s1: State, e1: Event, s2: State, e2: Event, t: State,
                   parser: LineParser, version: nat)
    requires Enabled(s, e0) && s1 == Apply(s, e0, parser, version)
    requires Enabled(s1, e1) && s2 == Apply(s1, e1, parser, version)
    requires Enabled(s2, e2) && t == Apply(s2, e2, parser, version)
    ensures Runs(s, [e0, e1, e2], t, parser, version)
  {
    assert [e0, e1, e2][1..] == [e1, e2] && [e1, e2][1..] == [e2] && [e2][1..] == [];
    assert Runs(s2, [e2], t, parser, version);
    assert Runs(s1, [e1, e2], t, parser, version);
  }

  /** Whatever the interleaving, the rows hold every entry up to the stored offset and nothing
      that is not in the file; where keys identify entries they hold those very entries. */
  lemma TailAppendsStayComplete(s: State, events: seq<Event>, t: State, parser: LineParser, version: nat)
    requires AtRest(s, parser, version) && Runs(s, events, t, parser, version)
    ensures t.offset <= |t.file| && Covers(t.rows, t.file[..t.offset], parser, version)
    ensures Within(t.rows, t.file, parser, version)
    ensures (forall a <- EntriesOf(parser, version, CompletePrefix(t.file)),
              b <- EntriesOf(parser, version, CompletePrefix(t.file)) ::
               a.key == b.key ==> a == b) ==>
            forall e <- EntriesOf(parser, version, t.file[..t.offset]) :: e.key in t.rows && t.rows[e.key] == e
  {
    RunKeeps(s, events, t, parser, version);
    PrefixEntries(t.file, t.offset, parser, version);
  }
}
