/** The incremental usage index of `usage_store.py`.  `SyncFiles` keeps three tables in step
    with growing JSONL logs by signatures, tail reads, missing flags and upserts.  Its
    specification knows none of those: it says that the index holds, for every file it
    still tracks, a from-scratch parse of the file's complete lines. */
module UsageIndex {
  import opened JsonlTail

  type Path = string

  /** A parsed usage entry; `body` stands for its model, tokens and cost. */
  datatype Entry = Entry(source: string, key: string, timestamp: int, body: int)

  /** A line parser of a given version (parser code plus pricing). */
  type LineParser = (nat, Bytes) -> seq<Entry>

  /** `_entry_for_storage`: entries without a positive timestamp are dropped. */
  function ForStorage(entries: seq<Entry>): seq<Entry> {
    if entries == [] then []
    else (if entries[0].timestamp > 0 then [entries[0]] else []) + ForStorage(entries[1..])
  }

  lemma {:induction false} ForStorageConcat(a: seq<Entry>, b: seq<Entry>)
    ensures ForStorage(a + b) == ForStorage(a) + ForStorage(b)
  {
    if a == [] {
      assert a + b == b;
    } else {
      assert (a + b)[1..] == a[1..] + b;
      ForStorageConcat(a[1..], b);
    }
  }

  // ----- Tables -----

  datatype RowKey = RowKey(source: string, key: string)
  datatype Row = Row(path: Path, entry: Entry)
  datatype FileKey = FileKey(source: string, path: Path)
  datatype FileSig = FileSig(path: Path, mtime: int, size: nat)
  datatype Signature = Signature(files: seq<FileSig>, version: nat)
  datatype FileState = FileState(mtime: int, size: nat, safeOffset: nat, missing: bool, signature: Signature,
      entryCount: nat)
  datatype SourceState = SourceState(signature: Signature, entryCount: nat)

  type Rows = map<RowKey, Row>
  type FileTable = map<FileKey, FileState>
  type SourceTable = map<string, SourceState>

  ghost predicate DistinctPaths(files: seq<FileSig>) {
    forall i, j :: 0 <= i < j < |files| ==> files[i].path != files[j].path
  }

  datatype DiskFile = DiskFile(mtime: int, data: Bytes)
  {
    function Sig(path: Path): FileSig { FileSig(path, mtime, |data|) }
  }

  /** One call of `sync_files`: the listed files with their content on disk, the parser and
      pricing version, the durable flag, and the paths whose tail parse does not raise. */
  datatype SyncCall = SyncCall(source: string, files: seq<FileSig>, disk: map<Path, DiskFile>, version: nat,
                               durable: bool, tailPaths: set<Path>)
  {
    ghost predicate WellFormed() {
      && (forall f <- files :: f.path in disk && f == disk[f.path].Sig(f.path))
      && DistinctPaths(files)
    }

    ghost predicate Lists(fk: FileKey) {
      fk.source == source && exists f <- files :: f.path == fk.path
    }
  }

  // ----- Specification: parse every file from scratch -----

  /** What the index should know of a file: the complete lines it last saw, the version they
      were parsed with, the modification time it had, and whether it is gone. */
  datatype Known = Known(data: Bytes, version: nat, mtime: int, missing: bool)
  type Knowledge = map<FileKey, Known>

  /** Later entries replace earlier ones with the same key. */
  function KeyedOnto(m: map<string, Entry>, entries: seq<Entry>): map<string, Entry> {
    if entries == [] then m
    else
      var last := entries[|entries| - 1];
      KeyedOnto(m, entries[..|entries| - 1])[last.key := last]
  }

  function EntriesOf(parser: LineParser, version: nat, data: Bytes): seq<Entry> {
    ForStorage(Parse(parser, version, data))
  }

  /** A parse from scratch. */
  function ScratchOf(parser: LineParser, version: nat, data: Bytes): map<string, Entry> {
    KeyedOnto(map[], EntriesOf(parser, version, data))
  }

  /** A from-scratch parse of a file. */
  function Scratch(parser: LineParser, k: Known): map<string, Entry> {
    ScratchOf(parser, k.version, k.data)
  }

  /** What a listed file is known as after the sync. */
  ghost function Target(call: SyncCall, path: Path): Known
    requires path in call.disk
  {
    Known(CompletePrefix(call.disk[path].data), call.version, call.disk[path].mtime, false)
  }

  /** After a sync every listed file is known up to its last newline; of the source's other
      files, a durable sync remembers what was last seen and a strict sync forgets all. */
  ghost function AfterSync(known: Knowledge, call: SyncCall): Knowledge
    requires call.WellFormed()
  {
    var listed := set f <- call.files :: FileKey(call.source, f.path);
    map fk | fk in known.Keys + listed && (fk in listed || fk.source != call.source || call.durable) ::
      if fk in listed then Target(call, fk.path)
      else if fk.source == call.source then known[fk].(missing := true)
      else known[fk]
  }

  /** The environment's part: a file the index still follows has only grown; a file about to be
      parsed in full ends in a newline; keys belong to one file of the source. */
  ghost predicate Environment(known: Knowledge, call: SyncCall, parser: LineParser, owner: (string, string) -> Path) {
    && call.WellFormed()
    && (forall f <- call.files ::
          var fk := FileKey(call.source, f.path);
          && (fk in known && !known[fk].missing ==> known[fk].data <= call.disk[f.path].data)
          && (fk !in known || known[fk].missing || known[fk].version != call.version || f.path !in call.tailPaths ==>
                Complete(call.disk[f.path].data))
          && OwnedBy(owner, fk, EntriesOf(parser, call.version, CompletePrefix(call.disk[f.path].data))))
  }

  ghost predicate OwnedBy(owner: (string, string) -> Path, fk: FileKey, entries: seq<Entry>) {
    forall e <- entries :: e.source == fk.source && owner(fk.source, e.key) == fk.path
  }

  // ----- The tables mirror the specification -----

  ghost predicate FileRowsAre(rows: Rows, fk: FileKey, m: map<string, Entry>) {
    && (forall k :: k in m ==> RowKey(fk.source, k) in rows && rows[RowKey(fk.source, k)] == Row(fk.path, m[k]))
    && (forall rk :: rk in rows && rk.source == fk.source && rows[rk].path == fk.path ==> rk.key in m)
  }

  ghost predicate Tracks(state: FileState, path: Path, k: Known) {
    && state.size == state.safeOffset == |k.data|
    && state.mtime == k.mtime && state.missing == k.missing
    && state.signature == Signature([FileSig(path, state.mtime, state.size)], k.version)
  }

  ghost predicate RowsOwned(rows: Rows, owner: (string, string) -> Path) {
    forall rk :: rk in rows ==> rows[rk].path == owner(rk.source, rk.key)
  }

  ghost predicate RowsMirror(rows: Rows, known: Knowledge, parser: LineParser, owner: (string, string) -> Path) {
    && (forall fk :: fk in known ==> FileRowsAre(rows, fk, Scratch(parser, known[fk])))
    && (forall rk :: rk in rows ==> FileKey(rk.source, rows[rk].path) in known)
    && RowsOwned(rows, owner)
  }

  ghost predicate FilesMirror(files: FileTable, known: Knowledge) {
    && files.Keys == known.Keys
    && (forall fk :: fk in known ==> Tracks(files[fk], fk.path, known[fk]) && Complete(known[fk].data))
  }

  function RowsOfFile(rows: Rows, fk: FileKey): set<RowKey> {
    set rk | rk in rows && rk.source == fk.source && rows[rk].path == fk.path
  }

  function RowsOfSource(rows: Rows, source: string): set<RowKey> {
    set rk | rk in rows && rk.source == source
  }

  /** Every stored counter is the true number of rows. */
  ghost predicate Counted(rows: Rows, files: FileTable, sources: SourceTable) {
    && (forall fk :: fk in files ==> files[fk].entryCount == |RowsOfFile(rows, fk)|)
    && (forall rk :: rk in rows ==> rk.source in sources)
    && (forall s :: s in sources ==> sources[s].entryCount == |RowsOfSource(rows, s)|)
  }

  // ----- Upserts -----

  function Upserted(rows: Rows, path: Path, entries: seq<Entry>): Rows {
    if entries == [] then rows
    else
      var last := entries[|entries| - 1];
      Upserted(rows, path, entries[..|entries| - 1])[RowKey(last.source, last.key) := Row(path, last)]
  }

  /** Of several entries with one key the last one counts. */
  lemma {:induction false} LastEntryCounts(m: map<string, Entry>, entries: seq<Entry>, i: nat)
    requires i < |entries| && forall j :: i < j < |entries| ==> entries[j].key != entries[i].key
    ensures entries[i].key in KeyedOnto(m, entries) && KeyedOnto(m, entries)[entries[i].key] == entries[i]
    decreases |entries|
  {
    if i < |entries| - 1 {
      var init := entries[..|entries| - 1];
      assert entries[|entries| - 1].key != entries[i].key;
      LastEntryCounts(m, init, i);
    }
  }

  lemma {:induction false} KeyedConcat(m: map<string, Entry>, a: seq<Entry>, b: seq<Entry>)
    ensures KeyedOnto(m, a + b) == KeyedOnto(KeyedOnto(m, a), b)
    decreases |b|
  {
    if b == [] {
      assert a + b == a;
    } else {
      var init := b[..|b| - 1];
      assert (a + b)[..|a + b| - 1] == a + init;
      KeyedConcat(m, a, init);
    }
  }

  /** Appending the rows of a tail to the rows of a complete prefix gives the rows of the whole. */
  lemma ScratchTail(parser: LineParser, version: nat, data: Bytes, tail: Bytes)
    requires Complete(data)
    ensures ScratchOf(parser, version, data + tail) ==
            KeyedOnto(ScratchOf(parser, version, data), EntriesOf(parser, version, tail))
    ensures EntriesOf(parser, version, data + tail) ==
            EntriesOf(parser, version, data) + EntriesOf(parser, version, tail)
  {
    ParseConcat(parser, version, data, tail);
    ForStorageConcat(Parse(parser, version, data), Parse(parser, version, tail));
    KeyedConcat(map[], EntriesOf(parser, version, data), EntriesOf(parser, version, tail));
  }

  /** The rows of all other files are the same. */
  ghost predicate SameButFile(rows: Rows, rows': Rows, fk: FileKey) {
    && (forall rk :: rk in rows' && (rk.source != fk.source || rows'[rk].path != fk.path) ==>
        rk in rows && rows[rk] == rows'[rk])
    && (forall rk :: rk in rows && (rk.source != fk.source || rows[rk].path != fk.path) ==>
        rk in rows' && rows[rk] == rows'[rk])
  }

  lemma UpsertOne(rows: Rows, rows': Rows, fk: FileKey, m: map<string, Entry>, e: Entry,
                  owner: (string, string) -> Path)
    requires RowsOwned(rows', owner) && FileRowsAre(rows', fk, m) && SameButFile(rows, rows', fk) &&
               RowsOwned(rows, owner)
    requires e.source == fk.source && owner(fk.source, e.key) == fk.path
    ensures var upserted := rows'[RowKey(e.source, e.key) := Row(fk.path, e)];
            RowsOwned(upserted, owner) && FileRowsAre(upserted, fk, m[e.key := e]) && SameButFile(rows, upserted, fk)
  {
  }

  /** Upserting entries of one file changes that file's rows as `KeyedOnto` says and no others. */
  lemma {:induction false} UpsertRows(rows: Rows, fk: FileKey, m: map<string, Entry>, entries: seq<Entry>,
                                      owner: (string, string) -> Path)
    requires RowsOwned(rows, owner) && FileRowsAre(rows, fk, m) && OwnedBy(owner, fk, entries)
    ensures RowsOwned(Upserted(rows, fk.path, entries), owner)
    ensures FileRowsAre(Upserted(rows, fk.path, entries), fk, KeyedOnto(m, entries))
    ensures SameButFile(rows, Upserted(rows, fk.path, entries), fk)
    decreases |entries|
  {
    if entries != [] {
      var init, last := entries[..|entries| - 1], entries[|entries| - 1];
      assert forall e <- init :: e in entries;
      UpsertRows(rows, fk, m, init, owner);
      assert last in entries;
      UpsertOne(rows, Upserted(rows, fk.path, init), fk, KeyedOnto(m, init), last, owner);
    }
  }

  // ----- Steps of a sync, on the specification -----

  datatype ParsedFile = ParsedFile(sig: FileSig, entries: seq<Entry>, safeOffset: nat, appended: bool)

  /** The index already knows what the sync would make it know. */
  ghost predicate Current(known: Knowledge, call: SyncCall, f: FileSig)
    requires f.path in call.disk
  {
    FileKey(call.source, f.path) in known && known[FileKey(call.source, f.path)] == Target(call, f.path)
  }

  /** Committing `p` turns the rows known before into a from-scratch parse of the target. */
  ghost predicate Prepared(p: ParsedFile, call: SyncCall, known: Knowledge, parser: LineParser,
                           owner: (string, string) -> Path)
    requires p.sig.path in call.disk
  {
    var fk, k := FileKey(call.source, p.sig.path), Target(call, p.sig.path);
    && p.safeOffset == |k.data| && p.sig.mtime == k.mtime
    && OwnedBy(owner, fk, p.entries)
    && (p.appended ==> fk in known)
    && Scratch(parser, k) == KeyedOnto(if p.appended then Scratch(parser, known[fk]) else map[], p.entries)
  }

  /** Removal: durable marks the files missing, strict drops them. */
  ghost function Forget(known: Knowledge, removed: set<FileKey>, durable: bool): Knowledge {
    map fk | fk in known && (durable || fk !in removed) ::
      if fk in removed then known[fk].(missing := true) else known[fk]
  }

  lemma CompletePrefixOfComplete(data: Bytes)
    requires Complete(data)
    ensures CompletePrefix(data) == data
  {
    CompleteLengthIs(data, |data|);
  }

  /** A file whose stored signature is current needs no work. */
  lemma UnchangedIsCurrent(known: Knowledge, call: SyncCall, f: FileSig, state: FileState, parser: LineParser,
                           owner: (string, string) -> Path)
    requires Environment(known, call, parser, owner) && f in call.files
    requires FileKey(call.source, f.path) in known && Complete(known[FileKey(call.source, f.path)].data)
    requires Tracks(state, f.path, known[FileKey(call.source, f.path)])
    requires state.signature == Signature([f], call.version) && !state.missing
    ensures Current(known, call, f)
  {
    var k := known[FileKey(call.source, f.path)];
    assert [f][0] == [FileSig(f.path, state.mtime, state.size)][0];
    assert k.data == call.disk[f.path].data;
    CompletePrefixOfComplete(k.data);
  }

  lemma FullParsePrepared(known: Knowledge, call: SyncCall, f: FileSig, parser: LineParser,
                          owner: (string, string) -> Path)
    requires Environment(known, call, parser, owner) && f in call.files && Complete(call.disk[f.path].data)
    ensures var entries := EntriesOf(parser, call.version, call.disk[f.path].data);
            Prepared(ParsedFile(f, entries, f.size, false), call, known, parser, owner)
  {
    CompletePrefixOfComplete(call.disk[f.path].data);
  }

  lemma TailParsePrepared(known: Knowledge, call: SyncCall, f: FileSig, text: Bytes, parser: LineParser,
                          owner: (string, string) -> Path)
    requires Environment(known, call, parser, owner) && f in call.files
    requires FileKey(call.source, f.path) in known && !known[FileKey(call.source, f.path)].missing
    requires known[FileKey(call.source, f.path)].version == call.version &&
               Complete(known[FileKey(call.source, f.path)].data)
    requires text == CompletePrefix(call.disk[f.path].data[|known[FileKey(call.source, f.path)].data|..])
    ensures Prepared(ParsedFile(f, EntriesOf(parser, call.version, text),
              |known[FileKey(call.source, f.path)].data| + |text|, true), call, known, parser, owner)
  {
    var k, data := known[FileKey(call.source, f.path)], call.disk[f.path].data;
    assert data[..|k.data|] == k.data;
    CompleteLengthFrom(data, |k.data|);
    assert k.data + text == CompletePrefix(data);
    ScratchTail(parser, k.version, k.data, text);
    assert Target(call, f.path) == k.(data := k.data + text, mtime := f.mtime);
    var all := EntriesOf(parser, call.version, CompletePrefix(data));
    assert forall e <- EntriesOf(parser, call.version, text) :: e in all;
  }

  /** The size up to which a stored state vouches for the file. */
  function StoredSize(state: FileState): nat {
    if state.size != 0 then state.size else state.safeOffset
  }

  /** The file has grown behind a prefix whose signature is still the stored one. */
  predicate Appends(files: FileTable, f: FileSig, call: SyncCall) {
    var fk := FileKey(call.source, f.path);
    && f.path in call.tailPaths && fk in files && !files[fk].missing && f.size > StoredSize(files[fk])
    && files[fk].signature == Signature([FileSig(f.path, files[fk].mtime, StoredSize(files[fk]))], call.version)
  }

  /** What parsing a changed file yields: its tail if it appends, otherwise all of it. */
  function ParsedOf(files: FileTable, f: FileSig, call: SyncCall, parser: LineParser): ParsedFile
    requires f.path in call.disk
  {
    var data := call.disk[f.path].data;
    if Appends(files, f, call) then
      var start := StoredSize(files[FileKey(call.source, f.path)]);
      var text := if start <= |data| then CompletePrefix(data[start..]) else [];
      ParsedFile(f, EntriesOf(parser, call.version, text), start + |text|, true)
    else
      ParsedFile(f, EntriesOf(parser, call.version, data), f.size, false)
  }

  /** Either way of parsing prepares the file. */
  lemma ParsedIsPrepared(files: FileTable, f: FileSig, call: SyncCall, known: Knowledge, parser: LineParser,
                         owner: (string, string) -> Path)
    requires FilesMirror(files, known) && Environment(known, call, parser, owner) && f in call.files
    ensures Prepared(ParsedOf(files, f, call, parser), call, known, parser, owner)
  {
    var fk, data := FileKey(call.source, f.path), call.disk[f.path].data;
    if Appends(files, f, call) {
      TailParsePrepared(known, call, f, CompletePrefix(data[|known[fk].data|..]), parser, owner);
    } else {
      assert Complete(data) by {
        if fk in known && !known[fk].missing && known[fk].version == call.version && f.path in call.tailPaths {
          assert known[fk].data == data;
        }
      }
      FullParsePrepared(known, call, f, parser, owner);
    }
  }

  function RemoveRows(rows: Rows, removed: set<FileKey>, durable: bool): Rows {
    map rk | rk in rows && (durable || FileKey(rk.source, rows[rk].path) !in removed) :: rows[rk]
  }

  function RemoveFiles(files: FileTable, removed: set<FileKey>, durable: bool): FileTable {
    map fk | fk in files && (durable || fk !in removed) ::
      if fk in removed then files[fk].(missing := true) else files[fk]
  }

  lemma RemoveRowsMirror(rows: Rows, known: Knowledge, removed: set<FileKey>, durable: bool, parser: LineParser,
                         owner: (string, string) -> Path)
    requires RowsMirror(rows, known, parser, owner)
    ensures RowsMirror(RemoveRows(rows, removed, durable), Forget(known, removed, durable), parser, owner)
  {
    var rows', known' := RemoveRows(rows, removed, durable), Forget(known, removed, durable);
    forall fk | fk in known' ensures FileRowsAre(rows', fk, Scratch(parser, known'[fk])) {
      assert Scratch(parser, known'[fk]) == Scratch(parser, known[fk]);
      RemoveKeepsFile(rows, removed, durable, fk, Scratch(parser, known[fk]));
    }
  }

  lemma RemoveKeepsFile(rows: Rows, removed: set<FileKey>, durable: bool, fk: FileKey, m: map<string, Entry>)
    requires FileRowsAre(rows, fk, m) && (durable || fk !in removed)
    ensures FileRowsAre(RemoveRows(rows, removed, durable), fk, m)
  {
  }

  lemma RemoveFilesMirror(files: FileTable, known: Knowledge, removed: set<FileKey>, durable: bool)
    requires FilesMirror(files, known)
    ensures FilesMirror(RemoveFiles(files, removed, durable), Forget(known, removed, durable))
  {
  }

  /** Replacing one file's rows, and nothing else, moves the mirror to the file's new content. */
  lemma ReplaceMirrors(rows: Rows, rows': Rows, known: Knowledge, fk: FileKey, k: Known, parser: LineParser,
                       owner: (string, string) -> Path)
    requires RowsMirror(rows, known, parser, owner)
    requires FileRowsAre(rows', fk, Scratch(parser, k)) && RowsOwned(rows', owner)
    requires SameButFile(rows, rows', fk)
    ensures RowsMirror(rows', known[fk := k], parser, owner)
  {
    var known' := known[fk := k];
    forall g | g in known' ensures FileRowsAre(rows', g, Scratch(parser, known'[g])) {
      if g != fk {
        assert FileRowsAre(rows, g, Scratch(parser, known[g]));
      }
    }
  }

  function CommittedRows(rows: Rows, fk: FileKey, p: ParsedFile): Rows {
    Upserted(if p.appended then rows else rows - RowsOfFile(rows, fk), fk.path, p.entries)
  }

  function CommittedState(p: ParsedFile, version: nat): FileState {
    FileState(p.sig.mtime, p.safeOffset, p.safeOffset, false,
              Signature([FileSig(p.sig.path, p.sig.mtime, p.safeOffset)], version), |p.entries|)
  }

  lemma CommitRowsMirror(rows: Rows, p: ParsedFile, call: SyncCall, known: Knowledge, parser: LineParser,
                         owner: (string, string) -> Path)
    requires RowsMirror(rows, known, parser, owner)
    requires p.sig.path in call.disk && Prepared(p, call, known, parser, owner)
    ensures RowsMirror(CommittedRows(rows, FileKey(call.source, p.sig.path), p),
                       known[FileKey(call.source, p.sig.path) := Target(call, p.sig.path)], parser, owner)
  {
    var fk := FileKey(call.source, p.sig.path);
    var base := if p.appended then Scratch(parser, known[fk]) else map[];
    var cleared := if p.appended then rows else rows - RowsOfFile(rows, fk);
    assert FileRowsAre(cleared, fk, base);
    UpsertRows(cleared, fk, base, p.entries, owner);
    assert SameButFile(rows, CommittedRows(rows, fk, p), fk);
    ReplaceMirrors(rows, CommittedRows(rows, fk, p), known, fk, Target(call, p.sig.path), parser, owner);
  }

  lemma CommitFilesMirror(files: FileTable, p: ParsedFile, call: SyncCall, known: Knowledge)
    requires FilesMirror(files, known) && p.sig.path in call.disk
    requires p.safeOffset == |Target(call, p.sig.path).data| && p.sig.mtime == Target(call, p.sig.path).mtime
    ensures FilesMirror(files[FileKey(call.source, p.sig.path) := CommittedState(p, call.version)],
                        known[FileKey(call.source, p.sig.path) := Target(call, p.sig.path)])
  {
  }

  /** The rows of every other source are as they were. */
  ghost predicate SameElsewhere(rows: Rows, rows': Rows, source: string) {
    forall rk: RowKey :: rk.source != source ==> (rk in rows <==> rk in rows') && (rk in rows ==> rows[rk] == rows'[rk])
  }

  ghost predicate SameFilesElsewhere(files: FileTable, files': FileTable, source: string) {
    forall fk: FileKey :: fk.source != source ==>
      (fk in files <==> fk in files') && (fk in files ==> files[fk] == files'[fk])
  }

  lemma {:induction false} UpsertedElsewhere(rows: Rows, path: Path, entries: seq<Entry>, source: string)
    requires forall e <- entries :: e.source == source
    ensures SameElsewhere(rows, Upserted(rows, path, entries), source)
  {
    if entries != [] {
      var init := entries[..|entries| - 1];
      assert forall e <- init :: e in entries;
      UpsertedElsewhere(rows, path, init, source);
      assert entries[|entries| - 1] in entries;
    }
  }

  lemma CommittedElsewhere(rows: Rows, fk: FileKey, p: ParsedFile)
    requires forall e <- p.entries :: e.source == fk.source
    ensures SameElsewhere(rows, CommittedRows(rows, fk, p), fk.source)
  {
    var cleared := if p.appended then rows else rows - RowsOfFile(rows, fk);
    assert SameElsewhere(rows, cleared, fk.source);
    UpsertedElsewhere(cleared, fk.path, p.entries, fk.source);
  }

  function Keys(source: string, files: seq<FileSig>): set<FileKey> {
    set f <- files :: FileKey(source, f.path)
  }

  /** The knowledge once `files` have been committed. */
  ghost function Committed(known: Knowledge, call: SyncCall, files: seq<FileSig>): Knowledge
    requires forall f <- files :: f.path in call.disk
  {
    map fk | fk in known.Keys + Keys(call.source, files) ::
      if fk in Keys(call.source, files) then Target(call, fk.path) else known[fk]
  }

  lemma CommittedStep(known: Knowledge, call: SyncCall, files: seq<FileSig>, n: nat)
    requires n < |files| && forall f <- files :: f.path in call.disk
    ensures forall f <- files[..n + 1] :: f.path in call.disk
    ensures Committed(known, call, files[..n + 1]) ==
            Committed(known, call, files[..n])[FileKey(call.source, files[n].path) := Target(call, files[n].path)]
  {
    assert files[..n + 1] == files[..n] + [files[n]];
    assert Keys(call.source, files[..n + 1]) == Keys(call.source, files[..n]) + {FileKey(call.source, files[n].path)};
  }

  /** No current signature, or marked missing. */
  predicate IsStale(files: FileTable, call: SyncCall, f: FileSig) {
    var fk := FileKey(call.source, f.path);
    fk !in files || files[fk].signature != Signature([f], call.version) || files[fk].missing
  }

  function StaleFiles(files: FileTable, call: SyncCall, n: nat): seq<FileSig>
    requires n <= |call.files|
  {
    if n == 0 then []
    else StaleFiles(files, call, n - 1) + if IsStale(files, call, call.files[n - 1]) then [call.files[n - 1]] else []
  }

  lemma {:induction false} StaleMembers(files: FileTable, call: SyncCall, n: nat, f: FileSig)
    requires n <= |call.files|
    ensures f in StaleFiles(files, call, n) <==> IsStale(files, call, f) && exists k :: 0 <= k < n && call.files[k] == f
  {
    if n > 0 {
      StaleMembers(files, call, n - 1, f);
      if k :| 0 <= k < n && call.files[k] == f {
        assert k < n - 1 || call.files[n - 1] == f;
      }
    }
  }

  lemma {:induction false} StaleDistinct(files: FileTable, call: SyncCall, n: nat)
    requires n <= |call.files| && call.WellFormed()
    ensures DistinctPaths(StaleFiles(files, call, n))
  {
    if n > 0 {
      StaleDistinct(files, call, n - 1);
      var before, stale := StaleFiles(files, call, n - 1), StaleFiles(files, call, n);
      forall i, j | 0 <= i < j < |stale| ensures stale[i].path != stale[j].path {
        assert stale[i] == before[i];
        if j == |before| {
          assert before[i] in before && stale[j] == call.files[n - 1];
          StaleMembers(files, call, n - 1, before[i]);
          var k :| 0 <= k < n - 1 && call.files[k] == before[i];
          assert call.files[k].path != call.files[n - 1].path;
        } else {
          assert before[i].path != before[j].path && stale[j] == before[j];
        }
      }
    }
  }

  /** Every listed file is either on the work list or known already. */
  lemma StaleOrCurrent(files: FileTable, known: Knowledge, call: SyncCall, f: FileSig, parser: LineParser,
                       owner: (string, string) -> Path)
    requires FilesMirror(files, known) && Environment(known, call, parser, owner) && f in call.files
    ensures f in StaleFiles(files, call, |call.files|) || Current(known, call, f)
  {
    StaleMembers(files, call, |call.files|, f);
    if !IsStale(files, call, f) {
      UnchangedIsCurrent(known, call, f, files[FileKey(call.source, f.path)], parser, owner);
    }
  }

  /** The work list that the signatures select is sound. */
  lemma StaleIsWorkList(files: FileTable, known: Knowledge, call: SyncCall, parser: LineParser,
                        owner: (string, string) -> Path)
    requires FilesMirror(files, known) && Environment(known, call, parser, owner)
    ensures var changed := StaleFiles(files, call, |call.files|);
            && (forall f <- changed :: f in call.files)
            && DistinctPaths(changed)
            && (forall f <- call.files :: f in changed || Current(known, call, f))
  {
    var changed := StaleFiles(files, call, |call.files|);
    forall f <- changed ensures f in call.files {
      StaleMembers(files, call, |call.files|, f);
    }
    StaleDistinct(files, call, |call.files|);
    forall f <- call.files ensures f in changed || Current(known, call, f) {
      StaleOrCurrent(files, known, call, f, parser, owner);
    }
  }

  /** A listed file needs work: it is new, was missing, or differs in modification time, size or
      version from what is known. */
  ghost predicate FileNeedsWork(known: Knowledge, call: SyncCall, f: FileSig) {
    var fk := FileKey(call.source, f.path);
    || fk !in known || known[fk].missing || known[fk].version != call.version
    || known[fk].mtime != f.mtime || |known[fk].data| != f.size
  }

  /** Some listed file needs work, or a tracked file of the source is no longer listed (and, in
      durable mode, not yet flagged). */
  ghost predicate NeedsWork(known: Knowledge, call: SyncCall) {
    || (exists f <- call.files :: FileNeedsWork(known, call, f))
    || (exists fk :: fk in known && fk.source == call.source && !call.Lists(fk) &&
                     (!call.durable || !known[fk].missing))
  }

  lemma StaleIffNeedsWork(files: FileTable, known: Knowledge, call: SyncCall, f: FileSig)
    requires FilesMirror(files, known)
    ensures IsStale(files, call, f) <==> FileNeedsWork(known, call, f)
  {
    var fk := FileKey(call.source, f.path);
    if fk in known {
      assert Tracks(files[fk], f.path, known[fk]);
      var stored := FileSig(f.path, files[fk].mtime, files[fk].size);
      assert [stored] == [f] <==> stored == f by {
        assert [stored][0] == stored && [f][0] == f;
      }
    }
  }

  /** The work list is empty exactly when nothing needs work. */
  lemma NothingToDoIff(files: FileTable, known: Knowledge, call: SyncCall, removed: set<FileKey>)
    requires FilesMirror(files, known)
    requires forall fk :: fk in removed <==>
               fk in known && fk.source == call.source && fk !in Keys(call.source, call.files) &&
               (!call.durable || !known[fk].missing)
    ensures removed == {} && StaleFiles(files, call, |call.files|) == [] <==> !NeedsWork(known, call)
  {
    var stale := StaleFiles(files, call, |call.files|);
    forall f ensures f in stale <==> f in call.files && FileNeedsWork(known, call, f) {
      StaleMembers(files, call, |call.files|, f);
      StaleIffNeedsWork(files, known, call, f);
    }
    forall fk: FileKey ensures fk.source == call.source ==> (fk in Keys(call.source, call.files) <==> call.Lists(fk)) {
    }
    if stale != [] {
      assert stale[0] in stale;
    }
  }

  /** Repeating a call finds work exactly in the files that do not end in a newline. */
  lemma RepeatNeedsWorkIff(known: Knowledge, call: SyncCall)
    requires call.WellFormed()
    ensures NeedsWork(AfterSync(known, call), call) <==> exists f <- call.files :: !Complete(call.disk[f.path].data)
  {
    var after := AfterSync(known, call);
    forall f <- call.files ensures FileNeedsWork(after, call, f) <==> !Complete(call.disk[f.path].data) {
      var data := call.disk[f.path].data;
      assert after[FileKey(call.source, f.path)] == Target(call, f.path);
      if Complete(data) {
        CompletePrefixOfComplete(data);
      }
      assert data[..|data|] == data;
    }
    forall fk | fk in after && fk.source == call.source && !call.Lists(fk) ensures call.durable && after[fk].missing {
    }
  }

  /** The work list of a sync: what the two commit loops do adds up to the specification. */
  lemma WorkListIsSync(known: Knowledge, call: SyncCall, removed: set<FileKey>, changed: seq<FileSig>)
    requires call.WellFormed() && forall f <- changed :: f in call.files
    requires forall fk :: fk in removed <==>
               fk in known && fk.source == call.source && fk !in Keys(call.source, call.files) &&
                   (!call.durable || !known[fk].missing)
    requires forall f <- call.files :: f in changed || Current(known, call, f)
    ensures Committed(Forget(known, removed, call.durable), call, changed) == AfterSync(known, call)
  {
    var result, spec := Committed(Forget(known, removed, call.durable), call, changed), AfterSync(known, call);
    var listed := Keys(call.source, call.files);
    assert Keys(call.source, changed) <= listed;
    forall fk ensures fk in result <==> fk in spec {
      if fk in listed && fk !in Keys(call.source, changed) {
        var f :| f in call.files && FileKey(call.source, f.path) == fk;
        assert f !in changed;
      }
    }
    forall fk | fk in spec ensures result[fk] == spec[fk] {
      if fk in listed && fk !in Keys(call.source, changed) {
        var f :| f in call.files && FileKey(call.source, f.path) == fk;
        assert f !in changed;
      }
    }
  }

  lemma NothingToDo(known: Knowledge, call: SyncCall)
    ensures Committed(Forget(known, {}, call.durable), call, []) == known
  {
    assert Keys(call.source, []) == {};
  }

  /** Committing other files first does not disturb a prepared file. */
  lemma PreparedLater(known: Knowledge, call: SyncCall, changed: seq<FileSig>, n: nat, p: ParsedFile,
                      parser: LineParser, owner: (string, string) -> Path)
    requires n < |changed| && p.sig == changed[n] && forall f <- changed :: f.path in call.disk
    requires DistinctPaths(changed)
    requires Prepared(p, call, known, parser, owner)
    ensures forall f <- changed[..n] :: f.path in call.disk
    ensures Prepared(p, call, Committed(known, call, changed[..n]), parser, owner)
  {
    assert FileKey(call.source, p.sig.path) !in Keys(call.source, changed[..n]);
  }

  function AllRows(rows: Rows, source: string, parsed: seq<ParsedFile>): Rows {
    if parsed == [] then rows
    else
      var last := parsed[|parsed| - 1];
      CommittedRows(AllRows(rows, source, parsed[..|parsed| - 1]), FileKey(source, last.sig.path), last)
  }

  function AllFiles(files: FileTable, source: string, version: nat, parsed: seq<ParsedFile>): FileTable {
    if parsed == [] then files
    else
      var last := parsed[|parsed| - 1];
      var before := AllFiles(files, source, version, parsed[..|parsed| - 1]);
      before[FileKey(source, last.sig.path) := CommittedState(last, version)]
  }

  lemma CommitsUnfold(rows: Rows, files: FileTable, source: string, version: nat, parsed: seq<ParsedFile>, n: nat)
    requires n < |parsed|
    ensures AllRows(rows, source, parsed[..n + 1]) ==
            CommittedRows(AllRows(rows, source, parsed[..n]), FileKey(source, parsed[n].sig.path), parsed[n])
    ensures AllFiles(files, source, version, parsed[..n + 1]) ==
            AllFiles(files, source, version, parsed[..n])
              [FileKey(source, parsed[n].sig.path) := CommittedState(parsed[n], version)]
  {
    assert parsed[..n + 1][..n] == parsed[..n];
  }

  /** The parsed files belong to the changed files, one by one, and each is prepared. */
  ghost predicate AllPrepared(parsed: seq<ParsedFile>, changed: seq<FileSig>, call: SyncCall, known: Knowledge,
                              parser: LineParser, owner: (string, string) -> Path) {
    && |parsed| == |changed|
    && (forall f <- changed :: f.path in call.disk)
    && DistinctPaths(changed)
    && (forall i :: 0 <= i < |changed| ==>
          parsed[i].sig == changed[i] && Prepared(parsed[i], call, known, parser, owner))
  }

  lemma PreparedAfterForget(known: Knowledge, call: SyncCall, removed: set<FileKey>, changed: seq<FileSig>,
                            parsed: seq<ParsedFile>, parser: LineParser, owner: (string, string) -> Path)
    requires AllPrepared(parsed, changed, call, known, parser, owner) && forall f <- changed :: f in call.files
    requires forall fk <- removed :: fk !in Keys(call.source, call.files)
    ensures AllPrepared(parsed, changed, call, Forget(known, removed, call.durable), parser, owner)
  {
    forall i | 0 <= i < |changed|
      ensures Prepared(parsed[i], call, Forget(known, removed, call.durable), parser, owner)
    {
      assert changed[i] in call.files;
      assert FileKey(call.source, changed[i].path) in Keys(call.source, call.files);
    }
  }

  ghost predicate MirrorAt(rows: Rows, files: FileTable, parsed: seq<ParsedFile>, changed: seq<FileSig>, n: nat,
                           call: SyncCall,
                           known: Knowledge, parser: LineParser, owner: (string, string) -> Path)
    requires n <= |changed| == |parsed| && forall f <- changed :: f.path in call.disk
  {
    && RowsMirror(AllRows(rows, call.source, parsed[..n]), Committed(known, call, changed[..n]), parser, owner)
    && FilesMirror(AllFiles(files, call.source, call.version, parsed[..n]), Committed(known, call, changed[..n]))
  }

  lemma ParsedAllPrepared(files: FileTable, parsed: seq<ParsedFile>, changed: seq<FileSig>, call: SyncCall,
                          known: Knowledge, parser: LineParser, owner: (string, string) -> Path)
    requires FilesMirror(files, known) && Environment(known, call, parser, owner) && DistinctPaths(changed)
    requires |parsed| == |changed| && forall f <- changed :: f in call.files
    requires forall i :: 0 <= i < |changed| ==> parsed[i] == ParsedOf(files, changed[i], call, parser)
    ensures AllPrepared(parsed, changed, call, known, parser, owner)
  {
    forall i | 0 <= i < |changed| ensures Prepared(parsed[i], call, known, parser, owner) {
      ParsedIsPrepared(files, changed[i], call, known, parser, owner);
    }
  }

  /** One round of the second commit loop. */
  lemma CommitStep(rows: Rows, files: FileTable, parsed: seq<ParsedFile>, changed: seq<FileSig>, n: nat, call: SyncCall,
                   known: Knowledge, parser: LineParser, owner: (string, string) -> Path)
    requires AllPrepared(parsed, changed, call, known, parser, owner) && n < |changed|
    requires MirrorAt(rows, files, parsed, changed, n, call, known, parser, owner)
    ensures MirrorAt(rows, files, parsed, changed, n + 1, call, known, parser, owner)
  {
    var p, current := parsed[n], Committed(known, call, changed[..n]);
    CommitsUnfold(rows, files, call.source, call.version, parsed, n);
    PreparedLater(known, call, changed, n, p, parser, owner);
    CommittedStep(known, call, changed, n);
    CommitRowsMirror(AllRows(rows, call.source, parsed[..n]), p, call, current, parser, owner);
    CommitFilesMirror(AllFiles(files, call.source, call.version, parsed[..n]), p, call, current);
  }

  /** The second commit loop brings the mirror to what the changed files now hold. */
  lemma {:induction false} CommitsMirror(rows: Rows, files: FileTable, parsed: seq<ParsedFile>,
                                         changed: seq<FileSig>, n: nat, call: SyncCall,
                                         known: Knowledge, parser: LineParser, owner: (string, string) -> Path)
    requires RowsMirror(rows, known, parser, owner) && FilesMirror(files, known)
    requires AllPrepared(parsed, changed, call, known, parser, owner) && n <= |changed|
    ensures MirrorAt(rows, files, parsed, changed, n, call, known, parser, owner)
  {
    if n == 0 {
      assert Committed(known, call, changed[..0]) == known;
      assert parsed[..0] == [];
    } else {
      var m := n - 1;
      CommitsMirror(rows, files, parsed, changed, m, call, known, parser, owner);
      CommitStep(rows, files, parsed, changed, m, call, known, parser, owner);
    }
  }

  lemma {:induction false} CommitsElsewhere(rows: Rows, files: FileTable, parsed: seq<ParsedFile>, source: string,
                                            version: nat)
    requires forall i :: 0 <= i < |parsed| ==> forall e <- parsed[i].entries :: e.source == source
    ensures SameElsewhere(rows, AllRows(rows, source, parsed), source)
    ensures SameFilesElsewhere(files, AllFiles(files, source, version, parsed), source)
  {
    if parsed != [] {
      var init, last := parsed[..|parsed| - 1], parsed[|parsed| - 1];
      CommitsElsewhere(rows, files, init, source, version);
      CommittedElsewhere(AllRows(rows, source, init), FileKey(source, last.sig.path), last);
    }
  }

  /** What the environment promises for a call it also promises for its repetition. */
  lemma StillInEnvironment(known: Knowledge, call: SyncCall, parser: LineParser, owner: (string, string) -> Path)
    requires Environment(known, call, parser, owner)
    ensures Environment(AfterSync(known, call), call, parser, owner)
  {
    var after := AfterSync(known, call);
    forall f <- call.files ensures after[FileKey(call.source, f.path)] == Target(call, f.path) {
    }
  }

  // ----- Counters -----

  function Recounted(rows: Rows, files: FileTable, source: string): FileTable {
    map fk | fk in files ::
      if fk.source == source then files[fk].(entryCount := |RowsOfFile(rows, fk)|) else files[fk]
  }

  lemma RecountedIsCounted(rows: Rows, rows': Rows, files: FileTable, files': FileTable, sources: SourceTable,
                           source: string, signature: Signature)
    requires Counted(rows, files, sources)
    requires SameElsewhere(rows, rows', source) && SameFilesElsewhere(files, files', source)
    ensures Counted(rows', Recounted(rows', files', source),
              sources[source := SourceState(signature, |RowsOfSource(rows', source)|)])
  {
    forall fk | fk in files' && fk.source != source ensures RowsOfFile(rows', fk) == RowsOfFile(rows, fk) {
    }
    forall s | s in sources && s != source ensures RowsOfSource(rows', s) == RowsOfSource(rows, s) {
    }
  }

  lemma RecountedMirrors(rows: Rows, files: FileTable, known: Knowledge, source: string)
    requires FilesMirror(files, known)
    ensures FilesMirror(Recounted(rows, files, source), known)
  {
  }

  lemma RemovedElsewhere(rows: Rows, files: FileTable, removed: set<FileKey>, durable: bool, source: string)
    requires forall fk <- removed :: fk.source == source
    ensures SameElsewhere(rows, RemoveRows(rows, removed, durable), source)
    ensures SameFilesElsewhere(files, RemoveFiles(files, removed, durable), source)
  {
  }

  lemma SameElsewhereTransitive(a: Rows, b: Rows, c: Rows, fa: FileTable, fb: FileTable, fc: FileTable, source: string)
    requires SameElsewhere(a, b, source) && SameElsewhere(b, c, source)
    requires SameFilesElsewhere(fa, fb, source) && SameFilesElsewhere(fb, fc, source)
    ensures SameElsewhere(a, c, source) && SameFilesElsewhere(fa, fc, source)
  {
  }

  /** The tables after removals and upserts. */
  function TransactionRows(rows: Rows, removed: set<FileKey>, parsed: seq<ParsedFile>, call: SyncCall): Rows {
    AllRows(RemoveRows(rows, removed, call.durable), call.source, parsed)
  }

  function TransactionFiles(files: FileTable, removed: set<FileKey>, parsed: seq<ParsedFile>,
                            call: SyncCall): FileTable {
    AllFiles(RemoveFiles(files, removed, call.durable), call.source, call.version, parsed)
  }

  lemma TransactionMirrors(rows: Rows, files: FileTable, removed: set<FileKey>, parsed: seq<ParsedFile>,
                           changed: seq<FileSig>, call: SyncCall,
                           known: Knowledge, parser: LineParser, owner: (string, string) -> Path)
    requires RowsMirror(rows, known, parser, owner) && FilesMirror(files, known)
    requires AllPrepared(parsed, changed, call, known, parser, owner) && forall f <- changed :: f in call.files
    requires forall fk <- removed :: fk !in Keys(call.source, call.files)
    ensures RowsMirror(TransactionRows(rows, removed, parsed, call),
              Committed(Forget(known, removed, call.durable), call, changed), parser, owner)
    ensures FilesMirror(TransactionFiles(files, removed, parsed, call),
              Committed(Forget(known, removed, call.durable), call, changed))
  {
    var forgotten := Forget(known, removed, call.durable);
    var rows1, files1 := RemoveRows(rows, removed, call.durable), RemoveFiles(files, removed, call.durable);
    RemoveRowsMirror(rows, known, removed, call.durable, parser, owner);
    RemoveFilesMirror(files, known, removed, call.durable);
    PreparedAfterForget(known, call, removed, changed, parsed, parser, owner);
    assert parsed[..|changed|] == parsed && changed[..|changed|] == changed;
    CommitsMirror(rows1, files1, parsed, changed, |changed|, call, forgotten, parser, owner);
  }

  lemma TransactionElsewhere(rows: Rows, files: FileTable, removed: set<FileKey>, parsed: seq<ParsedFile>,
                             call: SyncCall)
    requires forall fk <- removed :: fk.source == call.source
    requires forall i :: 0 <= i < |parsed| ==> forall e <- parsed[i].entries :: e.source == call.source
    ensures SameElsewhere(rows, TransactionRows(rows, removed, parsed, call), call.source)
    ensures SameFilesElsewhere(files, TransactionFiles(files, removed, parsed, call), call.source)
  {
    var rows1, files1 := RemoveRows(rows, removed, call.durable), RemoveFiles(files, removed, call.durable);
    RemovedElsewhere(rows, files, removed, call.durable, call.source);
    CommitsElsewhere(rows1, files1, parsed, call.source, call.version);
    SameElsewhereTransitive(rows, rows1, TransactionRows(rows, removed, parsed, call),
                            files, files1, TransactionFiles(files, removed, parsed, call), call.source);
  }

  // ----- The store -----

  class UsageEntryStore {
    var usageEntries: Rows
    var fileState: FileTable
    var sourceState: SourceTable

    constructor ()
      ensures usageEntries == map[] && fileState == map[] && sourceState == map[]
    {
      usageEntries, fileState, sourceState := map[], map[], map[];
    }

    ghost predicate Mirrors(known: Knowledge, parser: LineParser, owner: (string, string) -> Path)
      reads this
    {
      RowsMirror(usageEntries, known, parser, owner) && FilesMirror(fileState, known)
    }

    ghost predicate Valid(known: Knowledge, parser: LineParser, owner: (string, string) -> Path)
      reads this
    {
      Mirrors(known, parser, owner) && Counted(usageEntries, fileState, sourceState)
    }

    /** The `INSERT OR REPLACE` statement, one entry at a time. */
    method Upsert(path: Path, entries: seq<Entry>)
      modifies this`usageEntries
      ensures usageEntries == Upserted(old(usageEntries), path, entries)
    {
      for n := 0 to |entries|
        invariant usageEntries == Upserted(old(usageEntries), path, entries[..n])
      {
        var e := entries[n];
        assert entries[..n + 1][..n] == entries[..n];
        usageEntries := usageEntries[RowKey(e.source, e.key) := Row(path, e)];
      }
      assert entries[..|entries|] == entries;
    }

    /** `DELETE FROM usage_entries WHERE source = ? AND file_path = ?` */
    method DeleteRows(fk: FileKey)
      modifies this`usageEntries
      ensures usageEntries == old(usageEntries) - RowsOfFile(old(usageEntries), fk)
    {
      usageEntries := usageEntries - RowsOfFile(usageEntries, fk);
    }

    /** One removed file: flagged in durable mode, deleted with its rows in strict mode. */
    method RemovePath(fk: FileKey, durable: bool)
      requires fk in fileState
      modifies this`usageEntries, this`fileState
      ensures usageEntries == if durable then old(usageEntries)
                else old(usageEntries) - RowsOfFile(old(usageEntries), fk)
      ensures fileState == if durable then old(fileState)[fk := old(fileState)[fk].(missing := true)]
                else old(fileState) - {fk}
    {
      if durable {
        fileState := fileState[fk := fileState[fk].(missing := true)];
      } else {
        DeleteRows(fk);
        fileState := fileState - {fk};
      }
    }

    /** The first commit loop: files that are no longer listed. */
    method RemovePaths(removed: set<FileKey>, durable: bool)
      requires removed <= fileState.Keys
      modifies this`usageEntries, this`fileState
      ensures usageEntries == RemoveRows(old(usageEntries), removed, durable)
      ensures fileState == RemoveFiles(old(fileState), removed, durable)
    {
      var pending := removed;
      ghost var done := {};
      while pending != {}
        invariant done !! pending && done + pending == removed
        invariant usageEntries == RemoveRows(old(usageEntries), done, durable)
        invariant fileState == RemoveFiles(old(fileState), done, durable)
        decreases pending
      {
        var fk :| fk in pending;
        RemovePath(fk, durable);
        pending, done := pending - {fk}, done + {fk};
        assert usageEntries == RemoveRows(old(usageEntries), done, durable);
      }
      assert done == removed;
    }

    /** The parsing loop for one changed file: append the tail when the stored prefix is still
        current, otherwise parse the whole file. */
    method ParseChanged(f: FileSig, call: SyncCall, parser: LineParser) returns (p: ParsedFile)
      requires f.path in call.disk
      ensures p == ParsedOf(fileState, f, call, parser)
    {
      var fk := FileKey(call.source, f.path);
      if f.path in call.tailPaths && fk in fileState && !fileState[fk].missing {
        var state := fileState[fk];
        var oldSize := if state.size != 0 then state.size else state.safeOffset;
        var oldSig := Signature([FileSig(f.path, state.mtime, oldSize)], call.version);
        if f.size > oldSize && oldSig == state.signature {
          var text, safeOffset := CompleteTail(call.disk[f.path].data, oldSize);
          return ParsedFile(f, EntriesOf(parser, call.version, text), safeOffset, true);
        }
      }
      return ParsedFile(f, EntriesOf(parser, call.version, call.disk[f.path].data), f.size, false);
    }

    /** The second commit loop for one parsed file. */
    method CommitFile(p: ParsedFile, source: string, version: nat)
      modifies this`usageEntries, this`fileState
      ensures usageEntries == CommittedRows(old(usageEntries), FileKey(source, p.sig.path), p)
      ensures fileState == old(fileState)[FileKey(source, p.sig.path) := CommittedState(p, version)]
    {
      var fk := FileKey(source, p.sig.path);
      if !p.appended {
        DeleteRows(fk);
      }
      Upsert(p.sig.path, p.entries);
      fileState := fileState[fk := CommittedState(p, version)];
    }

    /** The statements that refresh the counters at the end of the transaction: if the counters
        were true of `rows` and `files`, before the transaction touched this source, then all
        counters are true again, and nothing but counters has changed in the file states. */
    method Recount(source: string, signature: Signature, ghost rows: Rows, ghost files: FileTable)
      requires Counted(rows, files, sourceState)
      requires SameElsewhere(rows, usageEntries, source) && SameFilesElsewhere(files, fileState, source)
      modifies this`fileState, this`sourceState
      ensures Counted(usageEntries, fileState, sourceState)
      ensures forall known :: FilesMirror(old(fileState), known) ==> FilesMirror(fileState, known)
      ensures source in sourceState && sourceState[source].signature == signature
      ensures forall other :: other != source ==>
                (other in sourceState <==> other in old(sourceState)) &&
                (other in sourceState ==> sourceState[other] == old(sourceState)[other])
    {
      RecountedIsCounted(rows, usageEntries, files, fileState, sourceState, source, signature);
      forall known | FilesMirror(fileState, known)
        ensures FilesMirror(Recounted(usageEntries, fileState, source), known)
      {
        RecountedMirrors(usageEntries, fileState, known, source);
      }
      fileState := Recounted(usageEntries, fileState, source);
      sourceState := sourceState[source := SourceState(signature, |RowsOfSource(usageEntries, source)|)];
    }

    /** The tracked files of the source that are no longer listed. */
    method RemovedPaths(call: SyncCall, ghost known: Knowledge, ghost parser: LineParser,
                        ghost owner: (string, string) -> Path)
      returns (removed: set<FileKey>)
      requires Mirrors(known, parser, owner)
      ensures forall fk :: fk in removed <==>
                fk in known && fk.source == call.source && fk !in Keys(call.source, call.files) &&
                    (!call.durable || !known[fk].missing)
    {
      var listed := Keys(call.source, call.files);
      removed := set fk | fk in fileState && fk.source == call.source && fk !in listed &&
          (!call.durable || !fileState[fk].missing);
    }

    /** The changed files: no current signature, or marked missing. */
    method ChangedFiles(call: SyncCall) returns (changed: seq<FileSig>)
      ensures changed == StaleFiles(fileState, call, |call.files|)
    {
      changed := [];
      for n := 0 to |call.files|
        invariant changed == StaleFiles(fileState, call, n)
      {
        var f := call.files[n];
        var fk := FileKey(call.source, f.path);
        if fk !in fileState || fileState[fk].signature != Signature([f], call.version) || fileState[fk].missing {
          changed := changed + [f];
        }
      }
    }

    /** Parse every changed file before anything is written. */
    method ParseAll(changed: seq<FileSig>, call: SyncCall, parser: LineParser) returns (parsed: seq<ParsedFile>)
      requires forall f <- changed :: f.path in call.disk
      ensures |parsed| == |changed|
      ensures forall i :: 0 <= i < |changed| ==> parsed[i] == ParsedOf(fileState, changed[i], call, parser)
    {
      parsed := [];
      for n := 0 to |changed|
        invariant |parsed| == n
        invariant forall i :: 0 <= i < n ==> parsed[i] == ParsedOf(fileState, changed[i], call, parser)
      {
        var p := ParseChanged(changed[n], call, parser);
        parsed := parsed + [p];
      }
    }

    /** The second commit loop. */
    method CommitAll(parsed: seq<ParsedFile>, source: string, version: nat)
      modifies this`usageEntries, this`fileState
      ensures usageEntries == AllRows(old(usageEntries), source, parsed)
      ensures fileState == AllFiles(old(fileState), source, version, parsed)
    {
      for n := 0 to |parsed|
        invariant usageEntries == AllRows(old(usageEntries), source, parsed[..n])
        invariant fileState == AllFiles(old(fileState), source, version, parsed[..n])
      {
        assert parsed[..n + 1][..n] == parsed[..n];
        CommitFile(parsed[n], source, version);
      }
      assert parsed[..|parsed|] == parsed;
    }

    /** The write transaction: removals, upserts, counters. */
    method Transaction(removed: set<FileKey>, parsed: seq<ParsedFile>, call: SyncCall, ghost changed: seq<FileSig>,
                       ghost known: Knowledge, ghost parser: LineParser, ghost owner: (string, string) -> Path)
      requires Valid(known, parser, owner) && AllPrepared(parsed, changed, call, known, parser, owner)
      requires forall fk <- removed :: fk in known && fk.source == call.source && fk !in Keys(call.source, call.files)
      requires forall f <- changed :: f in call.files
      modifies this
      ensures Valid(Committed(Forget(known, removed, call.durable), call, changed), parser, owner)
      ensures call.source in sourceState && sourceState[call.source].signature == Signature(call.files, call.version)
    {
      ghost var rows, files := usageEntries, fileState;
      assert Mirrors(known, parser, owner);
      TransactionMirrors(usageEntries, fileState, removed, parsed, changed, call, known, parser, owner);
      TransactionElsewhere(usageEntries, fileState, removed, parsed, call);
      WriteTables(removed, parsed, call);
      Recount(call.source, Signature(call.files, call.version), rows, files);
    }

    /** The two commit loops. */
    method WriteTables(removed: set<FileKey>, parsed: seq<ParsedFile>, call: SyncCall)
      requires removed <= fileState.Keys
      modifies this`usageEntries, this`fileState
      ensures usageEntries == TransactionRows(old(usageEntries), removed, parsed, call)
      ensures fileState == TransactionFiles(old(fileState), removed, parsed, call)
    {
      RemovePaths(removed, call.durable);
      CommitAll(parsed, call.source, call.version);
    }

    /** `sync_files`: whatever mix of signatures, tails and flags it uses, the tables end up
        holding a from-scratch parse of what the specification says is known. */
    method SyncFiles(call: SyncCall, parser: LineParser, ghost known: Knowledge, ghost owner: (string, string) -> Path)
      returns (updated: bool)
      requires Valid(known, parser, owner) && Environment(known, call, parser, owner)
      modifies this
      ensures Valid(AfterSync(known, call), parser, owner)
      ensures updated <==> NeedsWork(known, call)
      ensures !updated ==> unchanged(this)
      ensures updated ==>
                call.source in sourceState && sourceState[call.source].signature == Signature(call.files, call.version)
    {
      var removed := RemovedPaths(call, known, parser, owner);
      var changed := ChangedFiles(call);
      StaleIsWorkList(fileState, known, call, parser, owner);
      WorkListIsSync(known, call, removed, changed);
      NothingToDoIff(fileState, known, call, removed);
      if removed == {} && changed == [] {
        NothingToDo(known, call);
        return false;
      }
      var parsed := ParseAll(changed, call, parser);
      ParsedAllPrepared(fileState, parsed, changed, call, known, parser, owner);
      Transaction(removed, parsed, call, changed, known, parser, owner);
      return true;
    }

    /** The same call twice in a row: the second finds work exactly when some listed file does not
        end in a newline. */
    method SyncTwice(call: SyncCall, parser: LineParser, ghost known: Knowledge, ghost owner: (string, string) -> Path)
      returns (first: bool, second: bool)
      requires Valid(known, parser, owner) && Environment(known, call, parser, owner)
      modifies this
      ensures Valid(AfterSync(AfterSync(known, call), call), parser, owner)
      ensures second <==> exists f <- call.files :: !Complete(call.disk[f.path].data)
    {
      first := SyncFiles(call, parser, known, owner);
      StillInEnvironment(known, call, parser, owner);
      RepeatNeedsWorkIff(known, call);
      second := SyncFiles(call, parser, AfterSync(known, call), owner);
    }

    /** Any number of serial syncs, of any sources, from an empty database. */
    method Replay(calls: seq<SyncCall>, parser: LineParser, ghost owner: (string, string) -> Path)
      requires usageEntries == map[] && fileState == map[] && sourceState == map[]
      requires EnvironmentRun(calls, parser, owner)
      modifies this
      ensures Valid(KnownAfter(calls), parser, owner)
    {
      for n := 0 to |calls|
        invariant Valid(KnownAfter(calls[..n]), parser, owner)
      {
        RunPrefix(calls, n, parser, owner);
        var _ := SyncFiles(calls[n], parser, KnownAfter(calls[..n]), owner);
      }
      assert calls[..|calls|] == calls;
    }
  }

  // ----- Whole runs -----

  ghost predicate AllWellFormed(calls: seq<SyncCall>) {
    forall c <- calls :: c.WellFormed()
  }

  /** What is known after a run of syncs from an empty database. */
  ghost function KnownAfter(calls: seq<SyncCall>): Knowledge
    requires AllWellFormed(calls)
  {
    if calls == [] then map[] else AfterSync(KnownAfter(calls[..|calls| - 1]), calls[|calls| - 1])
  }

  ghost predicate EnvironmentRun(calls: seq<SyncCall>, parser: LineParser, owner: (string, string) -> Path) {
    && AllWellFormed(calls)
    && forall n :: 0 <= n < |calls| ==> Environment(KnownAfter(calls[..n]), calls[n], parser, owner)
  }

  lemma RunPrefix(calls: seq<SyncCall>, n: nat, parser: LineParser, owner: (string, string) -> Path)
    requires EnvironmentRun(calls, parser, owner) && n < |calls|
    ensures KnownAfter(calls[..n + 1]) == AfterSync(KnownAfter(calls[..n]), calls[n])
  {
    assert calls[..n + 1][..n] == calls[..n];
  }

  /** The last call, if any, that listed the file. */
  ghost predicate LastListing(calls: seq<SyncCall>, fk: FileKey, n: nat) {
    n < |calls| && calls[n].Lists(fk) && forall m :: n < m < |calls| ==> !calls[m].Lists(fk)
  }

  /** The file is known as that call saw it, apart from the missing flag. */
  ghost predicate KnownAs(known: Knowledge, call: SyncCall, fk: FileKey, missing: bool) {
    fk in known && fk.path in call.disk && known[fk] == Target(call, fk.path).(missing := missing)
  }

  /** A sync of the file's source came after call `n`. */
  ghost predicate SyncedAfter(calls: seq<SyncCall>, fk: FileKey, n: nat) {
    exists m :: n < m < |calls| && calls[m].source == fk.source
  }

  lemma LastListingSnoc(calls: seq<SyncCall>, last: SyncCall, fk: FileKey, n: nat)
    ensures LastListing(calls + [last], fk, n) <==>
            if last.Lists(fk) then n == |calls| else n < |calls| && LastListing(calls, fk, n)
  {
    var all := calls + [last];
    assert all[|calls|] == last && forall m :: 0 <= m < |calls| ==> all[m] == calls[m];
  }

  lemma SyncedAfterSnoc(calls: seq<SyncCall>, last: SyncCall, fk: FileKey, n: nat)
    requires n <= |calls|
    ensures SyncedAfter(calls + [last], fk, n) <==>
              n < |calls| && (SyncedAfter(calls, fk, n) || last.source == fk.source)
  {
    var all := calls + [last];
    assert all[|calls|] == last && forall m :: 0 <= m < |calls| ==> all[m] == calls[m];
    if m :| n < m < |calls| && calls[m].source == fk.source {
      assert all[m].source == fk.source;
    }
  }

  /** One durable sync, seen from one file. */
  lemma DurableSync(known: Knowledge, call: SyncCall, fk: FileKey)
    requires call.WellFormed() && call.durable
    ensures fk in AfterSync(known, call) <==> fk in known || call.Lists(fk)
    ensures call.Lists(fk) ==> KnownAs(AfterSync(known, call), call, fk, false)
    ensures !call.Lists(fk) && fk in known ==>
              AfterSync(known, call)[fk] == if fk.source == call.source then known[fk].(missing := true) else known[fk]
  {
  }

  /** Durable runs keep every file ever listed exactly as its last listing saw it, and flag it
      missing when a later sync of its source did not list it. */
  lemma {:induction false} DurableKeepsLastSeen(calls: seq<SyncCall>, fk: FileKey)
    requires AllWellFormed(calls) && forall c <- calls :: c.durable
    ensures fk in KnownAfter(calls) <==> exists c <- calls :: c.Lists(fk)
    ensures forall n: nat :: LastListing(calls, fk, n) ==>
              KnownAs(KnownAfter(calls), calls[n], fk, SyncedAfter(calls, fk, n))
  {
    if calls != [] {
      var init, last := calls[..|calls| - 1], calls[|calls| - 1];
      assert calls == init + [last];
      DurableKeepsLastSeen(init, fk);
      DurableSync(KnownAfter(init), last, fk);
      forall n: nat | LastListing(calls, fk, n)
        ensures KnownAs(KnownAfter(calls), calls[n], fk, SyncedAfter(calls, fk, n))
      {
        LastListingSnoc(init, last, fk, n);
        SyncedAfterSnoc(init, last, fk, n);
        if n < |init| {
          assert calls[n] == init[n] && KnownAs(KnownAfter(init), init[n], fk, SyncedAfter(init, fk, n));
        }
      }
    }
  }

  /** Call `n` is the last sync of the file's source, and it listed the file. */
  ghost predicate ListedByLastSync(calls: seq<SyncCall>, fk: FileKey, n: nat) {
    n < |calls| && calls[n].Lists(fk) && forall m :: n < m < |calls| ==> calls[m].source != fk.source
  }

  lemma LastSyncSnoc(calls: seq<SyncCall>, last: SyncCall, fk: FileKey, n: nat)
    ensures ListedByLastSync(calls + [last], fk, n) <==>
            if last.source == fk.source then n == |calls| && last.Lists(fk)
            else n < |calls| && ListedByLastSync(calls, fk, n)
  {
    var all := calls + [last];
    assert all[|calls|] == last && forall m :: 0 <= m < |calls| ==> all[m] == calls[m];
  }

  /** One strict sync, seen from one file. */
  lemma StrictSync(known: Knowledge, call: SyncCall, fk: FileKey)
    requires call.WellFormed() && !call.durable
    ensures fk in AfterSync(known, call) <==> if fk.source == call.source then call.Lists(fk) else fk in known
    ensures fk.source == call.source && call.Lists(fk) ==> KnownAs(AfterSync(known, call), call, fk, false)
    ensures fk.source != call.source && fk in known ==> AfterSync(known, call)[fk] == known[fk]
  {
  }

  /** Strict runs know exactly the files that the last sync of their source listed, each as that
      sync saw it. */
  lemma {:induction false} StrictKnowsOnlyListed(calls: seq<SyncCall>, fk: FileKey)
    requires AllWellFormed(calls) && forall c <- calls :: !c.durable
    ensures fk in KnownAfter(calls) <==> exists n: nat :: ListedByLastSync(calls, fk, n)
    ensures forall n: nat :: ListedByLastSync(calls, fk, n) ==> KnownAs(KnownAfter(calls), calls[n], fk, false)
  {
    if calls != [] {
      var init, last := calls[..|calls| - 1], calls[|calls| - 1];
      assert calls == init + [last];
      StrictKnowsOnlyListed(init, fk);
      StrictSync(KnownAfter(init), last, fk);
      forall n: nat | ListedByLastSync(calls, fk, n) ensures KnownAs(KnownAfter(calls), calls[n], fk, false) {
        LastSyncSnoc(init, last, fk, n);
        if n < |init| {
          assert calls[n] == init[n] && KnownAs(KnownAfter(init), init[n], fk, false);
        }
      }
      if fk in KnownAfter(calls) {
        var n: nat := |init|;
        if last.source != fk.source {
          n :| ListedByLastSync(init, fk, n);
        }
        LastSyncSnoc(init, last, fk, n);
        assert ListedByLastSync(calls, fk, n);
      }
    }
  }

  // ----- A file first seen in the middle of a line -----

  /** The rows after a file was first seen, and so parsed in full, with content `a`, and synced
      again when it had grown to `a + b`. */
  ghost function RowsAfterTwo(parser: LineParser, fk: FileKey, version: nat, a: Bytes, b: Bytes,
                              mtimes: (int, int)): Rows {
    var disk1, disk2 := DiskFile(mtimes.0, a), DiskFile(mtimes.1, a + b);
    var f1, f2 := disk1.Sig(fk.path), disk2.Sig(fk.path);
    var call1 := SyncCall(fk.source, [f1], map[fk.path := disk1], version, true, {fk.path});
    var call2 := SyncCall(fk.source, [f2], map[fk.path := disk2], version, true, {fk.path});
    var p1 := ParsedOf(map[], f1, call1, parser);
    var p2 := ParsedOf(map[fk := CommittedState(p1, version)], f2, call2, parser);
    CommittedRows(CommittedRows(map[], fk, p1), fk, p2)
  }

  lemma RowsAfterTwoAre(parser: LineParser, fk: FileKey, version: nat, a: Bytes, b: Bytes, mtimes: (int, int))
    requires b != []
    ensures RowsAfterTwo(parser, fk, version, a, b, mtimes) ==
            Upserted(Upserted(map[], fk.path, EntriesOf(parser, version, a)), fk.path,
                EntriesOf(parser, version, CompletePrefix(b)))
  {
    assert (a + b)[|a|..] == b;
    var none: Rows := map[];
    assert none - RowsOfFile(none, fk) == none;
  }

  /** The parser stamps its entries with the source it works for. */
  ghost predicate EmitsSource(parser: LineParser, source: string) {
    forall v, line :: forall e <- parser(v, line) :: e.source == source
  }

  lemma {:induction false} StoredAreParsed(entries: seq<Entry>)
    ensures forall e <- ForStorage(entries) :: e in entries && e.timestamp > 0
    ensures forall e <- entries :: e.timestamp > 0 ==> e in ForStorage(entries)
  {
    if entries != [] {
      assert entries == [entries[0]] + entries[1..];
      StoredAreParsed(entries[1..]);
    }
  }

  lemma {:induction false} ParsedSource(parser: LineParser, source: string, version: nat, data: Bytes)
    requires EmitsSource(parser, source)
    ensures forall e <- Parse(parser, version, data) :: e.source == source
    decreases |data|
  {
    if data != [] {
      ParsedSource(parser, source, version, data[FirstLine(data)..]);
    }
  }

  lemma EntriesOwned(parser: LineParser, fk: FileKey, version: nat, data: Bytes, owner: (string, string) -> Path)
    requires EmitsSource(parser, fk.source) && forall s, k :: owner(s, k) == fk.path
    ensures OwnedBy(owner, fk, EntriesOf(parser, version, data))
  {
    ParsedSource(parser, fk.source, version, data);
    StoredAreParsed(Parse(parser, version, data));
  }

  lemma WholeLinesSurvive(parser: LineParser, fk: FileKey, version: nat, a: Bytes, b: Bytes, mtimes: (int, int))
    requires EmitsSource(parser, fk.source) && Complete(a) && b != []
    ensures FileRowsAre(RowsAfterTwo(parser, fk, version, a, b, mtimes), fk,
              ScratchOf(parser, version, CompletePrefix(a + b)))
  {
    var owner := (s: string, k: string) => fk.path;
    var first, tail := EntriesOf(parser, version, a), EntriesOf(parser, version, CompletePrefix(b));
    RowsAfterTwoAre(parser, fk, version, a, b, mtimes);
    EntriesOwned(parser, fk, version, a, owner);
    EntriesOwned(parser, fk, version, CompletePrefix(b), owner);
    UpsertRows(map[], fk, map[], first, owner);
    UpsertRows(Upserted(map[], fk.path, first), fk, KeyedOnto(map[], first), tail, owner);
    ScratchTail(parser, version, a, CompletePrefix(b));
    GrownPrefix(a, b);
  }

  lemma GrownPrefix(a: Bytes, b: Bytes)
    requires Complete(a)
    ensures CompletePrefix(a + b) == a + CompletePrefix(b)
  {
    assert (a + b)[..|a|] == a && (a + b)[|a|..] == b;
    CompleteLengthFrom(a + b, |a|);
    assert (a + b)[..|a| + CompleteLength(b)] == a + b[..CompleteLength(b)];
  }

  /** A parser that tells whole lines from cut ones. */
  ghost function CutDetector(source: string): LineParser {
    (v: nat, line: Bytes) => [Entry(source, if Complete(line) then "whole" else "cut", 1, 0)]
  }

  lemma {:induction false} CutIsDetected(source: string, version: nat, data: Bytes)
    requires !Complete(data)
    ensures exists e <- Parse(CutDetector(source), version, data) ::
              e.key == "cut" && e.source == source && e.timestamp > 0
    decreases |data|
  {
    var n, parser := FirstLine(data), CutDetector(source);
    var line, rest := data[..n], data[n..];
    assert Parse(parser, version, data) == parser(version, line) + Parse(parser, version, rest);
    if n < |data| {
      CutIsDetected(source, version, rest);
      var e: Entry :| e in Parse(parser, version, rest) && e.key == "cut" && e.source == source && e.timestamp > 0;
      assert e in Parse(parser, version, data);
    } else {
      assert line == data;
      assert parser(version, line)[0] in Parse(parser, version, data);
    }
  }

  lemma {:induction false} NoCutInWholeLines(source: string, version: nat, data: Bytes)
    requires Complete(data)
    ensures forall e <- Parse(CutDetector(source), version, data) :: e.key == "whole"
    decreases |data|
  {
    if data != [] {
      var n := FirstLine(data);
      assert data[..n][n - 1] == NEWLINE;
      CompleteRest(data, n);
      NoCutInWholeLines(source, version, data[n..]);
    }
  }

  lemma {:induction false} UpsertedHolds(rows: Rows, path: Path, entries: seq<Entry>, rk: RowKey)
    requires (rk in rows && rows[rk].path == path) || exists e <- entries :: RowKey(e.source, e.key) == rk
    ensures rk in Upserted(rows, path, entries) && Upserted(rows, path, entries)[rk].path == path
    decreases |entries|
  {
    if entries != [] {
      var init, last := entries[..|entries| - 1], entries[|entries| - 1];
      assert entries == init + [last];
      if rk != RowKey(last.source, last.key) {
        UpsertedHolds(rows, path, init, rk);
      }
    }
  }

  lemma {:induction false} KeyedFrom(entries: seq<Entry>, k: string)
    requires forall e <- entries :: e.key != k
    ensures k !in KeyedOnto(map[], entries)
    decreases |entries|
  {
    if entries != [] {
      var init, last := entries[..|entries| - 1], entries[|entries| - 1];
      assert entries == init + [last] && last in entries;
      KeyedFrom(init, k);
    }
  }

  lemma CutLineIsLost(fk: FileKey, version: nat, a: Bytes, b: Bytes, mtimes: (int, int))
    requires !Complete(a) && b != []
    ensures var parser := CutDetector(fk.source);
            !FileRowsAre(RowsAfterTwo(parser, fk, version, a, b, mtimes), fk,
                ScratchOf(parser, version, CompletePrefix(a + b)))
  {
    var parser, rk, whole := CutDetector(fk.source), RowKey(fk.source, "cut"), CompletePrefix(a + b);
    RowsAfterTwoAre(parser, fk, version, a, b, mtimes);
    CutIsDetected(fk.source, version, a);
    StoredAreParsed(Parse(parser, version, a));
    var first := EntriesOf(parser, version, a);
    UpsertedHolds(map[], fk.path, first, rk);
    UpsertedHolds(Upserted(map[], fk.path, first), fk.path, EntriesOf(parser, version, CompletePrefix(b)), rk);
    NoCutInWholeLines(fk.source, version, whole);
    StoredAreParsed(Parse(parser, version, whole));
    KeyedFrom(EntriesOf(parser, version, whole), "cut");
  }

  /** The index of a file that grows after its first sync is, for every parser, what a parse from
      scratch gives if and only if that first sync found the file ending in a newline. */
  lemma FirstSeenMidLineIff(fk: FileKey, version: nat, a: Bytes, b: Bytes, mtimes: (int, int))
    requires b != []
    ensures (forall parser :: EmitsSource(parser, fk.source) ==>
               FileRowsAre(RowsAfterTwo(parser, fk, version, a, b, mtimes), fk,
                   ScratchOf(parser, version, CompletePrefix(a + b))))
            <==> Complete(a)
  {
    if Complete(a) {
      forall parser | EmitsSource(parser, fk.source)
        ensures FileRowsAre(RowsAfterTwo(parser, fk, version, a, b, mtimes), fk,
                  ScratchOf(parser, version, CompletePrefix(a + b)))
      {
        WholeLinesSurvive(parser, fk, version, a, b, mtimes);
      }
    } else {
      assert EmitsSource(CutDetector(fk.source), fk.source);
      CutLineIsLost(fk, version, a, b, mtimes);
    }
  }
}
