/** The session retagger of `codex_sessions_retag.py`.  The detector and the rewriter of a
    JSONL record use different rules; counting, matching and rewriting are built on them. */
module ProviderRetag {

  import opened Options

  /** JSON values as far as the retagger looks into them. */
  datatype Json = Str(text: string) | Obj(fields: map<string, Json>) | Other(tag: int)
  type Record = map<string, Json>

  /** `json.loads` (None where it raises) and `json.dumps`, which must agree. */
  datatype Codec = Codec(parse: string -> Option<Json>, dump: Record -> string)
  {
    ghost predicate Lawful() {
      parse("") == None && forall rec: Record :: parse(dump(rec)) == Some(Obj(rec))
    }
  }

  const PROVIDER := "model_provider"

  /** A line of a file: its text, and whether a newline follows it. */
  datatype Line = Line(text: string, terminated: bool)
  type File = seq<Line>

  /** A state database: no usable `threads` table, or the provider column of its rows. */
  datatype StateDb = NoThreads | Threads(rows: seq<Option<string>>)

  // ----- Records -----

  function Field(rec: Record, key: string): Option<Json> {
    if key in rec then Some(rec[key]) else None
  }

  /** The payload of a `session_meta` record, if it is an object. */
  function MetaPayload(rec: Record): Option<Record> {
    match Field(rec, "payload")
    case Some(Obj(fields)) => if Field(rec, "type") == Some(Str("session_meta")) then Some(fields) else None
    case _ => None
  }

  /** `_jsonl_record_provider`: a top-level string wins over the payload. */
  function Detected(rec: Record): Option<string> {
    match Field(rec, PROVIDER)
    case Some(Str(p)) => Some(p)
    case _ =>
      var payload := MetaPayload(rec);
      if payload.None? then None
      else
        match Field(payload.value, PROVIDER)
        case Some(Str(p)) => Some(p)
        case _ => None
  }

  /** `_retag_jsonl_record_provider`: the payload is looked at whatever the top level holds. */
  function RetagRecord(rec: Record, source: string, target: string): (Record, bool) {
    if Field(rec, PROVIDER) == Some(Str(source)) then (rec[PROVIDER := Str(target)], true)
    else
      var payload := MetaPayload(rec);
      if payload.Some? && Field(payload.value, PROVIDER) == Some(Str(source)) then
        (rec["payload" := Obj(payload.value[PROVIDER := Str(target)])], true)
      else (rec, false)
  }

  /** The record is of type `session_meta` and its payload, an object, names the provider. */
  ghost predicate MetaNames(rec: Record, provider: string) {
    && "type" in rec && rec["type"] == Str("session_meta")
    && "payload" in rec && rec["payload"].Obj?
    && "model_provider" in rec["payload"].fields && rec["payload"].fields["model_provider"] == Str(provider)
  }

  /** A provider is detected exactly where a top-level string names it, or, failing such a string,
      the payload of a `session_meta` record does. */
  lemma DetectedIff(rec: Record, provider: string)
    ensures Detected(rec) == Some(provider) <==>
            if "model_provider" in rec && rec["model_provider"].Str?
            then rec["model_provider"] == Str(provider) else MetaNames(rec, provider)
  {
  }

  /** Exactly one field is rewritten, and only where it holds the source: the top-level one, or that
      of the payload of a `session_meta` record; every other record is left alone. */
  lemma RetagIs(rec: Record, source: string, target: string)
    ensures var (after, changed) := RetagRecord(rec, source, target);
            if "model_provider" in rec && rec["model_provider"] == Str(source) then
              changed && after == rec["model_provider" := Str(target)]
            else if MetaNames(rec, source) then
              changed && after == rec["payload" := Obj(rec["payload"].fields["model_provider" := Str(target)])]
            else !changed && after == rec
  {
  }

  /** A record of another type is detected and rewritten by its top-level field alone. */
  lemma OtherTypesByTopLevel(rec: Record, provider: string, target: string)
    requires !("type" in rec && rec["type"] == Str("session_meta"))
    ensures Detected(rec) == Some(provider) <==> "model_provider" in rec && rec["model_provider"] == Str(provider)
    ensures RetagRecord(rec, provider, target).1 <==> Detected(rec) == Some(provider)
    ensures Detected(rec) != Some(provider) ==> RetagRecord(rec, provider, target).0 == rec
  {
    DetectedIff(rec, provider);
    RetagIs(rec, provider, target);
  }

  /** Although the rules differ, rewriting moves the detected provider from source to target and
      leaves every other detection as it was. */
  lemma RetagDetected(rec: Record, source: string, target: string)
    ensures Detected(RetagRecord(rec, source, target).0) ==
            if Detected(rec) == Some(source) then Some(target) else Detected(rec)
    ensures Detected(rec) == Some(source) ==> RetagRecord(rec, source, target).1
    ensures !RetagRecord(rec, source, target).1 ==> RetagRecord(rec, source, target).0 == rec
  {
    var after := RetagRecord(rec, source, target).0;
    if Field(rec, PROVIDER) != Some(Str(source)) {
      assert Field(after, PROVIDER) == Field(rec, PROVIDER) && Field(after, "type") == Field(rec, "type");
    }
  }

  /** `provider` is the top-level provider or that of a session_meta payload. */
  predicate Mentions(rec: Record, provider: string) {
    || Field(rec, PROVIDER) == Some(Str(provider))
    || (MetaPayload(rec).Some? && Field(MetaPayload(rec).value, PROVIDER) == Some(Str(provider)))
  }

  /** Rewriting there and back restores a record in which the target did not occur. */
  lemma RetagBack(rec: Record, source: string, target: string)
    requires source != target && !Mentions(rec, target)
    ensures RetagRecord(RetagRecord(rec, source, target).0, target, source).0 == rec
  {
    var after, changed := RetagRecord(rec, source, target).0, RetagRecord(rec, source, target).1;
    if changed {
      if Field(rec, PROVIDER) == Some(Str(source)) {
        assert after[PROVIDER := Str(source)] == rec;
      } else {
        var payload := MetaPayload(rec).value;
        var payload' := payload[PROVIDER := Str(target)];
        assert Field(after, PROVIDER) == Field(rec, PROVIDER) && Field(after, "type") == Field(rec, "type");
        assert MetaPayload(after) == Some(payload');
        assert payload'[PROVIDER := Str(source)] == payload;
        assert after["payload" := Obj(payload)] == rec;
      }
    }
  }

  /** Both the top level and the session_meta payload name the provider. */
  predicate InBothPlaces(rec: Record, provider: string) {
    && Field(rec, PROVIDER) == Some(Str(provider))
    && MetaPayload(rec).Some? && Field(MetaPayload(rec).value, PROVIDER) == Some(Str(provider))
  }

  /** Rewriting a record twice is rewriting it once, except when both places held the source. */
  lemma RetagTwiceIff(rec: Record, source: string, target: string)
    requires source != target
    ensures RetagRecord(RetagRecord(rec, source, target).0, source, target).0 == RetagRecord(rec, source, target).0
            <==> !InBothPlaces(rec, source)
  {
    var once := RetagRecord(rec, source, target).0;
    var twice := RetagRecord(once, source, target).0;
    if Field(rec, PROVIDER) == Some(Str(source)) {
      assert Field(once, "type") == Field(rec, "type") && Field(once, "payload") == Field(rec, "payload");
      if MetaPayload(rec).Some? && Field(MetaPayload(rec).value, PROVIDER) == Some(Str(source)) {
        assert twice["payload"] != once["payload"] by {
          assert twice["payload"].fields[PROVIDER] == Str(target) && once["payload"].fields[PROVIDER] == Str(source);
        }
      }
    } else if MetaPayload(rec).Some? && Field(MetaPayload(rec).value, PROVIDER) == Some(Str(source)) {
      assert Field(once, PROVIDER) == Field(rec, PROVIDER);
      assert once["payload"].fields[PROVIDER] == Str(target);
    }
  }

  // ----- Lines and files -----

  function ParsedLine(codec: Codec, line: Line): Option<Record> {
    match codec.parse(line.text)
    case Some(Obj(fields)) => Some(fields)
    case _ => None
  }

  function RetagLine(codec: Codec, line: Line, source: string, target: string): Line {
    if line.text == "" then line
    else
      var rec := ParsedLine(codec, line);
      if rec.Some? && RetagRecord(rec.value, source, target).1 then
        Line(codec.dump(RetagRecord(rec.value, source, target).0), true)
      else line
  }

  predicate LineChanges(codec: Codec, line: Line, source: string, target: string) {
    line.text != "" && ParsedLine(codec, line).Some? && RetagRecord(ParsedLine(codec, line).value, source, target).1
  }

  function RetagLines(codec: Codec, file: File, source: string, target: string): (out: File)
    ensures |out| == |file| && forall i :: 0 <= i < |file| ==> out[i] == RetagLine(codec, file[i], source, target)
  {
    seq(|file|, i requires 0 <= i < |file| => RetagLine(codec, file[i], source, target))
  }

  lemma DumpsDiffer(codec: Codec, a: Record, b: Record)
    requires codec.Lawful() && codec.dump(a) == codec.dump(b)
    ensures a == b
  {
    assert codec.parse(codec.dump(a)) == Some(Obj(a)) && codec.parse(codec.dump(b)) == Some(Obj(b));
  }

  /** The record of a line, if it has one, names the provider in both places. */
  predicate LineInBothPlaces(codec: Codec, line: Line, provider: string) {
    ParsedLine(codec, line).Some? && InBothPlaces(ParsedLine(codec, line).value, provider)
  }

  lemma RetagLineTwiceIff(codec: Codec, line: Line, source: string, target: string)
    requires codec.Lawful() && source != target
    ensures var once := RetagLine(codec, line, source, target);
            RetagLine(codec, once, source, target) == once <==> !LineInBothPlaces(codec, line, source)
  {
    if LineChanges(codec, line, source, target) {
      var rec := ParsedLine(codec, line).value;
      var once := RetagRecord(rec, source, target).0;
      var twice := RetagRecord(once, source, target).0;
      assert codec.parse(codec.dump(once)) == Some(Obj(once));
      RetagTwiceIff(rec, source, target);
      if RetagRecord(once, source, target).1 && codec.dump(twice) == codec.dump(once) {
        DumpsDiffer(codec, twice, once);
      }
    }
  }

  /** Rewriting the lines of a file twice is rewriting them once exactly when no line of it names
      the source in both places. */
  lemma RetagLinesTwiceIff(codec: Codec, file: File, source: string, target: string)
    requires codec.Lawful() && source != target
    ensures var once := RetagLines(codec, file, source, target);
            RetagLines(codec, once, source, target) == once <==>
            forall line <- file :: !LineInBothPlaces(codec, line, source)
  {
    var once := RetagLines(codec, file, source, target);
    var twice := RetagLines(codec, once, source, target);
    forall i | 0 <= i < |file| ensures twice[i] == once[i] <==> !LineInBothPlaces(codec, file[i], source) {
      RetagLineTwiceIff(codec, file[i], source, target);
    }
    if forall line <- file :: !LineInBothPlaces(codec, line, source) {
      assert forall i :: 0 <= i < |file| ==> file[i] in file;
    }
    if twice == once {
      forall line <- file ensures !LineInBothPlaces(codec, line, source) {
        var i :| 0 <= i < |file| && file[i] == line;
        assert twice[i] == once[i];
      }
    }
  }

  /** `_retag_jsonl_file`: stream the lines through, remembering whether any changed; an
      unchanged file is left in place. */
  method RetagFile(codec: Codec, file: File, source: string, target: string) returns (result: File, changed: bool)
    ensures result == RetagLines(codec, file, source, target)
    ensures changed <==> exists i :: 0 <= i < |file| && LineChanges(codec, file[i], source, target)
    ensures forall i :: 0 <= i < |file| && !LineChanges(codec, file[i], source, target) ==> result[i] == file[i]
    ensures forall i :: 0 <= i < |file| && LineChanges(codec, file[i], source, target) ==> result[i].terminated
  {
    var output: File := [];
    changed := false;
    for n := 0 to |file|
      invariant |output| == n && forall i :: 0 <= i < n ==> output[i] == RetagLine(codec, file[i], source, target)
      invariant changed <==> exists i :: 0 <= i < n && LineChanges(codec, file[i], source, target)
    {
      var line := file[n];
      if line.text == "" {
        output := output + [line];
        continue;
      }
      var rec := ParsedLine(codec, line);
      if rec.None? {
        output := output + [line];
        continue;
      }
      var (updated, hit) := RetagRecord(rec.value, source, target);
      if hit {
        changed := true;
        output := output + [Line(codec.dump(updated), true)];
      } else {
        output := output + [line];
      }
    }
    assert output == RetagLines(codec, file, source, target);
    if !changed {
      assert file == RetagLines(codec, file, source, target);
      return file, false;
    }
    return output, true;
  }

  function LineProvider(codec: Codec, line: Line): Option<string> {
    var rec := ParsedLine(codec, line);
    if rec.None? then None else Detected(rec.value)
  }

  /** `_jsonl_contains_provider`. */
  predicate Contains(codec: Codec, file: File, provider: string) {
    exists i :: 0 <= i < |file| && LineProvider(codec, file[i]) == Some(provider)
  }

  lemma RetagLineProvider(codec: Codec, line: Line, source: string, target: string)
    requires codec.Lawful()
    ensures LineProvider(codec, RetagLine(codec, line, source, target)) ==
            if LineProvider(codec, line) == Some(source) then Some(target) else LineProvider(codec, line)
    ensures LineProvider(codec, line) == Some(source) ==> LineChanges(codec, line, source, target)
    ensures ParsedLine(codec, RetagLine(codec, line, source, target)) ==
            if ParsedLine(codec, line).Some? then Some(RetagRecord(ParsedLine(codec, line).value, source, target).0)
                else None
  {
    var rec := ParsedLine(codec, line);
    if rec.Some? {
      RetagDetected(rec.value, source, target);
    }
  }

  // ----- A Codex home and its counts -----

  datatype Home = Home(sessions: seq<File>, dbs: seq<StateDb>)

  function Tally(hit: bool): nat {
    if hit then 1 else 0
  }

  function CountLines(codec: Codec, file: File, provider: string): nat {
    if file == [] then 0
    else
      var last := file[|file| - 1];
      CountLines(codec, file[..|file| - 1], provider) + Tally(LineProvider(codec, last) == Some(provider))
  }

  function CountRows(rows: seq<Option<string>>, provider: string): nat {
    if rows == [] then 0 else CountRows(rows[..|rows| - 1], provider) + Tally(rows[|rows| - 1] == Some(provider))
  }

  function CountDb(db: StateDb, provider: string): nat {
    if db.NoThreads? then 0 else CountRows(db.rows, provider)
  }

  function CountSessions(codec: Codec, sessions: seq<File>, provider: string): nat {
    if sessions == [] then 0
    else
      var last := sessions[|sessions| - 1];
      CountSessions(codec, sessions[..|sessions| - 1], provider) + CountLines(codec, last, provider)
  }

  /** How many files the detector matches. */
  function MatchedFiles(codec: Codec, sessions: seq<File>, provider: string): nat {
    if sessions == [] then 0
    else
      var last := sessions[|sessions| - 1];
      MatchedFiles(codec, sessions[..|sessions| - 1], provider) + Tally(Contains(codec, last, provider))
  }

  function CountDbs(dbs: seq<StateDb>, provider: string): nat {
    if dbs == [] then 0 else CountDbs(dbs[..|dbs| - 1], provider) + CountDb(dbs[|dbs| - 1], provider)
  }

  function Count(codec: Codec, home: Home, provider: string): nat {
    CountSessions(codec, home.sessions, provider) + CountDbs(home.dbs, provider)
  }

  // ----- What a retag does to a home -----

  function RetagRow(row: Option<string>, source: string, target: string): Option<string> {
    if row == Some(source) then Some(target) else row
  }

  function RetagRows(rows: seq<Option<string>>, source: string, target: string): seq<Option<string>> {
    seq(|rows|, i requires 0 <= i < |rows| => RetagRow(rows[i], source, target))
  }

  /** Only files that the detector matches are rewritten. */
  function RetagSession(codec: Codec, file: File, source: string, target: string): File {
    if Contains(codec, file, source) then RetagLines(codec, file, source, target) else file
  }

  function RetagDb(db: StateDb, source: string, target: string): StateDb {
    if CountDb(db, source) > 0 then Threads(RetagRows(db.rows, source, target)) else db
  }

  function RetagHome(codec: Codec, home: Home, source: string, target: string): Home {
    var Home(sessions, dbs) := home;
    Home(seq(|sessions|, i requires 0 <= i < |sessions| => RetagSession(codec, sessions[i], source, target)),
         seq(|dbs|, i requires 0 <= i < |dbs| => RetagDb(dbs[i], source, target)))
  }

  /** How a retag redistributes a count. */
  function Redistributed(provider: string, source: string, target: string, own: nat, ofSource: nat): nat {
    if provider == source then 0 else if provider == target then own + ofSource else own
  }

  lemma {:induction false} CountRetagLines(codec: Codec, file: File, source: string, target: string, provider: string)
    requires codec.Lawful() && source != target
    ensures CountLines(codec, RetagLines(codec, file, source, target), provider) ==
            Redistributed(provider, source, target, CountLines(codec, file, provider), CountLines(codec, file, source))
  {
    if file != [] {
      var init := file[..|file| - 1];
      CountRetagLines(codec, init, source, target, provider);
      RetagLineProvider(codec, file[|file| - 1], source, target);
      var out := RetagLines(codec, file, source, target);
      assert out[..|out| - 1] == RetagLines(codec, init, source, target);
    }
  }

  lemma {:induction false} CountZeroIffAbsent(codec: Codec, file: File, provider: string)
    ensures CountLines(codec, file, provider) == 0 <==> !Contains(codec, file, provider)
  {
    if file != [] {
      var init := file[..|file| - 1];
      CountZeroIffAbsent(codec, init, provider);
      if Contains(codec, init, provider) {
        var i :| 0 <= i < |init| && LineProvider(codec, init[i]) == Some(provider);
        assert LineProvider(codec, file[i]) == Some(provider);
      }
    }
  }

  lemma CountRetagSession(codec: Codec, file: File, source: string, target: string, provider: string)
    requires codec.Lawful() && source != target
    ensures CountLines(codec, RetagSession(codec, file, source, target), provider) ==
            Redistributed(provider, source, target, CountLines(codec, file, provider), CountLines(codec, file, source))
  {
    CountRetagLines(codec, file, source, target, provider);
    CountZeroIffAbsent(codec, file, source);
  }

  lemma {:induction false} CountRetagRows(rows: seq<Option<string>>, source: string, target: string, provider: string)
    requires source != target
    ensures CountRows(RetagRows(rows, source, target), provider) ==
            Redistributed(provider, source, target, CountRows(rows, provider), CountRows(rows, source))
  {
    if rows != [] {
      var init := rows[..|rows| - 1];
      CountRetagRows(init, source, target, provider);
      var out := RetagRows(rows, source, target);
      assert out[..|out| - 1] == RetagRows(init, source, target);
    }
  }

  lemma CountRetagDb(db: StateDb, source: string, target: string, provider: string)
    requires source != target
    ensures CountDb(RetagDb(db, source, target), provider) ==
            Redistributed(provider, source, target, CountDb(db, provider), CountDb(db, source))
  {
    if CountDb(db, source) > 0 {
      CountRetagRows(db.rows, source, target, provider);
    }
  }

  lemma {:induction false} CountRetagSessions(codec: Codec, before: seq<File>, after: seq<File>, source: string,
                                              target: string, provider: string)
    requires codec.Lawful() && source != target && |after| == |before|
    requires forall i :: 0 <= i < |before| ==> after[i] == RetagSession(codec, before[i], source, target)
    ensures CountSessions(codec, after, provider) ==
            Redistributed(provider, source, target, CountSessions(codec, before, provider),
                CountSessions(codec, before, source))
  {
    if before != [] {
      var n := |before| - 1;
      CountRetagSessions(codec, before[..n], after[..n], source, target, provider);
      CountRetagSession(codec, before[n], source, target, provider);
    }
  }

  lemma {:induction false} CountRetagDbs(before: seq<StateDb>, after: seq<StateDb>, source: string, target: string,
                                         provider: string)
    requires source != target && |after| == |before|
    requires forall i :: 0 <= i < |before| ==> after[i] == RetagDb(before[i], source, target)
    ensures CountDbs(after, provider) ==
            Redistributed(provider, source, target, CountDbs(before, provider), CountDbs(before, source))
  {
    if before != [] {
      var n := |before| - 1;
      CountRetagDbs(before[..n], after[..n], source, target, provider);
      CountRetagDb(before[n], source, target, provider);
    }
  }

  /** Conservation: the source's count moves to the target, every other count stays. */
  lemma RetagMovesCounts(codec: Codec, home: Home, source: string, target: string, provider: string)
    requires codec.Lawful() && source != target
    ensures Count(codec, RetagHome(codec, home, source, target), provider) ==
            if provider == source then 0
            else if provider == target then Count(codec, home, target) + Count(codec, home, source)
            else Count(codec, home, provider)
  {
    var after := RetagHome(codec, home, source, target);
    CountRetagSessions(codec, home.sessions, after.sessions, source, target, provider);
    CountRetagDbs(home.dbs, after.dbs, source, target, provider);
  }

  lemma {:induction false} NoCountNoSession(codec: Codec, sessions: seq<File>, provider: string, i: nat)
    requires CountSessions(codec, sessions, provider) == 0 && i < |sessions|
    ensures !Contains(codec, sessions[i], provider)
  {
    var n := |sessions| - 1;
    if i < n {
      NoCountNoSession(codec, sessions[..n], provider, i);
      assert sessions[..n][i] == sessions[i];
    } else {
      CountZeroIffAbsent(codec, sessions[n], provider);
    }
  }

  lemma {:induction false} NoCountNoDb(dbs: seq<StateDb>, provider: string, i: nat)
    requires CountDbs(dbs, provider) == 0 && i < |dbs|
    ensures CountDb(dbs[i], provider) == 0
  {
    var n := |dbs| - 1;
    if i < n {
      NoCountNoDb(dbs[..n], provider, i);
      assert dbs[..n][i] == dbs[i];
    }
  }

  /** An immediate second run finds nothing and changes nothing, although by `RetagLinesTwiceIff`
      rewriting the lines of a file twice can differ from rewriting them once. */
  lemma SecondRunIsNoOp(codec: Codec, home: Home, source: string, target: string)
    requires codec.Lawful() && source != target
    ensures var once := RetagHome(codec, home, source, target);
            RetagHome(codec, once, source, target) == once && Count(codec, once, source) == 0
  {
    var once := RetagHome(codec, home, source, target);
    RetagMovesCounts(codec, home, source, target, source);
    var twice := RetagHome(codec, once, source, target);
    forall i | 0 <= i < |once.sessions| ensures twice.sessions[i] == once.sessions[i] {
      NoCountNoSession(codec, once.sessions, source, i);
    }
    forall i | 0 <= i < |once.dbs| ensures twice.dbs[i] == once.dbs[i] {
      NoCountNoDb(once.dbs, source, i);
    }
    assert twice.sessions == once.sessions && twice.dbs == once.dbs;
  }

  // ----- There and back -----

  ghost predicate SameParsed(codec: Codec, a: File, b: File) {
    |a| == |b| && forall i :: 0 <= i < |a| ==> ParsedLine(codec, a[i]) == ParsedLine(codec, b[i])
  }

  /** Every line of `file` that a retag does not rewrite, valid or not, is the same in `other`. */
  ghost predicate Verbatim(codec: Codec, other: File, file: File, source: string, target: string) {
    && |other| == |file|
    && (forall i :: 0 <= i < |file| && !LineChanges(codec, file[i], source, target) ==> other[i] == file[i])
  }

  /** `provider` occurs in no record that the retagger looks at and in no thread row. */
  ghost predicate OccursNowhere(codec: Codec, home: Home, provider: string) {
    && (forall file <- home.sessions, line <- file :: ParsedLine(codec, line).Some? ==>
        !Mentions(ParsedLine(codec, line).value, provider))
    && (forall db <- home.dbs :: db.Threads? ==> Some(provider) !in db.rows)
  }

  lemma SessionThereAndBack(codec: Codec, file: File, source: string, target: string)
    requires codec.Lawful() && source != target
    requires forall line <- file :: ParsedLine(codec, line).Some? ==> !Mentions(ParsedLine(codec, line).value, target)
    ensures var there := RetagSession(codec, file, source, target);
            var back := RetagSession(codec, there, target, source);
            && SameParsed(codec, back, file)
            && Verbatim(codec, there, file, source, target) && Verbatim(codec, back, file, source, target)
            && (!Contains(codec, file, source) ==> back == file)
  {
    var there := RetagSession(codec, file, source, target);
    assert Contains(codec, there, target) <==> Contains(codec, file, source) by {
      forall i | 0 <= i < |file| ensures LineProvider(codec, file[i]) != Some(target) {
        assert file[i] in file;
      }
      if Contains(codec, file, source) {
        var i :| 0 <= i < |file| && LineProvider(codec, file[i]) == Some(source);
        RetagLineProvider(codec, file[i], source, target);
        assert LineProvider(codec, there[i]) == Some(target);
      }
    }
    if Contains(codec, file, source) {
      var back := RetagLines(codec, there, target, source);
      forall i | 0 <= i < |file|
        ensures ParsedLine(codec, back[i]) == ParsedLine(codec, file[i])
        ensures !LineChanges(codec, file[i], source, target) ==> back[i] == file[i]
      {
        assert file[i] in file;
        RetagLineProvider(codec, file[i], source, target);
        RetagLineProvider(codec, there[i], target, source);
        if ParsedLine(codec, file[i]).Some? {
          RetagBack(ParsedLine(codec, file[i]).value, source, target);
        }
      }
    }
  }

  lemma {:induction false} NoRowIffNoCount(rows: seq<Option<string>>, provider: string)
    ensures CountRows(rows, provider) == 0 <==> Some(provider) !in rows
  {
    if rows != [] {
      var init := rows[..|rows| - 1];
      assert rows == init + [rows[|rows| - 1]];
      NoRowIffNoCount(init, provider);
    }
  }

  lemma DbThereAndBack(db: StateDb, source: string, target: string)
    requires source != target && (db.Threads? ==> Some(target) !in db.rows)
    ensures RetagDb(RetagDb(db, source, target), target, source) == db
  {
    if db.Threads? {
      NoRowIffNoCount(db.rows, source);
      NoRowIffNoCount(db.rows, target);
      CountRetagDb(db, source, target, target);
      if CountDb(db, source) > 0 {
        var there := RetagRows(db.rows, source, target);
        forall i | 0 <= i < |db.rows| ensures RetagRow(there[i], target, source) == db.rows[i] {
          assert db.rows[i] in db.rows;
        }
        assert RetagRows(there, target, source) == db.rows;
      }
    }
  }

  /** If the target occurs nowhere, retagging to it and back restores every parsed record and
      every row; lines that do not match, valid or not, stay verbatim throughout, and files that
      held no source record are not touched at all. */
  lemma ThereAndBack(codec: Codec, home: Home, source: string, target: string)
    requires codec.Lawful() && source != target && OccursNowhere(codec, home, target)
    ensures var there := RetagHome(codec, home, source, target);
            var back := RetagHome(codec, there, target, source);
            && back.dbs == home.dbs && |back.sessions| == |there.sessions| == |home.sessions|
            && (forall i :: 0 <= i < |home.sessions| ==>
                  && Verbatim(codec, there.sessions[i], home.sessions[i], source, target)
                  && Verbatim(codec, back.sessions[i], home.sessions[i], source, target))
            && (forall i :: 0 <= i < |home.sessions| ==> SameParsed(codec, back.sessions[i], home.sessions[i]))
            && (forall i :: 0 <= i < |home.sessions| && !Contains(codec, home.sessions[i], source) ==>
                back.sessions[i] == home.sessions[i])
  {
    var there := RetagHome(codec, home, source, target);
    var back := RetagHome(codec, there, target, source);
    forall i | 0 <= i < |home.sessions|
      ensures SameParsed(codec, back.sessions[i], home.sessions[i])
      ensures Verbatim(codec, there.sessions[i], home.sessions[i], source, target)
      ensures Verbatim(codec, back.sessions[i], home.sessions[i], source, target)
      ensures !Contains(codec, home.sessions[i], source) ==> back.sessions[i] == home.sessions[i]
    {
      assert home.sessions[i] in home.sessions;
      SessionThereAndBack(codec, home.sessions[i], source, target);
    }
    forall i | 0 <= i < |home.dbs| ensures back.dbs[i] == home.dbs[i] {
      assert home.dbs[i] in home.dbs;
      DbThereAndBack(home.dbs[i], source, target);
    }
    assert back.dbs == home.dbs;
  }

  // ----- Rows -----

  /** Every thread row stays in its place; those of the source, and only those, are retagged. */
  lemma RowsInPlace(codec: Codec, home: Home, source: string, target: string, d: nat)
    requires d < |home.dbs|
    ensures var after := RetagHome(codec, home, source, target);
            && |after.dbs| == |home.dbs|
            && match home.dbs[d] {
                 case NoThreads => after.dbs[d] == NoThreads
                 case Threads(rows) =>
                   && after.dbs[d].Threads? && |after.dbs[d].rows| == |rows|
                   && forall i :: 0 <= i < |rows| ==>
                        after.dbs[d].rows[i] == if rows[i] == Some(source) then Some(target) else rows[i]
               }
  {
    if home.dbs[d].Threads? {
      var rows := home.dbs[d].rows;
      NoRowIffNoCount(rows, source);
      forall i | 0 <= i < |rows| && Some(source) !in rows ensures rows[i] != Some(source) {
        assert rows[i] in rows;
      }
    }
  }

  // ----- The command -----

  datatype Error = SameProviders | UnsupportedProvider
  datatype Report = Report(filesMatched: nat, filesUpdated: nat, rowsMatched: nat, rowsUpdated: nat,
                           before: map<string, nat>, after: map<string, nat>)
  datatype Outcome = Ok(report: Report) | Err(error: Error)

  ghost predicate CountsAre(counts: map<string, nat>, codec: Codec, home: Home) {
    forall p :: Look(counts, p) == Count(codec, home, p)
  }

  predicate Supported(provider: string) {
    provider == "openai" || provider == "codex-lb"
  }

  class CodexHome {
    var sessions: seq<File>
    var dbs: seq<StateDb>

    ghost function Contents(): Home
      reads this
    {
      Home(sessions, dbs)
    }

    constructor (sessions: seq<File>, dbs: seq<StateDb>)
      ensures Contents() == Home(sessions, dbs)
    {
      this.sessions, this.dbs := sessions, dbs;
    }

    /** The `dict` updates of `_provider_counts` for one file. */
    method CountFile(codec: Codec, file: File, counts: map<string, nat>) returns (result: map<string, nat>)
      ensures forall p :: Look(result, p) == Look(counts, p) + CountLines(codec, file, p)
    {
      result := counts;
      for n := 0 to |file|
        invariant forall p :: Look(result, p) == Look(counts, p) + CountLines(codec, file[..n], p)
      {
        var provider := LineProvider(codec, file[n]);
        assert file[..n + 1][..n] == file[..n];
        if provider.Some? {
          result := result[provider.value := Look(result, provider.value) + 1];
        }
      }
      assert file[..|file|] == file;
    }

    method CountTable(db: StateDb, counts: map<string, nat>) returns (result: map<string, nat>)
      ensures forall p :: Look(result, p) == Look(counts, p) + CountDb(db, p)
    {
      result := counts;
      if db.NoThreads? {
        return;
      }
      for n := 0 to |db.rows|
        invariant forall p :: Look(result, p) == Look(counts, p) + CountRows(db.rows[..n], p)
      {
        assert db.rows[..n + 1][..n] == db.rows[..n];
        if db.rows[n].Some? {
          result := result[db.rows[n].value := Look(result, db.rows[n].value) + 1];
        }
      }
      assert db.rows[..|db.rows|] == db.rows;
    }

    /** `_provider_counts`. */
    method ProviderCounts(codec: Codec) returns (counts: map<string, nat>)
      ensures CountsAre(counts, codec, Contents())
    {
      counts := map[];
      for n := 0 to |sessions|
        invariant forall p :: Look(counts, p) == CountSessions(codec, sessions[..n], p)
      {
        assert sessions[..n + 1][..n] == sessions[..n];
        counts := CountFile(codec, sessions[n], counts);
      }
      assert sessions[..|sessions|] == sessions;
      for n := 0 to |dbs|
        invariant forall p :: Look(counts, p) == CountSessions(codec, sessions, p) + CountDbs(dbs[..n], p)
      {
        assert dbs[..n + 1][..n] == dbs[..n];
        counts := CountTable(dbs[n], counts);
      }
      assert dbs[..|dbs|] == dbs;
    }

    /** Rewrite the matched files; every one of them is updated. */
    method RetagSessionFiles(codec: Codec, source: string, target: string, write: bool)
      returns (matched: nat, updated: nat)
      requires codec.Lawful()
      modifies this`sessions
      ensures matched == MatchedFiles(codec, old(sessions), source)
      ensures |sessions| == |old(sessions)| && updated == if write then matched else 0
      ensures write ==> forall i :: 0 <= i < |sessions| ==>
                sessions[i] == RetagSession(codec, old(sessions)[i], source, target)
      ensures !write ==> sessions == old(sessions)
    {
      matched, updated := 0, 0;
      for n := 0 to |sessions|
        invariant |sessions| == |old(sessions)| && updated == if write then matched else 0
        invariant write ==> forall i :: 0 <= i < n ==>
                    sessions[i] == RetagSession(codec, old(sessions)[i], source, target)
        invariant forall i :: n <= i < |sessions| ==> sessions[i] == old(sessions)[i]
        invariant matched == MatchedFiles(codec, old(sessions)[..n], source)
        invariant !write ==> sessions == old(sessions)
      {
        assert old(sessions)[..n + 1][..n] == old(sessions)[..n];
        if Contains(codec, sessions[n], source) {
          matched := matched + 1;
          if write {
            ghost var k :| 0 <= k < |sessions[n]| && LineProvider(codec, sessions[n][k]) == Some(source);
            RetagLineProvider(codec, sessions[n][k], source, target);
            var result, changed := RetagFile(codec, sessions[n], source, target);
            sessions := sessions[n := result];
            if changed {
              updated := updated + 1;
            }
          }
        }
      }
      assert old(sessions)[..|old(sessions)|] == old(sessions);
    }

    method RetagDatabases(source: string, target: string, write: bool) returns (matched: nat, updated: nat)
      modifies this`dbs
      ensures matched == CountDbs(old(dbs), source)
      ensures |dbs| == |old(dbs)| && updated == if write then matched else 0
      ensures write ==> forall i :: 0 <= i < |dbs| ==> dbs[i] == RetagDb(old(dbs)[i], source, target)
      ensures !write ==> dbs == old(dbs)
    {
      matched, updated := 0, 0;
      for n := 0 to |dbs|
        invariant |dbs| == |old(dbs)| && updated == if write then matched else 0
        invariant matched == CountDbs(old(dbs)[..n], source)
        invariant write ==> forall i :: 0 <= i < n ==> dbs[i] == RetagDb(old(dbs)[i], source, target)
        invariant forall i :: n <= i < |dbs| ==> dbs[i] == old(dbs)[i]
        invariant !write ==> dbs == old(dbs)
      {
        assert old(dbs)[..n + 1][..n] == old(dbs)[..n];
        var rows := CountDb(dbs[n], source);
        matched := matched + rows;
        if rows > 0 && write {
          dbs := dbs[n := Threads(RetagRows(dbs[n].rows, source, target))];
          updated := updated + rows;
        }
      }
      assert old(dbs)[..|old(dbs)|] == old(dbs);
    }

    /** `retag_codex_sessions` on normalized provider names. */
    method Retag(codec: Codec, source: string, target: string, dryRun: bool) returns (outcome: Outcome)
      requires codec.Lawful()
      modifies this
      ensures outcome.Ok? <==> (source, target) == ("openai", "codex-lb") || (source, target) == ("codex-lb", "openai")
      ensures outcome.Err? || dryRun ==> Contents() == old(Contents())
      ensures outcome.Ok? && !dryRun ==> Contents() == RetagHome(codec, old(Contents()), source, target)
      ensures outcome.Ok? ==> CountsAre(outcome.report.before, codec, old(Contents()))
      ensures outcome.Ok? ==> CountsAre(outcome.report.after, codec, Contents())
      ensures outcome.Ok? ==> outcome.report.filesMatched == MatchedFiles(codec, old(sessions), source)
      ensures outcome.Ok? ==> outcome.report.rowsMatched == CountDbs(old(dbs), source)
      ensures outcome.Ok? ==> outcome.report.filesUpdated == if dryRun then 0 else outcome.report.filesMatched
      ensures outcome.Ok? ==> outcome.report.rowsUpdated == if dryRun then 0 else outcome.report.rowsMatched
    {
      if source == target {
        return Err(SameProviders);
      }
      if !Supported(source) || !Supported(target) {
        return Err(UnsupportedProvider);
      }
      var before := ProviderCounts(codec);
      var files, filesUpdated := RetagSessionFiles(codec, source, target, !dryRun);
      var rows, rowsUpdated := RetagDatabases(source, target, !dryRun);
      assert !dryRun ==> Contents() == RetagHome(codec, old(Contents()), source, target);
      var after := before;
      if !dryRun {
        after := ProviderCounts(codec);
      }
      return Ok(Report(files, filesUpdated, rows, rowsUpdated, before, after));
    }
  }

  function Look(m: map<string, nat>, k: string): nat {
    if k in m then m[k] else 0
  }
}
