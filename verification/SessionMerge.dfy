/** Two routes from parsed Claude session files to sessions (`sessions.py`): the live loader
    merges files pairwise and renumbers each time; the stored-record loader removes
    duplicates in one pass and sorts once.  They are proved to agree. */
module SessionMerge {

  import opened Options

  /** The identity of a turn (`_turn_identity_key`; `cost` rounded to eight places). */
  datatype TurnKey = TurnKey(timestamp: int, model: string, tokensIn: int, tokensCache: int, tokensOut: int,
      tokensReasoning: int, cost: int)

  /** `detail` is whatever else the turn carries, such as its unrounded cost. */
  datatype Turn = Turn(key: TurnKey, index: int, detail: int)

  datatype Session = Session(id: string, project: string, name: string, turns: seq<Turn>)

  const UNKNOWN := "unknown"

  // ----- Duplicates -----

  function Keys(turns: seq<Turn>): set<TurnKey> {
    set t <- turns :: t.key
  }

  /** The turns whose key is not in `seen` and has not occurred before. */
  function Fresh(turns: seq<Turn>, seen: set<TurnKey>): seq<Turn> {
    if turns == [] then []
    else if turns[0].key in seen then Fresh(turns[1..], seen)
    else [turns[0]] + Fresh(turns[1..], seen + {turns[0].key})
  }

  predicate DistinctKeys(turns: seq<Turn>) {
    forall i, j :: 0 <= i < j < |turns| ==> turns[i].key != turns[j].key
  }

  lemma {:induction false} FreshKeys(turns: seq<Turn>, seen: set<TurnKey>)
    ensures Keys(Fresh(turns, seen)) == Keys(turns) - seen && DistinctKeys(Fresh(turns, seen))
    decreases |turns|
  {
    if turns != [] {
      assert turns == [turns[0]] + turns[1..];
      assert Keys(turns) == {turns[0].key} + Keys(turns[1..]);
      if turns[0].key in seen {
        FreshKeys(turns[1..], seen);
      } else {
        var rest := Fresh(turns[1..], seen + {turns[0].key});
        FreshKeys(turns[1..], seen + {turns[0].key});
        assert Keys([turns[0]] + rest) == {turns[0].key} + Keys(rest);
        forall i | 0 <= i < |rest| ensures rest[i].key != turns[0].key {
          assert rest[i].key in Keys(rest);
        }
      }
    }
  }

  /** Turn `i` is the first with its identity, and that is not among `seen`. */
  ghost predicate FirstAt(turns: seq<Turn>, seen: set<TurnKey>, i: nat)
    requires i < |turns|
  {
    turns[i].key !in seen && forall j :: 0 <= j < i ==> turns[j].key != turns[i].key
  }

  /** Exactly the first occurrences of new identities are kept, unchanged and in their order: their
      positions are `at`. */
  lemma {:induction false} FreshAreFirst(turns: seq<Turn>, seen: set<TurnKey>) returns (at: seq<nat>)
    ensures |at| == |Fresh(turns, seen)|
    ensures forall k :: 0 <= k < |at| ==> at[k] < |turns| && Fresh(turns, seen)[k] == turns[at[k]]
    ensures forall k, l :: 0 <= k < l < |at| ==> at[k] < at[l]
    ensures forall i: nat :: i < |turns| ==> (i in at <==> FirstAt(turns, seen, i))
    decreases |turns|
  {
    at := [];
    if turns != [] {
      var init, last := turns[..|turns| - 1], turns[|turns| - 1];
      assert turns == init + [last];
      at := FreshAreFirst(init, seen);
      FreshConcat(init, [last], seen);
      FirstInInit(init, last, seen);
      if last.key !in seen + Keys(init) {
        at := at + [|init|];
      }
    }
  }

  lemma FirstInInit(init: seq<Turn>, last: Turn, seen: set<TurnKey>)
    ensures forall i: nat :: i < |init| ==> (FirstAt(init + [last], seen, i) <==> FirstAt(init, seen, i))
    ensures FirstAt(init + [last], seen, |init|) <==> last.key !in seen + Keys(init)
  {
    var turns := init + [last];
    assert forall j :: 0 <= j < |init| ==> turns[j] == init[j] && init[j].key in Keys(init);
    if last.key in Keys(init) {
      var t :| t in init && t.key == last.key;
      var j :| 0 <= j < |init| && init[j] == t;
      assert turns[j].key == turns[|init|].key;
    }
  }

  lemma {:induction false} FreshConcat(a: seq<Turn>, b: seq<Turn>, seen: set<TurnKey>)
    ensures Fresh(a + b, seen) == Fresh(a, seen) + Fresh(b, seen + Keys(a))
    decreases |a|
  {
    if a == [] {
      assert a + b == b && seen + Keys(a) == seen;
    } else {
      assert (a + b)[1..] == a[1..] + b;
      assert a == [a[0]] + a[1..];
      assert Keys(a) == {a[0].key} + Keys(a[1..]);
      if a[0].key in seen {
        FreshConcat(a[1..], b, seen);
        assert seen + Keys(a) == seen + Keys(a[1..]);
      } else {
        FreshConcat(a[1..], b, seen + {a[0].key});
        assert seen + Keys(a) == seen + {a[0].key} + Keys(a[1..]);
      }
    }
  }

  lemma {:induction false} FreshOfDistinct(turns: seq<Turn>, seen: set<TurnKey>)
    requires DistinctKeys(turns) && Keys(turns) !! seen
    ensures Fresh(turns, seen) == turns
    decreases |turns|
  {
    if turns != [] {
      assert turns[0].key in Keys(turns);
      forall k | k in Keys(turns[1..]) ensures k !in seen + {turns[0].key} {
        var t :| t in turns[1..] && t.key == k;
        assert t in turns;
      }
      FreshOfDistinct(turns[1..], seen + {turns[0].key});
    }
  }

  // ----- Sorting and numbering -----

  /** Python's sort key: timestamp, then turn index. */
  predicate Before(a: Turn, b: Turn) {
    a.key.timestamp < b.key.timestamp || (a.key.timestamp == b.key.timestamp && a.index <= b.index)
  }

  /** Stable insertion of a turn that came after all of `sorted`. */
  function Insert(sorted: seq<Turn>, t: Turn): seq<Turn> {
    if sorted == [] || Before(sorted[|sorted| - 1], t) then sorted + [t]
    else Insert(sorted[..|sorted| - 1], t) + [sorted[|sorted| - 1]]
  }

  function Sort(turns: seq<Turn>): seq<Turn> {
    if turns == [] then [] else Insert(Sort(turns[..|turns| - 1]), turns[|turns| - 1])
  }

  function Renumber(turns: seq<Turn>): seq<Turn> {
    seq(|turns|, i requires 0 <= i < |turns| => turns[i].(index := i + 1))
  }

  /** A turn apart from its number. */
  function Strip(turns: seq<Turn>): seq<Turn> {
    seq(|turns|, i requires 0 <= i < |turns| => turns[i].(index := 0))
  }

  predicate InTimeOrder(turns: seq<Turn>) {
    forall i, j :: 0 <= i < j < |turns| ==> turns[i].key.timestamp <= turns[j].key.timestamp
  }

  predicate Numbered(turns: seq<Turn>) {
    forall i :: 0 <= i < |turns| ==> turns[i].index == i + 1
  }

  predicate SortedTurns(turns: seq<Turn>) {
    forall i, j :: 0 <= i < j < |turns| ==> Before(turns[i], turns[j])
  }

  lemma StripConcat(a: seq<Turn>, b: seq<Turn>)
    ensures Strip(a + b) == Strip(a) + Strip(b)
  {
  }

  lemma {:induction false} InsertContents(sorted: seq<Turn>, t: Turn)
    ensures forall x <- Insert(sorted, t) :: x == t || x in sorted
    ensures multiset(Strip(Insert(sorted, t))) == multiset(Strip(sorted)) + multiset{t.(index := 0)}
    decreases |sorted|
  {
    if sorted == [] || Before(sorted[|sorted| - 1], t) {
      StripConcat(sorted, [t]);
      assert Strip([t]) == [t.(index := 0)];
    } else {
      var init, last := sorted[..|sorted| - 1], sorted[|sorted| - 1];
      assert sorted == init + [last];
      InsertContents(init, t);
      StripConcat(Insert(init, t), [last]);
      StripConcat(init, [last]);
      assert Strip([last]) == [last.(index := 0)];
    }
  }

  lemma {:induction false} InsertSorts(sorted: seq<Turn>, t: Turn)
    requires SortedTurns(sorted)
    ensures SortedTurns(Insert(sorted, t))
    decreases |sorted|
  {
    if sorted != [] {
      var init, last := sorted[..|sorted| - 1], sorted[|sorted| - 1];
      if Before(last, t) {
        assert forall i :: 0 <= i < |init| ==> Before(sorted[i], last);
      } else {
        InsertSorts(init, t);
        InsertContents(init, t);
        var out := Insert(init, t);
        forall i | 0 <= i < |out| ensures Before(out[i], last) {
          assert out[i] in out;
          if out[i] != t {
            var k :| 0 <= k < |init| && init[k] == out[i];
            assert Before(sorted[k], sorted[|init|]);
          }
        }
      }
    }
  }

  lemma {:induction false} SortSorts(turns: seq<Turn>)
    ensures SortedTurns(Sort(turns))
    ensures multiset(Strip(Sort(turns))) == multiset(Strip(turns))
    decreases |turns|
  {
    if turns != [] {
      var init, last := turns[..|turns| - 1], turns[|turns| - 1];
      assert turns == init + [last];
      SortSorts(init);
      InsertSorts(Sort(init), last);
      InsertContents(Sort(init), last);
      StripConcat(init, [last]);
      assert Strip([last]) == [last.(index := 0)];
    }
  }

  /** The turns with one timestamp and one number, in their order. */
  ghost function Ties(turns: seq<Turn>, timestamp: int, index: int): seq<Turn> {
    if turns == [] then []
    else
      var last := turns[|turns| - 1];
      Ties(turns[..|turns| - 1], timestamp, index) +
      if last.key.timestamp == timestamp && last.index == index then [last] else []
  }

  lemma {:induction false} InsertTies(sorted: seq<Turn>, t: Turn, timestamp: int, index: int)
    requires SortedTurns(sorted)
    ensures Ties(Insert(sorted, t), timestamp, index) == Ties(sorted + [t], timestamp, index)
    decreases |sorted|
  {
    assert (sorted + [t])[..|sorted|] == sorted;
    if sorted != [] && !Before(sorted[|sorted| - 1], t) {
      var init, last := sorted[..|sorted| - 1], sorted[|sorted| - 1];
      InsertTies(init, t, timestamp, index);
      assert (init + [t])[..|init|] == init;
      assert (Insert(init, t) + [last])[..|Insert(init, t)|] == Insert(init, t);
    }
  }

  /** The order is by time and then by number. */
  lemma SortOrder(turns: seq<Turn>, i: nat, j: nat)
    requires i < j < |Sort(turns)|
    ensures var a, b := Sort(turns)[i], Sort(turns)[j];
            a.key.timestamp < b.key.timestamp || (a.key.timestamp == b.key.timestamp && a.index <= b.index)
  {
    SortSorts(turns);
    assert Before(Sort(turns)[i], Sort(turns)[j]);
  }

  /** Turns that tie in time and number keep their order. */
  lemma {:induction false} SortIsStable(turns: seq<Turn>, timestamp: int, index: int)
    ensures Ties(Sort(turns), timestamp, index) == Ties(turns, timestamp, index)
    decreases |turns|
  {
    if turns != [] {
      var init, last := turns[..|turns| - 1], turns[|turns| - 1];
      SortIsStable(init, timestamp, index);
      SortSorts(init);
      InsertTies(Sort(init), last, timestamp, index);
      assert (Sort(init) + [last])[..|Sort(init)|] == Sort(init);
    }
  }

  lemma {:induction false} SameStrippedSameKeys(a: seq<Turn>, b: seq<Turn>)
    requires multiset(Strip(a)) == multiset(Strip(b))
    ensures Keys(a) == Keys(b) && |a| == |b|
  {
    assert |multiset(Strip(a))| == |Strip(a)| && |multiset(Strip(b))| == |Strip(b)|;
    KeysFromStrip(a, b);
    KeysFromStrip(b, a);
  }

  lemma KeysFromStrip(a: seq<Turn>, b: seq<Turn>)
    requires multiset(Strip(a)) == multiset(Strip(b))
    ensures Keys(a) <= Keys(b)
  {
    forall k | k in Keys(a) ensures k in Keys(b) {
      var t :| t in a && t.key == k;
      var i :| 0 <= i < |a| && a[i] == t;
      assert Strip(a)[i] in multiset(Strip(b));
      var j :| 0 <= j < |b| && Strip(b)[j] == Strip(a)[i];
      assert b[j] in b && b[j].key == k;
    }
  }

  lemma {:induction false} KeysAtMost(turns: seq<Turn>)
    ensures |Keys(turns)| <= |turns|
  {
    if turns != [] {
      var init, last := turns[..|turns| - 1], turns[|turns| - 1];
      assert turns == init + [last];
      KeysAtMost(init);
      assert Keys(turns) == Keys(init) + {last.key};
    }
  }

  lemma LastIsNew(init: seq<Turn>, last: Turn)
    requires DistinctKeys(init + [last])
    ensures DistinctKeys(init) && last.key !in Keys(init)
  {
    var turns := init + [last];
    assert forall i :: 0 <= i < |init| ==> turns[i] == init[i];
    forall t <- init ensures t.key != last.key {
      var i :| 0 <= i < |init| && init[i] == t;
      assert turns[i].key != turns[|init|].key;
    }
  }

  lemma {:induction false} DistinctSize(turns: seq<Turn>)
    requires DistinctKeys(turns)
    ensures |Keys(turns)| == |turns|
  {
    if turns != [] {
      var init, last := turns[..|turns| - 1], turns[|turns| - 1];
      assert turns == init + [last];
      LastIsNew(init, last);
      DistinctSize(init);
      assert Keys(turns) == Keys(init) + {last.key};
    }
  }

  lemma SizeDistinct(turns: seq<Turn>)
    requires |Keys(turns)| == |turns|
    ensures DistinctKeys(turns)
  {
    forall i, j | 0 <= i < j < |turns| ensures turns[i].key != turns[j].key {
      if turns[i].key == turns[j].key {
        var fewer := turns[..j] + turns[j + 1..];
        forall k | k in Keys(turns) ensures k in Keys(fewer) {
          var n :| 0 <= n < |turns| && turns[n].key == k;
          assert fewer[if n == j then i else if n < j then n else n - 1] in fewer;
        }
        assert Keys(fewer) == Keys(turns);
        KeysAtMost(fewer);
        assert false;
      }
    }
  }

  /** Distinct keys survive reordering and renumbering. */
  lemma DistinctSurvives(a: seq<Turn>, b: seq<Turn>)
    requires DistinctKeys(a) && multiset(Strip(a)) == multiset(Strip(b))
    ensures DistinctKeys(b)
  {
    SameStrippedSameKeys(a, b);
    DistinctSize(a);
    SizeDistinct(b);
  }

  // ----- The live route -----

  function Renumbered(turns: seq<Turn>): seq<Turn> {
    Renumber(Sort(Fresh(turns, {})))
  }

  /** `_merge_raw_session`; `fallback` stands for `_fallback_display_name`. */
  function Merge(existing: Session, incoming: Session, fallback: (string, string) -> string): Session {
    var project := if existing.project != UNKNOWN then existing.project else incoming.project;
    var name := if existing.name != "" then existing.name else incoming.name;
    Session(existing.id, project, if name != "" then name else fallback(existing.id, project),
            Renumbered(existing.turns + incoming.turns))
  }

  /** A merge keeps a known project and a title, takes the incoming ones where they are missing, and
      falls back to a title made up for the session only where both titles are missing. */
  lemma MergedTitle(existing: Session, incoming: Session, fallback: (string, string) -> string)
    ensures var merged := Merge(existing, incoming, fallback);
            && merged.id == existing.id
            && (existing.project != "unknown" ==> merged.project == existing.project)
            && (existing.project == "unknown" ==> merged.project == incoming.project)
            && (existing.name != "" ==> merged.name == existing.name)
            && (existing.name == "" && incoming.name != "" ==> merged.name == incoming.name)
            && (existing.name == "" && incoming.name == "" ==> merged.name == fallback(existing.id, merged.project))
  {
  }

  /** The loop of `_merge_raw_session` that drops repeated turns. */
  method MergeRawSession(existing: Session, incoming: Session, fallback: (string, string) -> string)
    returns (merged: Session)
    ensures merged == Merge(existing, incoming, fallback)
  {
    var turns := existing.turns + incoming.turns;
    var mergedTurns := DropRepeated(turns, [], {});
    var project := if existing.project != UNKNOWN then existing.project else incoming.project;
    var name := if existing.name != "" then existing.name else incoming.name;
    if name == "" {
      name := fallback(existing.id, project);
    }
    assert [] + Fresh(turns, {}) == Fresh(turns, {});
    merged := Session(existing.id, project, name, Renumber(Sort(mergedTurns)));
  }

  /** Append the turns not seen before. */
  method DropRepeated(turns: seq<Turn>, kept: seq<Turn>, seen: set<TurnKey>) returns (result: seq<Turn>)
    ensures result == kept + Fresh(turns, seen)
  {
    result := kept;
    var known := seen;
    for n := 0 to |turns|
      invariant result + Fresh(turns[n..], known) == kept + Fresh(turns, seen)
    {
      var t := turns[n];
      assert turns[n..][0] == t && turns[n..][1..] == turns[n + 1..];
      if t.key !in known {
        known := known + {t.key};
        assert result + ([t] + Fresh(turns[n + 1..], known)) == result + [t] + Fresh(turns[n + 1..], known);
        result := result + [t];
      }
    }
    assert turns[|turns|..] == [];
  }

  /** What the live route holds for a session after the given files. */
  ghost function LiveOf(files: seq<Session>, id: string, fallback: (string, string) -> string): Option<Session> {
    if files == [] then None
    else
      var before, raw := LiveOf(files[..|files| - 1], id, fallback), files[|files| - 1];
      if raw.id != id then before
      else if before.None? then Some(raw)
      else Some(Merge(before.value, raw, fallback))
  }

  /** `_load_claude_sessions` over the parsed files in path order. */
  method LoadClaudeSessions(files: seq<Session>, fallback: (string, string) -> string)
    returns (sessions: map<string, Session>)
    ensures forall id :: (if id in sessions then Some(sessions[id]) else None) == LiveOf(files, id, fallback)
  {
    sessions := map[];
    for n := 0 to |files|
      invariant forall id :: (if id in sessions then Some(sessions[id]) else None) == LiveOf(files[..n], id, fallback)
    {
      var raw := files[n];
      assert files[..n + 1][..n] == files[..n];
      if raw.id in sessions {
        var merged := MergeRawSession(sessions[raw.id], raw, fallback);
        sessions := sessions[raw.id := merged];
      } else {
        sessions := sessions[raw.id := raw];
      }
    }
    assert files[..|files|] == files;
  }

  // ----- The stored route -----

  /** All turns of a session, file after file. */
  ghost function AllTurns(files: seq<Session>, id: string): seq<Turn> {
    if files == [] then []
    else AllTurns(files[..|files| - 1], id) + if files[|files| - 1].id == id then files[|files| - 1].turns else []
  }

  /** The first project that is known. */
  ghost function ProjectOf(files: seq<Session>, id: string): Option<string> {
    if files == [] then None
    else
      var before, raw := ProjectOf(files[..|files| - 1], id), files[|files| - 1];
      if raw.id != id then before
      else if before.None? then Some(if raw.project != "" then raw.project else UNKNOWN)
      else if before.value == UNKNOWN && raw.project != "" then Some(raw.project)
      else before
  }

  ghost function NameOf(files: seq<Session>, id: string): Option<string> {
    if files == [] then None
    else
      var before, raw := NameOf(files[..|files| - 1], id), files[|files| - 1];
      if raw.id == id && before.None? then Some(raw.name) else before
  }

  ghost function Name(files: seq<Session>, id: string): string {
    if NameOf(files, id).Some? then NameOf(files, id).value else ""
  }

  ghost predicate KnownAt(files: seq<Session>, id: string, i: nat)
    requires i < |files|
  {
    files[i].id == id && files[i].project != "" && files[i].project != "unknown"
  }

  /** While no file of a session knows its project, it is "unknown", once there is a file at all. */
  lemma {:induction false} NoProjectKnown(files: seq<Session>, id: string)
    requires forall j :: 0 <= j < |files| ==> !KnownAt(files, id, j)
    ensures ProjectOf(files, id) == if exists f <- files :: f.id == id then Some("unknown") else None
    decreases |files|
  {
    if files != [] {
      var init, raw := files[..|files| - 1], files[|files| - 1];
      assert files == init + [raw];
      assert forall j :: 0 <= j < |init| ==> (KnownAt(init, id, j) <==> KnownAt(files, id, j));
      assert !KnownAt(files, id, |init|);
      NoProjectKnown(init, id);
    }
  }

  /** A session's project is that of the first of its files that knows one. */
  lemma {:induction false} FirstKnownProject(files: seq<Session>, id: string, i: nat)
    requires i < |files| && KnownAt(files, id, i) && forall j :: 0 <= j < i ==> !KnownAt(files, id, j)
    ensures ProjectOf(files, id) == Some(files[i].project)
    decreases |files|
  {
    var init, raw := files[..|files| - 1], files[|files| - 1];
    assert forall j :: 0 <= j < |init| ==> (KnownAt(init, id, j) <==> KnownAt(files, id, j));
    if i < |init| {
      FirstKnownProject(init, id, i);
    } else {
      NoProjectKnown(init, id);
    }
  }

  /** A session's title is that of its first file. */
  lemma {:induction false} FirstTitle(files: seq<Session>, id: string, i: nat)
    requires i < |files| && files[i].id == id && forall j :: 0 <= j < i ==> files[j].id != id
    ensures NameOf(files, id) == Some(files[i].name)
    decreases |files|
  {
    var init := files[..|files| - 1];
    assert forall j :: 0 <= j < |init| ==> init[j] == files[j];
    if i < |init| {
      FirstTitle(init, id, i);
    } else {
      NoTitle(init, id);
    }
  }

  lemma {:induction false} NoTitle(files: seq<Session>, id: string)
    requires forall f <- files :: f.id != id
    ensures NameOf(files, id) == None
    decreases |files|
  {
    if files != [] {
      assert files[|files| - 1] in files && forall f <- files[..|files| - 1] :: f in files;
      NoTitle(files[..|files| - 1], id);
    }
  }

  lemma {:induction false} SeenTogether(files: seq<Session>, id: string)
    ensures ProjectOf(files, id).Some? <==> NameOf(files, id).Some?
    ensures ProjectOf(files, id).None? ==> AllTurns(files, id) == []
  {
    if files != [] {
      SeenTogether(files[..|files| - 1], id);
    }
  }

  lemma GatherStep(files: seq<Session>, raw: Session)
    ensures AllTurns(files + [raw], raw.id) == AllTurns(files, raw.id) + raw.turns
    ensures Fresh(AllTurns(files + [raw], raw.id), {}) ==
              Fresh(AllTurns(files, raw.id), {}) + Fresh(raw.turns, Keys(AllTurns(files, raw.id)))
    ensures Keys(AllTurns(files + [raw], raw.id)) == Keys(AllTurns(files, raw.id)) + Keys(raw.turns)
    ensures forall id :: id != raw.id ==>
              AllTurns(files + [raw], id) == AllTurns(files, id) &&
                  ProjectOf(files + [raw], id) == ProjectOf(files, id) && Name(files + [raw], id) == Name(files, id)
  {
    assert (files + [raw])[..|files|] == files;
    FreshConcat(AllTurns(files, raw.id), raw.turns, {});
    assert {} + Keys(AllTurns(files, raw.id)) == Keys(AllTurns(files, raw.id));
    forall id | id != raw.id ensures AllTurns(files + [raw], id) == AllTurns(files, id) {
      assert AllTurns(files, id) + [] == AllTurns(files, id);
    }
  }

  /** The knowledge about one session that `Gathered` asks for. */
  ghost predicate GatheredOne(files: seq<Session>, id: string, session: Session, seen: set<TurnKey>) {
    && session.id == id && ProjectOf(files, id) == Some(session.project) && session.name == Name(files, id)
    && session.turns == Fresh(AllTurns(files, id), {})
    && seen == Keys(AllTurns(files, id))
  }

  /** One record of the gathering loop. */
  method AddRecord(raw: Session, existing: Option<(Session, set<TurnKey>)>, ghost files: seq<Session>)
    returns (session: Session, seen: set<TurnKey>)
    requires existing.None? ==> ProjectOf(files, raw.id) == None
    requires existing.Some? ==> GatheredOne(files, raw.id, existing.value.0, existing.value.1)
    ensures GatheredOne(files + [raw], raw.id, session, seen)
  {
    GatherStep(files, raw);
    SeenTogether(files, raw.id);
    assert (files + [raw])[..|files|] == files;
    if existing.None? {
      session := Session(raw.id, if raw.project != "" then raw.project else UNKNOWN, raw.name, []);
      seen := {};
      assert AllTurns(files, raw.id) == [] && Keys(AllTurns(files, raw.id)) == seen;
      assert Fresh(AllTurns(files, raw.id), {}) == [];
    } else {
      session, seen := existing.value.0, existing.value.1;
      if session.project == UNKNOWN && raw.project != "" {
        session := session.(project := raw.project);
      }
    }
    var turns := DropRepeated(raw.turns, session.turns, seen);
    session := session.(turns := turns);
    seen := seen + Keys(raw.turns);
  }

  method Gather(files: seq<Session>) returns (sessions: map<string, Session>)
    ensures forall id :: id in sessions <==> id != "" && ProjectOf(files, id).Some?
    ensures forall id :: id in sessions ==> GatheredOne(files, id, sessions[id], Keys(AllTurns(files, id)))
  {
    sessions := map[];
    var seen: map<string, set<TurnKey>> := map[];
    for n := 0 to |files|
      invariant sessions.Keys == seen.Keys
      invariant forall id :: id in sessions <==> id != "" && ProjectOf(files[..n], id).Some?
      invariant forall id :: id in sessions ==> GatheredOne(files[..n], id, sessions[id], seen[id])
    {
      var raw := files[n];
      assert files[..n + 1] == files[..n] + [raw] && files[..n + 1][..n] == files[..n];
      GatherStep(files[..n], raw);
      if raw.id != "" {
        var existing := if raw.id in sessions then Some((sessions[raw.id], seen[raw.id])) else None;
        var session, keys := AddRecord(raw, existing, files[..n]);
        sessions, seen := sessions[raw.id := session], seen[raw.id := keys];
      }
    }
    assert files[..|files|] == files;
  }

  /** `_session_records_to_raw_sessions` for Claude records in path order. */
  method SessionRecordsToRawSessions(files: seq<Session>) returns (sessions: map<string, Session>)
    ensures forall id :: id in sessions <==> id != "" && ProjectOf(files, id).Some?
    ensures forall id :: id in sessions ==>
              sessions[id] == Session(id, ProjectOf(files, id).value, Name(files, id), Renumbered(AllTurns(files, id)))
  {
    var gathered := Gather(files);
    sessions := map id | id in gathered :: gathered[id].(turns := Renumber(Sort(gathered[id].turns)));
  }

  // ----- Agreement -----

  /** What the parser hands over: a non-empty id, project and title, and turns in time order,
      numbered from one.  An identity may repeat. */
  ghost predicate Parsed(raw: Session) {
    raw.id != "" && raw.project != "" && raw.name != "" && ParsedTurns(raw.turns)
  }

  ghost predicate ParsedTurns(turns: seq<Turn>) {
    InTimeOrder(turns) && Numbered(turns)
  }

  lemma RenumberedIs(turns: seq<Turn>)
    ensures var r := Renumbered(turns);
            && InTimeOrder(r) && Numbered(r) && DistinctKeys(r)
            && multiset(Strip(r)) == multiset(Strip(Fresh(turns, {})))
  {
    var once := Fresh(turns, {});
    var r := Renumbered(turns);
    SortSorts(once);
    assert Strip(r) == Strip(Sort(once));
    FreshKeys(turns, {});
    DistinctSurvives(once, r);
    assert forall i :: 0 <= i < |r| ==> r[i].key == Sort(once)[i].key;
  }

  /** Merging one more file keeps the live turns a rearrangement of the one-pass turns. */
  lemma MergeTurns(live: seq<Turn>, all: seq<Turn>, incoming: seq<Turn>)
    requires DistinctKeys(live) && multiset(Strip(live)) == multiset(Strip(Fresh(all, {})))
    ensures multiset(Strip(Fresh(live + incoming, {}))) == multiset(Strip(Fresh(all + incoming, {})))
  {
    SameStrippedSameKeys(live, Fresh(all, {}));
    FreshKeys(all, {});
    assert Keys(all) - {} == Keys(all);
    FreshOfDistinct(live, {});
    var more := Fresh(incoming, Keys(all));
    FreshAppend(live, incoming);
    FreshAppend(all, incoming);
    StripConcat(live, more);
    StripConcat(Fresh(all, {}), more);
  }

  lemma FreshAppend(a: seq<Turn>, b: seq<Turn>)
    ensures Fresh(a + b, {}) == Fresh(a, {}) + Fresh(b, Keys(a))
  {
    FreshConcat(a, b, {});
    assert {} + Keys(a) == Keys(a);
  }

  /** The turn lists of a session's files, in path order. */
  ghost function Parts(files: seq<Session>, id: string): seq<seq<Turn>> {
    if files == [] then []
    else Parts(files[..|files| - 1], id) + if files[|files| - 1].id == id then [files[|files| - 1].turns] else []
  }

  ghost function Flat(parts: seq<seq<Turn>>): seq<Turn> {
    if parts == [] then [] else Flat(parts[..|parts| - 1]) + parts[|parts| - 1]
  }

  /** The live route on the turns alone. */
  ghost function LiveTurns(parts: seq<seq<Turn>>): seq<Turn>
    requires parts != []
  {
    if |parts| == 1 then parts[0] else Renumbered(LiveTurns(parts[..|parts| - 1]) + parts[|parts| - 1])
  }

  ghost predicate AgreesWith(live: Session, files: seq<Session>, id: string) {
    && live.id == id && ProjectOf(files, id) == Some(live.project) && live.name != "" && live.name == Name(files, id)
    && Parts(files, id) != [] && live.turns == LiveTurns(Parts(files, id))
  }

  lemma SnocParts(parts: seq<seq<Turn>>, turns: seq<Turn>)
    ensures Flat(parts + [turns]) == Flat(parts) + turns
    ensures LiveTurns(parts + [turns]) == if parts == [] then turns else Renumbered(LiveTurns(parts) + turns)
  {
    assert (parts + [turns])[..|parts|] == parts;
  }

  lemma {:induction false} PartsAre(files: seq<Session>, id: string)
    requires forall f <- files :: Parsed(f)
    ensures ProjectOf(files, id).Some? <==> Parts(files, id) != []
    ensures AllTurns(files, id) == Flat(Parts(files, id))
    ensures forall part <- Parts(files, id) :: ParsedTurns(part)
    decreases |files|
  {
    if files != [] {
      var init, raw := files[..|files| - 1], files[|files| - 1];
      assert files == init + [raw] && raw in files && forall f <- init :: f in files;
      PartsAre(init, id);
      if raw.id == id {
        SnocParts(Parts(init, id), raw.turns);
      } else {
        assert Parts(files, id) == Parts(init, id) && AllTurns(files, id) == AllTurns(init, id);
      }
    }
  }

  lemma {:induction false} LiveAgrees(files: seq<Session>, id: string, fallback: (string, string) -> string)
    requires forall f <- files :: Parsed(f)
    ensures LiveOf(files, id, fallback).Some? <==> Parts(files, id) != []
    ensures LiveOf(files, id, fallback).Some? ==> AgreesWith(LiveOf(files, id, fallback).value, files, id)
    decreases |files|
  {
    if files != [] {
      var init, raw := files[..|files| - 1], files[|files| - 1];
      assert files == init + [raw] && raw in files && forall f <- init :: f in files;
      LiveAgrees(init, id, fallback);
      if raw.id == id {
        OneMoreFile(init, raw, fallback);
      } else {
        OtherFile(init, raw, id);
      }
    }
  }

  /** A file of another session changes nothing for this one. */
  lemma OtherFile(init: seq<Session>, raw: Session, id: string)
    requires raw.id != id
    ensures Parts(init + [raw], id) == Parts(init, id)
    ensures ProjectOf(init + [raw], id) == ProjectOf(init, id) && Name(init + [raw], id) == Name(init, id)
  {
    assert (init + [raw])[..|init|] == init;
  }

  lemma LiveSnoc(init: seq<Session>, raw: Session, fallback: (string, string) -> string)
    ensures var before := LiveOf(init, raw.id, fallback);
            LiveOf(init + [raw], raw.id, fallback) ==
            Some(if before.None? then raw else Merge(before.value, raw, fallback))
  {
    assert (init + [raw])[..|init|] == init;
  }

  lemma PartsSnoc(init: seq<Session>, raw: Session)
    ensures Parts(init + [raw], raw.id) == Parts(init, raw.id) + [raw.turns]
  {
    assert (init + [raw])[..|init|] == init;
  }

  /** Project and title after one more file of the session. */
  lemma TitleSnoc(init: seq<Session>, raw: Session)
    requires raw.project != ""
    ensures var before := ProjectOf(init, raw.id);
            && ProjectOf(init + [raw], raw.id) ==
               (if before.None? || before.value == UNKNOWN then Some(raw.project) else before)
            && Name(init + [raw], raw.id) == (if before.None? then raw.name else Name(init, raw.id))
  {
    assert (init + [raw])[..|init|] == init;
    SeenTogether(init, raw.id);
  }

  /** One more file of the session. */
  lemma OneMoreFile(init: seq<Session>, raw: Session, fallback: (string, string) -> string)
    requires (forall f <- init :: Parsed(f)) && Parsed(raw)
    requires LiveOf(init, raw.id, fallback).Some? <==> Parts(init, raw.id) != []
    requires LiveOf(init, raw.id, fallback).Some? ==> AgreesWith(LiveOf(init, raw.id, fallback).value, init, raw.id)
    ensures LiveOf(init + [raw], raw.id, fallback).Some?
    ensures AgreesWith(LiveOf(init + [raw], raw.id, fallback).value, init + [raw], raw.id)
  {
    LiveSnoc(init, raw, fallback);
    PartsSnoc(init, raw);
    TitleSnoc(init, raw);
    SnocParts(Parts(init, raw.id), raw.turns);
    assert ProjectOf(init, raw.id).Some? <==> Parts(init, raw.id) != [] by {
      PartsAre(init, raw.id);
    }
  }

  /** The turns of the live route: in time order and numbered, and with two files or more each
      turn once and exactly the turns of all files. */
  lemma {:induction false} LiveTurnsAre(parts: seq<seq<Turn>>)
    requires parts != [] && forall part <- parts :: ParsedTurns(part)
    ensures InTimeOrder(LiveTurns(parts)) && Numbered(LiveTurns(parts))
    ensures |parts| >= 2 ==> DistinctKeys(LiveTurns(parts))
    ensures |parts| >= 2 ==> multiset(Strip(LiveTurns(parts))) == multiset(Strip(Fresh(Flat(parts), {})))
    decreases |parts|
  {
    if |parts| == 1 {
      assert parts[0] in parts;
    } else {
      var init, last := parts[..|parts| - 1], parts[|parts| - 1];
      assert parts == init + [last] && forall part <- init :: part in parts;
      SnocParts(init, last);
      LiveTurnsAre(init);
      RenumberedIs(LiveTurns(init) + last);
      if |init| == 1 {
        FlatOne(init);
      } else {
        MergeTurns(LiveTurns(init), Flat(init), last);
      }
    }
  }

  lemma FlatOne(parts: seq<seq<Turn>>)
    requires |parts| == 1
    ensures Flat(parts) == parts[0]
  {
    assert parts[..0] == [] && [] + parts[0] == parts[0];
  }

  /** The turns of one file are those of the stored route exactly when it repeats no identity. */
  lemma OneFileIff(turns: seq<Turn>)
    requires ParsedTurns(turns)
    ensures multiset(Strip(turns)) == multiset(Strip(Renumbered(turns))) <==> DistinctKeys(turns)
    ensures turns == Renumbered(turns) <==> DistinctKeys(turns)
  {
    RenumberedIs(turns);
    if DistinctKeys(turns) {
      FreshOfDistinct(turns, {});
      ParsedIsSorted(turns);
      SortOfSorted(turns);
      assert Renumber(turns) == turns;
    } else if multiset(Strip(turns)) == multiset(Strip(Renumbered(turns))) {
      DistinctSurvives(Renumbered(turns), turns);
    }
  }

  /** Both routes know the same sessions with the same project and title; both list turns in time
      order, numbered from one; and they hold the same turns, each once in the stored route, if
      and only if the session has two files or more or its one file repeats no identity. */
  lemma RoutesAgree(files: seq<Session>, id: string, fallback: (string, string) -> string)
    requires forall f <- files :: Parsed(f)
    ensures LiveOf(files, id, fallback).Some? <==> ProjectOf(files, id).Some?
    ensures LiveOf(files, id, fallback).Some? ==>
              var live, stored := LiveOf(files, id, fallback).value, Renumbered(AllTurns(files, id));
              var parts := Parts(files, id);
              && live.project == ProjectOf(files, id).value && live.name == Name(files, id)
              && InTimeOrder(live.turns) && Numbered(live.turns)
              && InTimeOrder(stored) && Numbered(stored) && DistinctKeys(stored)
              && |parts| >= 1
              && (multiset(Strip(live.turns)) == multiset(Strip(stored)) <==> |parts| >= 2 || DistinctKeys(parts[0]))
  {
    LiveAgrees(files, id, fallback);
    PartsAre(files, id);
    RenumberedIs(AllTurns(files, id));
    if LiveOf(files, id, fallback).Some? {
      var parts := Parts(files, id);
      LiveTurnsAre(parts);
      if |parts| == 1 {
        FlatOne(parts);
        assert parts[0] in parts;
        OneFileIff(parts[0]);
      }
    }
  }

  // ----- The order of the turns -----

  lemma ParsedIsSorted(turns: seq<Turn>)
    requires ParsedTurns(turns)
    ensures SortedTurns(turns)
  {
  }

  lemma SortedInit(init: seq<Turn>, last: Turn)
    requires SortedTurns(init + [last])
    ensures SortedTurns(init) && (init != [] ==> Before(init[|init| - 1], last))
  {
    var turns := init + [last];
    assert forall i :: 0 <= i < |init| ==> init[i] == turns[i];
    if init != [] {
      assert Before(turns[|init| - 1], turns[|init|]);
    }
  }

  lemma {:induction false} SortOfSorted(turns: seq<Turn>)
    requires SortedTurns(turns)
    ensures Sort(turns) == turns
    decreases |turns|
  {
    if turns != [] {
      var init, last := turns[..|turns| - 1], turns[|turns| - 1];
      assert turns == init + [last];
      SortedInit(init, last);
      SortOfSorted(init);
      assert Insert(init, last) == init + [last];
    }
  }

  /** Where a turn goes: behind exactly those that sort before it. */
  lemma {:induction false} InsertPlace(sorted: seq<Turn>, t: Turn) returns (n: nat)
    requires SortedTurns(sorted)
    ensures n <= |sorted| && Insert(sorted, t) == sorted[..n] + [t] + sorted[n..]
    ensures forall p :: 0 <= p < |sorted| ==> (Before(sorted[p], t) <==> p < n)
    decreases |sorted|
  {
    n := |sorted|;
    if sorted != [] {
      var init, last := sorted[..|sorted| - 1], sorted[|sorted| - 1];
      assert forall p :: 0 <= p < |init| ==> Before(sorted[p], last);
      if Before(last, t) {
        assert sorted[..n] + [t] + sorted[n..] == sorted + [t];
      } else {
        n := InsertPlace(init, t);
        assert forall p :: 0 <= p < |init| ==> init[p] == sorted[p];
        assert init[..n] == sorted[..n] && init[n..] + [last] == sorted[n..];
        assert init[..n] + [t] + init[n..] + [last] == init[..n] + [t] + (init[n..] + [last]);
      }
    }
  }

  /** Each old turn sorts before `z` in both arrangements or in neither. */
  ghost predicate Alike(a: seq<Turn>, b: seq<Turn>, z: Turn) {
    forall x <- a, y <- b :: x.key == y.key ==> (Before(x, z) <==> Before(y, z))
  }

  lemma StripAt(a: seq<Turn>, b: seq<Turn>, i: nat)
    requires Strip(a) == Strip(b) && i < |a|
    ensures |a| == |b| && a[i].key == b[i].key
  {
    assert |Strip(a)| == |a| && |Strip(b)| == |b| && Strip(a)[i] == Strip(b)[i];
  }

  /** Alike by key is alike by position. */
  lemma AlikeByPosition(a: seq<Turn>, b: seq<Turn>, z: Turn)
    requires Strip(a) == Strip(b) && DistinctKeys(a)
    ensures |a| == |b| && (Alike(a, b, z) <==> forall p :: 0 <= p < |a| ==> (Before(a[p], z) <==> Before(b[p], z)))
  {
    assert |Strip(a)| == |a| && |Strip(b)| == |b|;
    if Alike(a, b, z) {
      forall p | 0 <= p < |a| ensures Before(a[p], z) <==> Before(b[p], z) {
        StripAt(a, b, p);
        assert a[p] in a && b[p] in b;
      }
    }
    if forall p :: 0 <= p < |a| ==> (Before(a[p], z) <==> Before(b[p], z)) {
      forall x <- a, y <- b | x.key == y.key ensures Before(x, z) <==> Before(y, z) {
        var i :| 0 <= i < |a| && a[i] == x;
        var j :| 0 <= j < |b| && b[j] == y;
        StripAt(a, b, j);
        assert i == j;
      }
    }
  }

  lemma StripInserted(a: seq<Turn>, n: nat, z: Turn)
    requires n <= |a|
    ensures Strip(a[..n] + [z] + a[n..]) == Strip(a)[..n] + [z.(index := 0)] + Strip(a)[n..]
  {
  }

  /** An inserted turn is found only where it was inserted. */
  lemma OnlyAt(a: seq<Turn>, m: nat, z: Turn)
    requires m <= |a| && z !in a
    ensures var u := a[..m] + [z] + a[m..];
            u[m] == z && u[..m] + u[m + 1..] == a && forall i :: 0 <= i < |u| && i != m ==> u[i] != z
  {
    var u := a[..m] + [z] + a[m..];
    forall i | 0 <= i < |u| && i != m ensures u[i] != z {
      var k := if i < m then i else i - 1;
      assert u[i] == a[k] && a[k] in a;
    }
    assert u[..m] == a[..m] && u[m + 1..] == a[m..];
  }

  lemma InsertedAt(a: seq<Turn>, b: seq<Turn>, m: nat, n: nat, z: Turn)
    requires m <= |a| && n <= |b| && a[..m] + [z] + a[m..] == b[..n] + [z] + b[n..]
    requires z !in a && z !in b
    ensures m == n && a == b
  {
    OnlyAt(a, m, z);
    OnlyAt(b, n, z);
    assert (a[..m] + [z] + a[m..])[n] == z;
  }

  lemma StripKeepsOut(a: seq<Turn>, z: Turn)
    requires z.key !in Keys(a)
    ensures z.(index := 0) !in Strip(a)
  {
    forall i | 0 <= i < |a| ensures Strip(a)[i] != z.(index := 0) {
      assert a[i] in a;
    }
  }

  lemma InsertSameIff(a: seq<Turn>, b: seq<Turn>, z: Turn)
    requires SortedTurns(a) && SortedTurns(b) && DistinctKeys(a) && z.key !in Keys(a) && z.key !in Keys(b)
    ensures Strip(Insert(a, z)) == Strip(Insert(b, z)) <==> Strip(a) == Strip(b) && Alike(a, b, z)
  {
    var m := InsertPlace(a, z);
    var n := InsertPlace(b, z);
    StripInserted(a, m, z);
    StripInserted(b, n, z);
    StripKeepsOut(a, z);
    StripKeepsOut(b, z);
    assert |Strip(a)| == |a| && |Strip(b)| == |b|;
    if Strip(Insert(a, z)) == Strip(Insert(b, z)) {
      InsertedAt(Strip(a), Strip(b), m, n, z.(index := 0));
      AlikeByPosition(a, b, z);
    }
    if Strip(a) == Strip(b) && Alike(a, b, z) {
      AlikeByPosition(a, b, z);
      SamePlace(a, b, z, m, n);
    }
  }

  lemma SamePlace(a: seq<Turn>, b: seq<Turn>, z: Turn, m: nat, n: nat)
    requires |a| == |b| && m <= |a| && n <= |b|
    requires forall p :: 0 <= p < |a| ==> (Before(a[p], z) <==> p < m)
    requires forall p :: 0 <= p < |b| ==> (Before(b[p], z) <==> p < n)
    requires forall p :: 0 <= p < |a| ==> (Before(a[p], z) <==> Before(b[p], z))
    ensures m == n
  {
    assert m < |a| ==> !Before(a[m], z) && !Before(b[m], z);
    assert n < |b| ==> !Before(a[n], z) && !Before(b[n], z);
  }

  /** Insert one turn after the other. */
  ghost function InsertAll(sorted: seq<Turn>, more: seq<Turn>): seq<Turn> {
    if more == [] then sorted else Insert(InsertAll(sorted, more[..|more| - 1]), more[|more| - 1])
  }

  lemma {:induction false} SortConcat(a: seq<Turn>, b: seq<Turn>)
    ensures Sort(a + b) == InsertAll(Sort(a), b)
    decreases |b|
  {
    if b == [] {
      assert a + b == a;
    } else {
      assert (a + b)[..|a + b| - 1] == a + b[..|b| - 1];
      SortConcat(a, b[..|b| - 1]);
    }
  }

  lemma {:induction false} InsertAllIs(sorted: seq<Turn>, more: seq<Turn>)
    requires SortedTurns(sorted)
    ensures SortedTurns(InsertAll(sorted, more))
    ensures forall x :: x in InsertAll(sorted, more) <==> x in sorted || x in more
    ensures DistinctKeys(sorted + more) ==> DistinctKeys(InsertAll(sorted, more))
    decreases |more|
  {
    if more == [] {
      assert sorted + more == sorted;
    } else {
      var init, last := more[..|more| - 1], more[|more| - 1];
      assert more == init + [last] && sorted + more == (sorted + init) + [last];
      InsertAllIs(sorted, init);
      InsertOne(InsertAll(sorted, init), last);
      if DistinctKeys(sorted + more) {
        LastIsNew(sorted + init, last);
        assert Keys(InsertAll(sorted, init)) == Keys(sorted + init);
      }
    }
  }

  lemma DistinctInserted(a: seq<Turn>, n: nat, t: Turn)
    requires n <= |a| && DistinctKeys(a) && t.key !in Keys(a)
    ensures DistinctKeys(a[..n] + [t] + a[n..])
  {
    var out := a[..n] + [t] + a[n..];
    forall i, j | 0 <= i < j < |out| ensures out[i].key != out[j].key {
      if i == n {
        assert out[j] == a[j - 1] && a[j - 1] in a;
      } else if j == n {
        assert out[i] == a[i] && a[i] in a;
      } else {
        var i', j' := if i < n then i else i - 1, if j < n then j else j - 1;
        assert out[i] == a[i'] && out[j] == a[j'] && i' < j';
      }
    }
  }

  lemma InsertOne(sorted: seq<Turn>, t: Turn)
    requires SortedTurns(sorted)
    ensures SortedTurns(Insert(sorted, t))
    ensures forall x :: x in Insert(sorted, t) <==> x in sorted || x == t
    ensures DistinctKeys(sorted) && t.key !in Keys(sorted) ==> DistinctKeys(Insert(sorted, t))
  {
    InsertSorts(sorted, t);
    var n := InsertPlace(sorted, t);
    InsertedMembers(sorted, n, t);
    if DistinctKeys(sorted) && t.key !in Keys(sorted) {
      DistinctInserted(sorted, n, t);
    }
  }

  lemma InsertedMembers(a: seq<Turn>, n: nat, t: Turn)
    requires n <= |a|
    ensures forall x :: x in a[..n] + [t] + a[n..] <==> x in a || x == t
  {
    assert a == a[..n] + a[n..];
  }

  /** New turns are the same in both arrangements, so only the old ones matter. */
  lemma AlikeOld(a: seq<Turn>, b: seq<Turn>, more: seq<Turn>, z: Turn)
    requires SortedTurns(a) && SortedTurns(b) && Keys(a) == Keys(b) && DistinctKeys(more) && Keys(more) !! Keys(a)
    ensures Alike(InsertAll(a, more), InsertAll(b, more), z) <==> Alike(a, b, z)
  {
    InsertAllIs(a, more);
    InsertAllIs(b, more);
    if Alike(a, b, z) {
      forall x <- InsertAll(a, more), y <- InsertAll(b, more) | x.key == y.key ensures Before(x, z) <==> Before(y, z) {
        assert x in a ==> x.key in Keys(a);
        assert y in b ==> y.key in Keys(b);
        assert x in more ==> x.key in Keys(more);
        assert y in more ==> y.key in Keys(more);
        if x in more && y in more {
          SameKeySame(more, x, y);
        }
      }
    }
  }

  lemma SameKeySame(turns: seq<Turn>, x: Turn, y: Turn)
    requires DistinctKeys(turns) && x in turns && y in turns && x.key == y.key
    ensures x == y
  {
    var i :| 0 <= i < |turns| && turns[i] == x;
    var j :| 0 <= j < |turns| && turns[j] == y;
  }

  /** Inserting the same new turns into two arrangements of the same old turns gives the same
      order exactly when the arrangements are the same and treat every new turn alike. */
  lemma {:induction false} InsertAllIff(a: seq<Turn>, b: seq<Turn>, more: seq<Turn>)
    requires SortedTurns(a) && SortedTurns(b) && DistinctKeys(a) && DistinctKeys(b) && Keys(a) == Keys(b)
    requires DistinctKeys(more) && Keys(more) !! Keys(a)
    ensures Strip(InsertAll(a, more)) == Strip(InsertAll(b, more)) <==> Strip(a) == Strip(b) && forall z <- more ::
              Alike(a, b, z)
    decreases |more|
  {
    if more != [] {
      var init, last := more[..|more| - 1], more[|more| - 1];
      assert more == init + [last];
      LastIsNew(init, last);
      NewKeys(a, init, last);
      NewKeys(b, init, last);
      InsertAllIff(a, b, init);
      InsertSameIff(InsertAll(a, init), InsertAll(b, init), last);
      AlikeOld(a, b, init, last);
      assert forall z :: z in more <==> z in init || z == last;
    }
  }

  lemma NewKeys(a: seq<Turn>, init: seq<Turn>, last: Turn)
    requires SortedTurns(a) && DistinctKeys(a) && DistinctKeys(init) && last.key !in Keys(init)
    requires Keys(init + [last]) !! Keys(a)
    ensures Keys(init) !! Keys(a)
    ensures SortedTurns(InsertAll(a, init)) && DistinctKeys(InsertAll(a, init)) && last.key !in Keys(InsertAll(a, init))
  {
    assert last in init + [last] && forall t <- init :: t in init + [last];
    assert last.key in Keys(init + [last]);
    forall k | k in Keys(init) ensures k in Keys(init + [last]) {
    }
    InsertAllIs(a, init);
    DistinctConcat(a, init);
  }

  lemma DistinctConcat(a: seq<Turn>, b: seq<Turn>)
    requires DistinctKeys(a) && DistinctKeys(b) && Keys(b) !! Keys(a)
    ensures DistinctKeys(a + b)
  {
    var c := a + b;
    forall i, j | 0 <= i < j < |c| ensures c[i].key != c[j].key {
      if i < |a| <= j {
        assert a[i] in a && b[j - |a|] in b;
        assert a[i].key in Keys(a) && b[j - |a|].key in Keys(b);
      }
    }
  }

  /** The rank of an old turn does not matter to the new turn `z`: a turn `u` at the same time
      sorts before it by its number in its own file exactly if it does so by its rank `y.index`
      in the session so far. */
  ghost predicate RankIrrelevant(all: seq<Turn>, z: Turn) {
    forall u <- Fresh(all, {}), y <- Renumbered(all) ::
      u.key == y.key && u.key.timestamp == z.key.timestamp ==> (u.index <= z.index <==> y.index <= z.index)
  }

  /** No rank among the first `m` files matters to a new turn of the next one. */
  ghost predicate RanksAgree(parts: seq<seq<Turn>>, m: nat)
    requires m < |parts|
  {
    forall z <- Fresh(parts[m], Keys(Flat(parts[..m]))) :: RankIrrelevant(Flat(parts[..m]), z)
  }

  lemma SameStripSameList(a: seq<Turn>, b: seq<Turn>)
    ensures Renumber(a) == Renumber(b) <==> Strip(a) == Strip(b)
  {
    if Renumber(a) == Renumber(b) {
      assert |Renumber(a)| == |a| && |Renumber(b)| == |b|;
      forall i | 0 <= i < |a| ensures Strip(a)[i] == Strip(b)[i] {
        assert Renumber(a)[i] == Renumber(b)[i];
      }
    }
    if Strip(a) == Strip(b) {
      assert |Strip(a)| == |a| && |Strip(b)| == |b|;
      forall i | 0 <= i < |a| ensures Renumber(a)[i] == Renumber(b)[i] {
        assert Strip(a)[i] == Strip(b)[i];
      }
    }
  }

  /** The stored order of the first files, by the numbers in their own files. */
  lemma StoredArrangement(all: seq<Turn>)
    ensures var sorted := Sort(Fresh(all, {}));
            && SortedTurns(sorted) && DistinctKeys(sorted) && Keys(sorted) == Keys(all)
            && (forall x :: x in sorted <==> x in Fresh(all, {}))
  {
    var once := Fresh(all, {});
    FreshKeys(all, {});
    SortSorts(once);
    DistinctSurvives(once, Sort(once));
    SameStrippedSameKeys(once, Sort(once));
    assert [] + once == once && Sort([]) == [];
    SortConcat([], once);
    InsertAllIs([], once);
    assert Keys(all) - {} == Keys(all);
  }

  lemma LiveStep(live: seq<Turn>, incoming: seq<Turn>)
    requires ParsedTurns(live) && DistinctKeys(live)
    ensures Renumbered(live + incoming) == Renumber(InsertAll(live, Fresh(incoming, Keys(live))))
  {
    FreshOfDistinct(live, {});
    FreshAppend(live, incoming);
    ParsedIsSorted(live);
    SortOfSorted(live);
    SortConcat(live, Fresh(incoming, Keys(live)));
  }

  lemma StoredStep(all: seq<Turn>, incoming: seq<Turn>)
    ensures Renumbered(all + incoming) == Renumber(InsertAll(Sort(Fresh(all, {})), Fresh(incoming, Keys(all))))
  {
    FreshAppend(all, incoming);
    SortConcat(Fresh(all, {}), Fresh(incoming, Keys(all)));
  }

  lemma NumberedIsRenumbered(live: seq<Turn>, sorted: seq<Turn>)
    requires Numbered(live)
    ensures live == Renumber(sorted) <==> Strip(sorted) == Strip(live)
  {
    assert Renumber(live) == live;
    SameStripSameList(sorted, live);
  }

  /** One more file: the order agrees afterwards exactly if it agreed before and every new turn
      is treated alike. */
  lemma OneMoreFileIff(live: seq<Turn>, all: seq<Turn>, incoming: seq<Turn>)
    requires ParsedTurns(live) && DistinctKeys(live) && Keys(live) == Keys(all)
    ensures Renumbered(live + incoming) == Renumbered(all + incoming) <==>
            live == Renumbered(all) && forall z <- Fresh(incoming, Keys(all)) :: Alike(Sort(Fresh(all, {})), live, z)
  {
    var sorted, more := Sort(Fresh(all, {})), Fresh(incoming, Keys(all));
    LiveStep(live, incoming);
    StoredStep(all, incoming);
    StoredArrangement(all);
    FreshKeys(incoming, Keys(all));
    ParsedIsSorted(live);
    InsertAllIff(sorted, live, more);
    SameStripSameList(InsertAll(sorted, more), InsertAll(live, more));
    NumberedIsRenumbered(live, sorted);
  }

  /** With the stored order so far, being alike is not caring for the rank. */
  lemma AlikeIffRankIrrelevant(all: seq<Turn>, z: Turn)
    ensures Alike(Sort(Fresh(all, {})), Renumbered(all), z) <==> RankIrrelevant(all, z)
  {
    StoredArrangement(all);
    var sorted, ranked := Sort(Fresh(all, {})), Renumbered(all);
    if RankIrrelevant(all, z) {
      forall x <- sorted, y <- ranked | x.key == y.key ensures Before(x, z) <==> Before(y, z) {
        assert x in Fresh(all, {});
      }
    } else {
      var u, y :| u in Fresh(all, {}) && y in ranked && u.key == y.key && u.key.timestamp == z.key.timestamp &&
                  !(u.index <= z.index <==> y.index <= z.index);
      assert u in sorted && !(Before(u, z) <==> Before(y, z));
    }
  }

  lemma OneMoreFileRanks(live: seq<Turn>, all: seq<Turn>, incoming: seq<Turn>)
    requires ParsedTurns(live) && DistinctKeys(live) && Keys(live) == Keys(all)
    ensures Renumbered(live + incoming) == Renumbered(all + incoming) <==>
            live == Renumbered(all) && forall z <- Fresh(incoming, Keys(all)) :: RankIrrelevant(all, z)
  {
    OneMoreFileIff(live, all, incoming);
    if live == Renumbered(all) {
      forall z <- Fresh(incoming, Keys(all)) ensures Alike(Sort(Fresh(all, {})), live, z) <==> RankIrrelevant(all, z) {
        AlikeIffRankIrrelevant(all, z);
      }
    }
  }

  lemma LiveKeys(parts: seq<seq<Turn>>)
    requires |parts| >= 2 && forall part <- parts :: ParsedTurns(part)
    ensures ParsedTurns(LiveTurns(parts)) && DistinctKeys(LiveTurns(parts)) &&
              Keys(LiveTurns(parts)) == Keys(Flat(parts))
  {
    LiveTurnsAre(parts);
    SameStrippedSameKeys(LiveTurns(parts), Fresh(Flat(parts), {}));
    FreshKeys(Flat(parts), {});
    assert Keys(Flat(parts)) - {} == Keys(Flat(parts));
  }

  lemma SameListStep(init: seq<seq<Turn>>, last: seq<Turn>)
    requires |init| >= 2 && forall part <- init :: ParsedTurns(part)
    ensures LiveTurns(init + [last]) == Renumbered(Flat(init + [last])) <==>
            LiveTurns(init) == Renumbered(Flat(init)) && RanksAgree(init + [last], |init|)
  {
    SnocParts(init, last);
    assert (init + [last])[..|init|] == init;
    LiveKeys(init);
    OneMoreFileRanks(LiveTurns(init), Flat(init), last);
  }

  /** No rank matters from the third file on. */
  ghost predicate RanksNeverMatter(parts: seq<seq<Turn>>) {
    forall m :: 2 <= m < |parts| ==> RanksAgree(parts, m)
  }

  lemma RanksSnoc(init: seq<seq<Turn>>, last: seq<Turn>)
    requires |init| >= 2
    ensures RanksNeverMatter(init + [last]) <==> RanksNeverMatter(init) && RanksAgree(init + [last], |init|)
  {
    var parts := init + [last];
    forall m | 2 <= m < |init| ensures RanksAgree(parts, m) <==> RanksAgree(init, m) {
      assert parts[..m] == init[..m] && parts[m] == init[m];
    }
  }

  /** The two routes give the very same list of turns if and only if a single file repeats no
      identity and, from the third file on, no rank matters.  So two files always agree. */
  lemma {:induction false} SameListIff(parts: seq<seq<Turn>>)
    requires parts != [] && forall part <- parts :: ParsedTurns(part)
    ensures LiveTurns(parts) == Renumbered(Flat(parts)) <==>
            (|parts| == 1 ==> DistinctKeys(parts[0])) && RanksNeverMatter(parts)
    decreases |parts|
  {
    if |parts| == 1 {
      SameListOne(parts);
    } else {
      var init, last := parts[..|parts| - 1], parts[|parts| - 1];
      assert parts == init + [last];
      if |init| == 1 {
        SameListTwo(init, last);
      } else {
        assert forall part <- init :: part in parts;
        SameListIff(init);
        SameListStep(init, last);
        RanksSnoc(init, last);
      }
    }
  }

  lemma SameListOne(parts: seq<seq<Turn>>)
    requires |parts| == 1 && forall part <- parts :: ParsedTurns(part)
    ensures LiveTurns(parts) == Renumbered(Flat(parts)) <==> DistinctKeys(parts[0])
    ensures RanksNeverMatter(parts)
  {
    FlatOne(parts);
    assert parts[0] in parts;
    OneFileIff(parts[0]);
  }

  lemma SameListTwo(init: seq<seq<Turn>>, last: seq<Turn>)
    requires |init| == 1
    ensures LiveTurns(init + [last]) == Renumbered(Flat(init + [last])) && RanksNeverMatter(init + [last])
  {
    SnocParts(init, last);
    FlatOne(init);
  }

  /** `SameListIff` for the sessions that the two loaders build. */
  lemma RoutesIdenticalIff(files: seq<Session>, id: string, fallback: (string, string) -> string)
    requires (forall f <- files :: Parsed(f)) && LiveOf(files, id, fallback).Some?
    ensures var parts := Parts(files, id);
            && parts != []
            && (LiveOf(files, id, fallback).value.turns == Renumbered(AllTurns(files, id)) <==>
                  (|parts| == 1 ==> DistinctKeys(parts[0])) && RanksNeverMatter(parts))
  {
    LiveAgrees(files, id, fallback);
    PartsAre(files, id);
    SameListIff(Parts(files, id));
  }

  lemma SortPair(x: Turn, y: Turn)
    ensures Sort([x, y]) == if Before(x, y) then [x, y] else [y, x]
  {
    assert [x, y][..1] == [x] && [x][..0] == [] && Sort([x]) == [x];
    assert Insert([], y) == [y] && [y] + [x] == [y, x] && [x] + [y] == [x, y];
  }

  lemma SortThird(x: Turn, y: Turn, z: Turn, p: Turn, q: Turn)
    requires Sort([x, y]) == [p, q] && Before(p, z)
    ensures Sort([x, y, z]) == if Before(q, z) then [p, q, z] else [p, z, q]
  {
    assert [x, y, z][..2] == [x, y];
    assert [p, q][..1] == [p] && Insert([p], z) == [p, z];
  }

  /** Three turns in three files, the outer two at the same time. */
  ghost predicate Tie(x: Turn, y: Turn, z: Turn) {
    && x.index == y.index == z.index == 1 && x.key != z.key
    && y.key.timestamp < x.key.timestamp == z.key.timestamp
  }

  lemma TieStored(x: Turn, y: Turn, z: Turn)
    requires Tie(x, y, z)
    ensures |Renumbered([x, y, z])| == 3 && Renumbered([x, y, z])[1].key == x.key
  {
    FreshOfDistinct([x, y, z], {});
    SortPair(x, y);
    SortThird(x, y, z, y, x);
  }

  lemma TieLive(x: Turn, y: Turn, z: Turn)
    requires Tie(x, y, z)
    ensures |Renumbered(Renumbered([x, y]) + [z])| == 3 && Renumbered(Renumbered([x, y]) + [z])[1].key == z.key
  {
    FreshOfDistinct([x, y], {});
    SortPair(x, y);
    var y', x' := y.(index := 1), x.(index := 2);
    assert Renumbered([x, y]) == [y', x'];
    assert [y', x'] + [z] == [y', x', z];
    FreshOfDistinct([y', x', z], {});
    SortPair(y', x');
    SortThird(y', x', z, y', x');
  }

  lemma AllTurnsSnoc(files: seq<Session>, raw: Session)
    ensures AllTurns(files + [raw], raw.id) == AllTurns(files, raw.id) + raw.turns
  {
    assert (files + [raw])[..|files|] == files;
  }

  lemma TurnsOfThree(a: Session, b: Session, c: Session)
    requires a.id == b.id == c.id
    ensures AllTurns([a, b, c], a.id) == a.turns + b.turns + c.turns
  {
    AllTurnsSnoc([], a);
    AllTurnsSnoc([a], b);
    AllTurnsSnoc([a, b], c);
    assert [] + [a] == [a] && [a] + [b] == [a, b] && [a, b] + [c] == [a, b, c];
    assert [] + a.turns == a.turns;
  }

  lemma LiveOfThree(a: Session, b: Session, c: Session, fallback: (string, string) -> string)
    requires a.id == b.id == c.id
    ensures LiveOf([a, b, c], a.id, fallback) == Some(Merge(Merge(a, b, fallback), c, fallback))
  {
    assert [a, b, c][..2] == [a, b] && [a, b][..1] == [a] && [a][..0] == [];
    assert LiveOf([a], a.id, fallback) == Some(a);
    assert LiveOf([a, b], a.id, fallback) == Some(Merge(a, b, fallback));
  }

  /** With equal timestamps the order can differ: merging pairwise renumbers a turn before it
      meets its rival. */
  lemma TiesMayDiffer(x: Turn, y: Turn, z: Turn, fallback: (string, string) -> string)
    requires Tie(x, y, z)
    ensures var files := [Session("s", "p", "t", [x]), Session("s", "p", "t", [y]), Session("s", "p", "t", [z])];
            && (forall f <- files :: Parsed(f)) && LiveOf(files, "s", fallback).Some?
            && LiveOf(files, "s", fallback).value.turns != Renumbered(AllTurns(files, "s"))
  {
    var a, b, c := Session("s", "p", "t", [x]), Session("s", "p", "t", [y]), Session("s", "p", "t", [z]);
    TurnsOfThree(a, b, c);
    LiveOfThree(a, b, c, fallback);
    assert [x] + [y] == [x, y] && [x, y] + [z] == [x, y, z];
    TieStored(x, y, z);
    TieLive(x, y, z);
  }
}
