/** Two ways to the per-model usage table: summing in SQL and merging with the live entries
    (`aggregate_entries`, `_merge_parsed_usage`), or folding over all entries
    (`parse_entries_json`).  Costs are reals. */
module UsageAggregates {

  /** A normalized usage entry; `messages` is the message count with 0 already read as 1. */
  datatype Entry = Entry(source: string, model: string, provider: string,
                         input: int, output: int, cacheRead: int, cacheWrite: int, reasoning: int,
                         cost: real, messages: int)
  {
    function Tokens(): int { input + cacheWrite + output + cacheRead + reasoning }

    predicate NonNegative() {
      input >= 0 && output >= 0 && cacheRead >= 0 && cacheWrite >= 0 && reasoning >= 0 && cost >= 0.0 && messages >= 1
    }

    function TableKey(): Key { Key(source, ModelName(provider, model)) }

    function SqlGroup(): Group { Group(source, provider, model) }
  }

  /** The table is keyed by source and displayed model name; SQL groups more finely. */
  datatype Key = Key(source: string, name: string)
  datatype Group = Group(source: string, provider: string, model: string)
  {
    function TableKey(): Key { Key(source, ModelName(provider, model)) }
  }

  function ModelName(provider: string, model: string): string {
    if provider != "" then provider + "/" + model else model
  }

  datatype Stat = Stat(tokens: int, tokensIn: int, tokensOut: int, tokensCache: int, cost: real, messages: int)
  {
    function Plus(other: Stat): Stat {
      Stat(tokens + other.tokens, tokensIn + other.tokensIn, tokensOut + other.tokensOut,
          tokensCache + other.tokensCache,
           cost + other.cost, messages + other.messages)
    }
  }

  const ZERO := Stat(0, 0, 0, 0, 0.0, 0)

  /** Cost lookup: full model name, input, output, cache reads, cache writes. */
  type Pricing = (string, int, int, int, int) -> real

  /** An entry's columns as SQL sums them. */
  function Raw(e: Entry): Stat {
    Stat(e.Tokens(), e.input + e.cacheWrite, e.output, e.cacheRead, e.cost, e.messages)
  }

  function Priced(price: Pricing, e: Entry): real {
    price(ModelName(e.provider, e.model), e.input, e.output, e.cacheRead, e.cacheWrite)
  }

  /** What the per-entry fold adds: nothing for an empty entry, and a looked-up price where no
      positive cost was recorded. */
  function Folded(price: Pricing, e: Entry): Stat {
    if e.Tokens() == 0 then ZERO else Raw(e).(cost := if e.cost > 0.0 then e.cost else Priced(price, e))
  }

  type Table = map<Key, Stat>

  function Look(t: Table, k: Key): Stat {
    if k in t then t[k] else ZERO
  }

  function Added(t: Table, k: Key, s: Stat): Table {
    t[k := Look(t, k).Plus(s)]
  }

  // ----- The per-entry fold -----

  function ParseTable(price: Pricing, entries: seq<Entry>): Table {
    if entries == [] then map[]
    else
      var before, e := ParseTable(price, entries[..|entries| - 1]), entries[|entries| - 1];
      if e.Tokens() == 0 then before else Added(before, e.TableKey(), Folded(price, e))
  }

  /** `parse_entries_json`, the `all_models` table. */
  method ParseEntriesJson(price: Pricing, entries: seq<Entry>) returns (table: Table)
    ensures table == ParseTable(price, entries)
  {
    table := map[];
    for n := 0 to |entries|
      invariant table == ParseTable(price, entries[..n])
    {
      var e := entries[n];
      assert entries[..n + 1][..n] == entries[..n];
      if e.Tokens() == 0 {
        continue;
      }
      var cost := if e.cost > 0.0 then e.cost else Priced(price, e);
      var stat := Stat(e.Tokens(), e.input + e.cacheWrite, e.output, e.cacheRead, cost, e.messages);
      table := Added(table, e.TableKey(), stat);
    }
    assert entries[..|entries|] == entries;
  }

  // ----- The SQL route -----

  datatype GroupRow = GroupRow(group: Group, sums: Stat)
  datatype ModelRow = ModelRow(key: Key, stat: Stat)

  function FindGroup(rows: seq<GroupRow>, g: Group): (i: nat)
    ensures i <= |rows| && (i < |rows| ==> rows[i].group == g)
    ensures forall j :: 0 <= j < i ==> rows[j].group != g
  {
    if rows == [] then 0 else if rows[0].group == g then 0 else 1 + FindGroup(rows[1..], g)
  }

  /** The grouped rows after one more entry. */
  function WithEntry(rows: seq<GroupRow>, e: Entry): seq<GroupRow> {
    var i := FindGroup(rows, e.SqlGroup());
    if i < |rows| then rows[i := GroupRow(e.SqlGroup(), rows[i].sums.Plus(Raw(e)))]
        else rows + [GroupRow(e.SqlGroup(), Raw(e))]
  }

  /** `SELECT ... GROUP BY source, provider, model`, in order of first appearance. */
  function GroupRows(entries: seq<Entry>): seq<GroupRow> {
    if entries == [] then [] else WithEntry(GroupRows(entries[..|entries| - 1]), entries[|entries| - 1])
  }

  function ModelRows(rows: seq<GroupRow>): seq<ModelRow> {
    if rows == [] then []
    else
      var last := rows[|rows| - 1];
      ModelRows(rows[..|rows| - 1]) + if last.sums.tokens == 0 then [] else [ModelRow(last.group.TableKey(), last.sums)]
  }

  /** `aggregate_entries`, given the grouped rows in whatever order SQL returns them. */
  method AggregateEntries(rows: seq<GroupRow>) returns (models: seq<ModelRow>)
    ensures models == ModelRows(rows)
  {
    models := [];
    for n := 0 to |rows|
      invariant models == ModelRows(rows[..n])
    {
      assert rows[..n + 1][..n] == rows[..n];
      if rows[n].sums.tokens == 0 {
        continue;
      }
      models := models + [ModelRow(rows[n].group.TableKey(), rows[n].sums)];
    }
    assert rows[..|rows|] == rows;
  }

  function MergeTable(rows: seq<ModelRow>): Table {
    if rows == [] then map[]
    else
      var before, row := MergeTable(rows[..|rows| - 1]), rows[|rows| - 1];
      if row.stat.tokens == 0 then before else Added(before, row.key, row.stat)
  }

  /** `_merge_parsed_usage` over the concatenated `all_models` lists of its parts. */
  method MergeParsedUsage(rows: seq<ModelRow>) returns (table: Table)
    ensures table == MergeTable(rows)
  {
    table := map[];
    for n := 0 to |rows|
      invariant table == MergeTable(rows[..n])
    {
      assert rows[..n + 1][..n] == rows[..n];
      if rows[n].stat.tokens == 0 {
        continue;
      }
      table := Added(table, rows[n].key, rows[n].stat);
    }
    assert rows[..|rows|] == rows;
  }

  /** `rows` lists the table, each key once, in any order. */
  ghost predicate Listing(rows: seq<ModelRow>, table: Table) {
    && (forall row <- rows :: row.key in table && table[row.key] == row.stat)
    && (forall i, j :: 0 <= i < j < |rows| ==> rows[i].key != rows[j].key)
    && (forall k :: k in table ==> ModelRow(k, table[k]) in rows)
  }

  // ----- Sums per key -----

  /** The sum of `f` over the entries of a key. */
  ghost function SumBy(entries: seq<Entry>, k: Key, f: Entry -> Stat): Stat {
    if entries == [] then ZERO
    else
      var before, e := SumBy(entries[..|entries| - 1], k, f), entries[|entries| - 1];
      if e.TableKey() == k then before.Plus(f(e)) else before
  }

  ghost function RowSum(rows: seq<ModelRow>, k: Key): Stat {
    if rows == [] then ZERO
    else
      var before, row := RowSum(rows[..|rows| - 1], k), rows[|rows| - 1];
      if row.key == k then before.Plus(row.stat) else before
  }

  ghost function FoldedBy(price: Pricing): Entry -> Stat {
    e => Folded(price, e)
  }

  /** The SQL sum of a group's tokens. */
  ghost function GroupTokens(entries: seq<Entry>, g: Group): int {
    if entries == [] then 0
    else
      var last := entries[|entries| - 1];
      GroupTokens(entries[..|entries| - 1], g) + if last.SqlGroup() == g then last.Tokens() else 0
  }

  /** What an entry adds on the SQL route: its raw columns, if its whole group has tokens. */
  ghost function Grouped(stored: seq<Entry>, e: Entry): Stat {
    if GroupTokens(stored, e.SqlGroup()) != 0 then Raw(e) else ZERO
  }

  ghost function GroupedBy(stored: seq<Entry>): Entry -> Stat {
    e => Grouped(stored, e)
  }

  lemma {:induction false} ParseTableIs(price: Pricing, entries: seq<Entry>, k: Key)
    ensures Look(ParseTable(price, entries), k) == SumBy(entries, k, FoldedBy(price))
    ensures k in ParseTable(price, entries) <==> exists e <- entries :: e.TableKey() == k && e.Tokens() != 0
  {
    if entries != [] {
      var init, e := entries[..|entries| - 1], entries[|entries| - 1];
      assert entries == init + [e];
      ParseTableIs(price, init, k);
    }
  }

  lemma {:induction false} MergeTableIs(rows: seq<ModelRow>, k: Key)
    requires forall row <- rows :: row.stat.tokens != 0
    ensures Look(MergeTable(rows), k) == RowSum(rows, k)
    ensures k in MergeTable(rows) <==> exists row <- rows :: row.key == k
  {
    if rows != [] {
      var init, row := rows[..|rows| - 1], rows[|rows| - 1];
      assert rows == init + [row];
      MergeTableIs(init, k);
    }
  }

  lemma {:induction false} SumByConcat(a: seq<Entry>, b: seq<Entry>, k: Key, f: Entry -> Stat)
    ensures SumBy(a + b, k, f) == SumBy(a, k, f).Plus(SumBy(b, k, f))
    decreases |b|
  {
    if b == [] {
      assert a + b == a;
    } else {
      assert (a + b)[..|a + b| - 1] == a + b[..|b| - 1];
      SumByConcat(a, b[..|b| - 1], k, f);
    }
  }

  lemma {:induction false} RowSumConcat(a: seq<ModelRow>, b: seq<ModelRow>, k: Key)
    ensures RowSum(a + b, k) == RowSum(a, k).Plus(RowSum(b, k))
    decreases |b|
  {
    if b == [] {
      assert a + b == a;
    } else {
      assert (a + b)[..|a + b| - 1] == a + b[..|b| - 1];
      RowSumConcat(a, b[..|b| - 1], k);
    }
  }

  lemma {:induction false} UniqueRowSum(rows: seq<ModelRow>, k: Key)
    requires forall i, j :: 0 <= i < j < |rows| ==> rows[i].key != rows[j].key
    ensures forall row <- rows :: row.key == k ==> RowSum(rows, k) == row.stat
    ensures (forall row <- rows :: row.key != k) ==> RowSum(rows, k) == ZERO
    decreases |rows|
  {
    if rows != [] {
      var init, last := rows[..|rows| - 1], rows[|rows| - 1];
      assert rows == init + [last];
      UniqueRowSum(init, k);
      forall row <- init ensures row.key != last.key {
        var i :| 0 <= i < |init| && init[i] == row;
        assert rows[i] == row && rows[|init|] == last;
      }
    }
  }

  lemma ListingSum(rows: seq<ModelRow>, table: Table, k: Key)
    requires Listing(rows, table)
    ensures RowSum(rows, k) == Look(table, k)
  {
    UniqueRowSum(rows, k);
    if k in table {
      assert ModelRow(k, table[k]) in rows;
    }
  }

  lemma RowSumSplit(rows: seq<ModelRow>, i: nat, k: Key)
    requires i < |rows|
    ensures RowSum(rows, k) == RowSum(rows[..i] + rows[i + 1..], k).Plus(if rows[i].key == k then rows[i].stat
              else ZERO)
  {
    var a, b, one := rows[..i], rows[i + 1..], [rows[i]];
    assert rows == a + one + b;
    RowSumConcat(a + one, b, k);
    RowSumConcat(a, one, k);
    RowSumConcat(a, b, k);
    assert RowSum(one, k) == if rows[i].key == k then ZERO.Plus(rows[i].stat) else ZERO by { assert one[..0] == []; }
  }

  lemma MultisetWithout<T>(rows: seq<T>, i: nat)
    requires i < |rows|
    ensures multiset(rows[..i] + rows[i + 1..]) == multiset(rows) - multiset{rows[i]}
  {
    assert rows == rows[..i] + [rows[i]] + rows[i + 1..];
  }

  /** A sum over rows does not depend on their order. */
  lemma {:induction false} RowSumPermutes(a: seq<ModelRow>, b: seq<ModelRow>, k: Key)
    requires multiset(a) == multiset(b)
    ensures RowSum(a, k) == RowSum(b, k)
    decreases |a|
  {
    if a == [] {
      assert |multiset(b)| == |b|;
    } else {
      assert a[0] in multiset(b);
      var i :| 0 <= i < |b| && b[i] == a[0];
      var a', b' := a[..0] + a[0 + 1..], b[..i] + b[i + 1..];
      assert multiset(a') == multiset(b') by {
        MultisetWithout(a, 0);
        MultisetWithout(b, i);
      }
      RowSumPermutes(a', b', k);
      RowSumSplit(a, 0, k);
      RowSumSplit(b, i, k);
    }
  }

  // ----- Regrouping -----

  lemma {:induction false} GroupsDistinct(entries: seq<Entry>, i: nat, j: nat)
    requires i < j < |GroupRows(entries)|
    ensures GroupRows(entries)[i].group != GroupRows(entries)[j].group
    decreases |entries|
  {
    var before := GroupRows(entries[..|entries| - 1]);
    if j < |before| {
      GroupsDistinct(entries[..|entries| - 1], i, j);
    }
  }

  /** A group without a row has no tokens. */
  lemma {:induction false} AbsentGroup(entries: seq<Entry>, g: Group)
    requires FindGroup(GroupRows(entries), g) == |GroupRows(entries)|
    ensures GroupTokens(entries, g) == 0
    decreases |entries|
  {
    if entries != [] {
      var init, e := entries[..|entries| - 1], entries[|entries| - 1];
      var before, after := GroupRows(init), GroupRows(entries);
      var i := FindGroup(before, e.SqlGroup());
      assert after[i].group == e.SqlGroup();
      assert forall j :: 0 <= j < |before| ==> after[j].group == before[j].group;
      AbsentGroup(init, g);
    }
  }

  /** A row's token sum is its group's. */
  lemma {:induction false} RowTokens(entries: seq<Entry>, j: nat)
    requires j < |GroupRows(entries)|
    ensures GroupRows(entries)[j].sums.tokens == GroupTokens(entries, GroupRows(entries)[j].group)
    decreases |entries|
  {
    var init, e := entries[..|entries| - 1], entries[|entries| - 1];
    var before := GroupRows(init);
    var i := FindGroup(before, e.SqlGroup());
    if j < |before| {
      RowTokens(init, j);
      if i < j {
        GroupsDistinct(init, i, j);
      }
    } else {
      AbsentGroup(init, e.SqlGroup());
    }
  }

  /** The sum, for a key, of the grouped rows whose group has tokens in `stored`. */
  ghost function EmittedSum(rows: seq<GroupRow>, stored: seq<Entry>, k: Key): Stat {
    if rows == [] then ZERO
    else
      var before, row := EmittedSum(rows[..|rows| - 1], stored, k), rows[|rows| - 1];
      if row.group.TableKey() == k && GroupTokens(stored, row.group) != 0 then before.Plus(row.sums) else before
  }

  /** What a row adds to the sum of a key. */
  ghost function EmittedBy(g: Group, sums: Stat, stored: seq<Entry>, k: Key): Stat {
    if g.TableKey() == k && GroupTokens(stored, g) != 0 then sums else ZERO
  }

  lemma EmittedSnoc(rows: seq<GroupRow>, row: GroupRow, stored: seq<Entry>, k: Key)
    ensures EmittedSum(rows + [row], stored, k) ==
              EmittedSum(rows, stored, k).Plus(EmittedBy(row.group, row.sums, stored, k))
  {
    assert (rows + [row])[..|rows|] == rows;
  }

  lemma PlusSwaps(a: Stat, b: Stat, c: Stat)
    ensures a.Plus(b).Plus(c) == a.Plus(c).Plus(b) == a.Plus(b.Plus(c))
  {
  }

  lemma UpdateLast(init: seq<GroupRow>, last: GroupRow, more: Stat, stored: seq<Entry>, k: Key)
    ensures EmittedSum(init + [GroupRow(last.group, last.sums.Plus(more))], stored, k) ==
            EmittedSum(init + [last], stored, k).Plus(EmittedBy(last.group, more, stored, k))
  {
    EmittedSnoc(init, last, stored, k);
    EmittedSnoc(init, GroupRow(last.group, last.sums.Plus(more)), stored, k);
    PlusSwaps(EmittedSum(init, stored, k), EmittedBy(last.group, last.sums, stored, k),
        EmittedBy(last.group, more, stored, k));
  }

  lemma UpdateEarlier(init: seq<GroupRow>, init': seq<GroupRow>, last: GroupRow, extra: Stat, stored: seq<Entry>,
                      k: Key)
    requires EmittedSum(init', stored, k) == EmittedSum(init, stored, k).Plus(extra)
    ensures EmittedSum(init' + [last], stored, k) == EmittedSum(init + [last], stored, k).Plus(extra)
  {
    EmittedSnoc(init, last, stored, k);
    EmittedSnoc(init', last, stored, k);
    PlusSwaps(EmittedSum(init, stored, k), extra, EmittedBy(last.group, last.sums, stored, k));
  }

  lemma {:induction false} EmittedUpdate(rows: seq<GroupRow>, i: nat, more: Stat, stored: seq<Entry>, k: Key)
    requires i < |rows|
    ensures EmittedSum(rows[i := GroupRow(rows[i].group, rows[i].sums.Plus(more))], stored, k) ==
            EmittedSum(rows, stored, k).Plus(EmittedBy(rows[i].group, more, stored, k))
    decreases |rows|
  {
    var init, last := rows[..|rows| - 1], rows[|rows| - 1];
    var row := GroupRow(rows[i].group, rows[i].sums.Plus(more));
    assert rows == init + [last];
    if i < |init| {
      EmittedUpdate(init, i, more, stored, k);
      assert rows[i := row] == init[i := row] + [last];
      UpdateEarlier(init, init[i := row], last, EmittedBy(row.group, more, stored, k), stored, k);
    } else {
      assert rows[i := row] == init + [row];
      UpdateLast(init, last, more, stored, k);
    }
  }

  /** Summing groups and then rows is summing entries. */
  lemma {:induction false} EmittedIsGrouped(entries: seq<Entry>, stored: seq<Entry>, k: Key)
    ensures EmittedSum(GroupRows(entries), stored, k) == SumBy(entries, k, GroupedBy(stored))
    decreases |entries|
  {
    if entries != [] {
      var init, e := entries[..|entries| - 1], entries[|entries| - 1];
      EmittedIsGrouped(init, stored, k);
      EmittedStep(GroupRows(init), e, stored, k);
    }
  }

  lemma EmittedStep(rows: seq<GroupRow>, e: Entry, stored: seq<Entry>, k: Key)
    ensures EmittedSum(WithEntry(rows, e), stored, k) ==
            if e.TableKey() == k then EmittedSum(rows, stored, k).Plus(Grouped(stored, e))
                else EmittedSum(rows, stored, k)
  {
    var i := FindGroup(rows, e.SqlGroup());
    if i < |rows| {
      EmittedUpdate(rows, i, Raw(e), stored, k);
    } else {
      EmittedSnoc(rows, GroupRow(e.SqlGroup(), Raw(e)), stored, k);
    }
  }

  lemma {:induction false} ModelRowsSum(rows: seq<GroupRow>, stored: seq<Entry>, k: Key)
    requires forall j :: 0 <= j < |rows| ==> rows[j].sums.tokens == GroupTokens(stored, rows[j].group)
    ensures RowSum(ModelRows(rows), k) == EmittedSum(rows, stored, k)
    decreases |rows|
  {
    if rows != [] {
      var n := |rows| - 1;
      ModelRowsSum(rows[..n], stored, k);
      var before, last := ModelRows(rows[..n]), rows[n];
      if last.sums.tokens != 0 {
        assert (before + [ModelRow(last.group.TableKey(), last.sums)])[..|before|] == before;
      } else {
        assert before + [] == before;
      }
    }
  }

  lemma SqlRoute(stored: seq<Entry>, k: Key)
    ensures RowSum(ModelRows(GroupRows(stored)), k) == SumBy(stored, k, GroupedBy(stored))
  {
    forall j | 0 <= j < |GroupRows(stored)| ensures GroupRows(stored)[j].sums.tokens ==
        GroupTokens(stored, GroupRows(stored)[j].group) {
      RowTokens(stored, j);
    }
    ModelRowsSum(GroupRows(stored), stored, k);
    EmittedIsGrouped(stored, stored, k);
  }

  // ----- Comparing the two routes -----

  /** The table the dashboard shows: SQL rows of the stored entries, in any order, merged with a
      listing of the table of the live entries. */
  ghost predicate Combined(price: Pricing, stored: seq<Entry>, live: seq<Entry>, rows: seq<ModelRow>) {
    exists sql, listed :: rows == sql + listed && multiset(sql) == multiset(ModelRows(GroupRows(stored))) &&
        Listing(listed, ParseTable(price, live))
  }

  ghost predicate AllNonNegative(entries: seq<Entry>) {
    forall e <- entries :: e.NonNegative()
  }

  lemma {:induction false} LiveTokens(price: Pricing, live: seq<Entry>, k: Key)
    requires AllNonNegative(live)
    ensures SumBy(live, k, FoldedBy(price)).tokens >= 0
    ensures SumBy(live, k, FoldedBy(price)).tokens > 0 <==> exists e <- live :: e.TableKey() == k && e.Tokens() != 0
  {
    if live != [] {
      var init, e := live[..|live| - 1], live[|live| - 1];
      assert live == init + [e] && forall f <- init :: f in live;
      assert e in live && e.NonNegative();
      LiveTokens(price, init, k);
    }
  }

  lemma {:induction false} GroupTokensSign(stored: seq<Entry>, g: Group)
    requires AllNonNegative(stored)
    ensures GroupTokens(stored, g) >= 0
    ensures GroupTokens(stored, g) == 0 <==> forall e <- stored :: e.SqlGroup() == g ==> e.Tokens() == 0
  {
    if stored != [] {
      var init, e := stored[..|stored| - 1], stored[|stored| - 1];
      assert stored == init + [e] && forall f <- init :: f in stored;
      assert e in stored && e.NonNegative();
      GroupTokensSign(init, g);
    }
  }

  lemma {:induction false} ModelRowsHaveTokens(rows: seq<GroupRow>)
    requires forall j :: 0 <= j < |rows| ==> rows[j].sums.tokens >= 0
    ensures forall row <- ModelRows(rows) :: row.stat.tokens > 0
  {
    if rows != [] {
      ModelRowsHaveTokens(rows[..|rows| - 1]);
    }
  }

  lemma SqlRowsHaveTokens(stored: seq<Entry>)
    requires AllNonNegative(stored)
    ensures forall row <- ModelRows(GroupRows(stored)) :: row.stat.tokens > 0
  {
    var rows := GroupRows(stored);
    forall j | 0 <= j < |rows| ensures rows[j].sums.tokens >= 0 {
      RowTokens(stored, j);
      GroupTokensSign(stored, rows[j].group);
    }
    ModelRowsHaveTokens(rows);
  }

  lemma {:induction false} RowSumTokens(rows: seq<ModelRow>, k: Key)
    requires forall row <- rows :: row.stat.tokens > 0
    ensures RowSum(rows, k).tokens >= 0
    ensures RowSum(rows, k).tokens > 0 <==> exists row <- rows :: row.key == k
  {
    if rows != [] {
      var init, last := rows[..|rows| - 1], rows[|rows| - 1];
      assert rows == init + [last] && forall row <- init :: row in rows;
      assert last in rows;
      RowSumTokens(init, k);
    }
  }

  /** What the combined table holds for a key. */
  lemma CombinedIs(price: Pricing, stored: seq<Entry>, live: seq<Entry>, rows: seq<ModelRow>, k: Key)
    requires Combined(price, stored, live, rows) && AllNonNegative(stored) && AllNonNegative(live)
    ensures Look(MergeTable(rows), k) == SumBy(stored, k, GroupedBy(stored)).Plus(SumBy(live, k, FoldedBy(price)))
    ensures k in MergeTable(rows) <==> Look(MergeTable(rows), k).tokens > 0
  {
    var sql: seq<ModelRow>, listed: seq<ModelRow> :|
      rows == sql + listed && multiset(sql) == multiset(ModelRows(GroupRows(stored))) &&
          Listing(listed, ParseTable(price, live));
    SqlRowsHaveTokens(stored);
    forall row <- sql ensures row.stat.tokens > 0 {
      assert row in multiset(sql);
      assert row in ModelRows(GroupRows(stored));
    }
    forall row <- listed ensures row.stat.tokens > 0 {
      ParseTableIs(price, live, row.key);
      LiveTokens(price, live, row.key);
    }
    MergeTableIs(rows, k);
    RowSumTokens(rows, k);
    RowSumConcat(sql, listed, k);
    RowSumPermutes(sql, ModelRows(GroupRows(stored)), k);
    SqlRoute(stored, k);
    ListingSum(listed, ParseTable(price, live), k);
    ParseTableIs(price, live, k);
  }

  /** What the per-entry fold over everything holds for a key. */
  lemma FoldIs(price: Pricing, stored: seq<Entry>, live: seq<Entry>, k: Key)
    requires AllNonNegative(stored) && AllNonNegative(live)
    ensures Look(ParseTable(price, stored + live), k) ==
              SumBy(stored, k, FoldedBy(price)).Plus(SumBy(live, k, FoldedBy(price)))
    ensures k in ParseTable(price, stored + live) <==> Look(ParseTable(price, stored + live), k).tokens > 0
  {
    ParseTableIs(price, stored + live, k);
    LiveTokens(price, stored + live, k);
    SumByConcat(stored, live, k, FoldedBy(price));
  }

  ghost predicate SameTokens(a: Stat, b: Stat) {
    a.tokens == b.tokens && a.tokensIn == b.tokensIn && a.tokensOut == b.tokensOut && a.tokensCache == b.tokensCache
  }

  lemma {:induction false} SumBySameTokens(entries: seq<Entry>, k: Key, f: Entry -> Stat, g: Entry -> Stat)
    requires forall e <- entries :: SameTokens(f(e), g(e))
    ensures SameTokens(SumBy(entries, k, f), SumBy(entries, k, g))
  {
    if entries != [] {
      var init := entries[..|entries| - 1];
      assert forall e <- init :: e in entries;
      assert entries[|entries| - 1] in entries;
      SumBySameTokens(init, k, f, g);
    }
  }

  lemma GroupedVersusFolded(price: Pricing, stored: seq<Entry>, e: Entry)
    requires AllNonNegative(stored) && e in stored
    ensures SameTokens(Grouped(stored, e), Folded(price, e))
    ensures Grouped(stored, e).messages >= Folded(price, e).messages
    ensures e.Tokens() != 0 ==> Grouped(stored, e) == Raw(e)
  {
    GroupTokensSign(stored, e.SqlGroup());
    assert e.NonNegative();
  }

  /** The token columns and the set of rows always agree. */
  lemma TokensAgree(price: Pricing, stored: seq<Entry>, live: seq<Entry>, rows: seq<ModelRow>, k: Key)
    requires Combined(price, stored, live, rows) && AllNonNegative(stored) && AllNonNegative(live)
    ensures k in MergeTable(rows) <==> k in ParseTable(price, stored + live)
    ensures SameTokens(Look(MergeTable(rows), k), Look(ParseTable(price, stored + live), k))
  {
    CombinedIs(price, stored, live, rows, k);
    FoldIs(price, stored, live, k);
    forall e <- stored ensures SameTokens(GroupedBy(stored)(e), FoldedBy(price)(e)) {
      GroupedVersusFolded(price, stored, e);
    }
    SumBySameTokens(stored, k, GroupedBy(stored), FoldedBy(price));
  }

  // ----- Exactly when the routes agree -----

  /** No SQL group mixes entries with and without tokens. */
  ghost predicate NoMixedGroup(stored: seq<Entry>) {
    forall a <- stored, b <- stored :: a.SqlGroup() == b.SqlGroup() && a.Tokens() == 0 ==> b.Tokens() == 0
  }

  /** Every entry with tokens has a recorded cost, or would be looked up as free. */
  ghost predicate CostsRecorded(price: Pricing, stored: seq<Entry>) {
    forall e <- stored :: e.Tokens() != 0 ==> e.cost > 0.0 || Priced(price, e) == 0.0
  }

  lemma {:induction false} SumByEqual(entries: seq<Entry>, k: Key, f: Entry -> Stat, g: Entry -> Stat)
    requires forall e <- entries :: f(e) == g(e)
    ensures SumBy(entries, k, f) == SumBy(entries, k, g)
  {
    if entries != [] {
      var init := entries[..|entries| - 1];
      assert forall e <- init :: e in entries;
      assert entries[|entries| - 1] in entries;
      SumByEqual(init, k, f, g);
    }
  }

  /** Where every term is at least as large, equal sums have equal terms. */
  lemma {:induction false} EqualMessages(entries: seq<Entry>, k: Key, f: Entry -> Stat, g: Entry -> Stat)
    requires forall e <- entries :: f(e).messages >= g(e).messages
    ensures SumBy(entries, k, f).messages >= SumBy(entries, k, g).messages
    ensures SumBy(entries, k, f).messages == SumBy(entries, k, g).messages ==>
              forall e <- entries :: e.TableKey() == k ==> f(e).messages == g(e).messages
  {
    if entries != [] {
      var init, last := entries[..|entries| - 1], entries[|entries| - 1];
      assert entries == init + [last] && forall e <- init :: e in entries;
      assert last in entries;
      EqualMessages(init, k, f, g);
    }
  }

  lemma {:induction false} EqualCosts(entries: seq<Entry>, k: Key, f: Entry -> Stat, g: Entry -> Stat)
    requires forall e <- entries :: f(e).cost <= g(e).cost
    ensures SumBy(entries, k, f).cost <= SumBy(entries, k, g).cost
    ensures SumBy(entries, k, f).cost == SumBy(entries, k, g).cost ==>
              forall e <- entries :: e.TableKey() == k ==> f(e).cost == g(e).cost
  {
    if entries != [] {
      var init, last := entries[..|entries| - 1], entries[|entries| - 1];
      assert entries == init + [last] && forall e <- init :: e in entries;
      assert last in entries;
      EqualCosts(init, k, f, g);
    }
  }

  ghost predicate StoredSumsAgree(price: Pricing, stored: seq<Entry>) {
    forall k :: SumBy(stored, k, GroupedBy(stored)) == SumBy(stored, k, FoldedBy(price))
  }

  lemma KeyAgreesIff(price: Pricing, stored: seq<Entry>, live: seq<Entry>, rows: seq<ModelRow>, k: Key)
    requires Combined(price, stored, live, rows) && AllNonNegative(stored) && AllNonNegative(live)
    ensures k in MergeTable(rows) <==> k in ParseTable(price, stored + live)
    ensures Look(MergeTable(rows), k) == Look(ParseTable(price, stored + live), k) <==>
            SumBy(stored, k, GroupedBy(stored)) == SumBy(stored, k, FoldedBy(price))
  {
    CombinedIs(price, stored, live, rows, k);
    FoldIs(price, stored, live, k);
    TokensAgree(price, stored, live, rows, k);
    PlusCancels(SumBy(stored, k, GroupedBy(stored)), SumBy(stored, k, FoldedBy(price)),
        SumBy(live, k, FoldedBy(price)));
  }

  lemma PlusCancels(a: Stat, b: Stat, c: Stat)
    ensures a.Plus(c) == b.Plus(c) <==> a == b
  {
  }

  lemma SameTable(a: Table, b: Table)
    requires forall k :: k in a <==> k in b
    ensures a == b <==> forall k :: Look(a, k) == Look(b, k)
  {
    if forall k :: Look(a, k) == Look(b, k) {
      assert a.Keys == b.Keys;
      forall k | k in a ensures a[k] == b[k] {
        assert Look(a, k) == Look(b, k);
      }
    }
  }

  lemma TablesEqualIffSums(price: Pricing, stored: seq<Entry>, live: seq<Entry>, rows: seq<ModelRow>)
    requires Combined(price, stored, live, rows) && AllNonNegative(stored) && AllNonNegative(live)
    ensures MergeTable(rows) == ParseTable(price, stored + live) <==> StoredSumsAgree(price, stored)
  {
    var merged, folded := MergeTable(rows), ParseTable(price, stored + live);
    forall k
      ensures k in merged <==> k in folded
      ensures Look(merged, k) == Look(folded, k) <==>
                SumBy(stored, k, GroupedBy(stored)) == SumBy(stored, k, FoldedBy(price))
    {
      KeyAgreesIff(price, stored, live, rows, k);
    }
    SameTable(merged, folded);
  }

  lemma AgreementSuffices(price: Pricing, stored: seq<Entry>)
    requires AllNonNegative(stored) && NoMixedGroup(stored) && CostsRecorded(price, stored)
    ensures StoredSumsAgree(price, stored)
  {
    forall e <- stored ensures GroupedBy(stored)(e) == FoldedBy(price)(e) {
      GroupedVersusFolded(price, stored, e);
      GroupTokensSign(stored, e.SqlGroup());
      assert e.NonNegative();
    }
    forall k ensures SumBy(stored, k, GroupedBy(stored)) == SumBy(stored, k, FoldedBy(price)) {
      SumByEqual(stored, k, GroupedBy(stored), FoldedBy(price));
    }
  }

  lemma AgreementUnmixes(price: Pricing, stored: seq<Entry>)
    requires AllNonNegative(stored) && StoredSumsAgree(price, stored)
    ensures NoMixedGroup(stored)
  {
    forall e <- stored ensures GroupedBy(stored)(e).messages >= FoldedBy(price)(e).messages {
      GroupedVersusFolded(price, stored, e);
    }
    forall a <- stored, b <- stored | a.SqlGroup() == b.SqlGroup() && a.Tokens() == 0 ensures b.Tokens() == 0 {
      var k := a.TableKey();
      EqualMessages(stored, k, GroupedBy(stored), FoldedBy(price));
      assert SumBy(stored, k, GroupedBy(stored)) == SumBy(stored, k, FoldedBy(price));
      assert GroupedBy(stored)(a).messages == FoldedBy(price)(a).messages == 0;
      assert a.NonNegative();
      GroupTokensSign(stored, a.SqlGroup());
    }
  }

  lemma AgreementRecordsCosts(price: Pricing, stored: seq<Entry>)
    requires AllNonNegative(stored) && StoredSumsAgree(price, stored) && NoMixedGroup(stored)
    requires forall e <- stored :: Priced(price, e) >= 0.0
    ensures CostsRecorded(price, stored)
  {
    forall e <- stored ensures GroupedBy(stored)(e).cost <= FoldedBy(price)(e).cost {
      GroupedVersusFolded(price, stored, e);
      GroupTokensSign(stored, e.SqlGroup());
      assert e.NonNegative();
    }
    forall e <- stored | e.Tokens() != 0 ensures e.cost > 0.0 || Priced(price, e) == 0.0 {
      var k := e.TableKey();
      EqualCosts(stored, k, GroupedBy(stored), FoldedBy(price));
      assert SumBy(stored, k, GroupedBy(stored)) == SumBy(stored, k, FoldedBy(price));
      GroupedVersusFolded(price, stored, e);
      assert GroupedBy(stored)(e).cost == FoldedBy(price)(e).cost;
      assert e.NonNegative();
    }
  }

  /** Over non-negative rows and prices, the SQL route gives the very table of the per-entry fold
      exactly when no group mixes empty and non-empty entries and no entry with tokens lacks a
      cost that the price list would supply. */
  lemma RoutesAgreeIff(price: Pricing, stored: seq<Entry>, live: seq<Entry>, rows: seq<ModelRow>)
    requires Combined(price, stored, live, rows) && AllNonNegative(stored) && AllNonNegative(live)
    requires forall e <- stored :: Priced(price, e) >= 0.0
    ensures MergeTable(rows) == ParseTable(price, stored + live) <==>
              NoMixedGroup(stored) && CostsRecorded(price, stored)
  {
    TablesEqualIffSums(price, stored, live, rows);
    if NoMixedGroup(stored) && CostsRecorded(price, stored) {
      AgreementSuffices(price, stored);
    }
    if StoredSumsAgree(price, stored) {
      AgreementUnmixes(price, stored);
      AgreementRecordsCosts(price, stored);
    }
  }

  /** A stored message without tokens beside one with tokens: SQL counts it, the fold does not. */
  lemma MixedGroupDiffers(price: Pricing, live: seq<Entry>, rows: seq<ModelRow>)
    requires forall e :: Priced(price, e) >= 0.0
    requires AllNonNegative(live)
    requires Combined(price, [Entry("tool", "m", "", 1, 0, 0, 0, 0, 1.0, 1),
               Entry("tool", "m", "", 0, 0, 0, 0, 0, 0.0, 1)], live, rows)
    ensures MergeTable(rows) !=
            ParseTable(price, [Entry("tool", "m", "", 1, 0, 0, 0, 0, 1.0, 1),
                Entry("tool", "m", "", 0, 0, 0, 0, 0, 0.0, 1)] + live)
  {
    var full, empty := Entry("tool", "m", "", 1, 0, 0, 0, 0, 1.0, 1), Entry("tool", "m", "", 0, 0, 0, 0, 0, 0.0, 1);
    var stored := [full, empty];
    assert full in stored && empty in stored && empty.SqlGroup() == full.SqlGroup();
    RoutesAgreeIff(price, stored, live, rows);
  }

  /** A stored message with tokens but without a cost: the fold prices it, SQL does not. */
  lemma UnpricedEntryDiffers(price: Pricing, live: seq<Entry>, rows: seq<ModelRow>)
    requires (forall e :: Priced(price, e) >= 0.0) && price("m", 1, 0, 0, 0) > 0.0
    requires AllNonNegative(live) && Combined(price, [Entry("tool", "m", "", 1, 0, 0, 0, 0, 0.0, 1)], live, rows)
    ensures MergeTable(rows) != ParseTable(price, [Entry("tool", "m", "", 1, 0, 0, 0, 0, 0.0, 1)] + live)
  {
    var e := Entry("tool", "m", "", 1, 0, 0, 0, 0, 0.0, 1);
    assert e in [e] && Priced(price, e) > 0.0;
    RoutesAgreeIff(price, [e], live, rows);
  }

  // ----- The tables column by column -----

  /** The entry is shown in the row of `source` and `name`. */
  predicate ShownAs(e: Entry, source: string, name: string) {
    e.source == source && name == if e.provider == "" then e.model else e.provider + "/" + e.model
  }

  ghost function Column(entries: seq<Entry>, k: Key, value: Entry -> int): int {
    if entries == [] then 0
    else
      var e := entries[|entries| - 1];
      Column(entries[..|entries| - 1], k, value) + if ShownAs(e, k.source, k.name) then value(e) else 0
  }

  ghost function CostColumn(entries: seq<Entry>, k: Key, value: Entry -> real): real {
    if entries == [] then 0.0
    else
      var e := entries[|entries| - 1];
      CostColumn(entries[..|entries| - 1], k, value) + if ShownAs(e, k.source, k.name) then value(e) else 0.0
  }

  predicate Empty(e: Entry) {
    e.input == 0 && e.output == 0 && e.cacheRead == 0 && e.cacheWrite == 0 && e.reasoning == 0
  }

  ghost function TokenValue(): Entry -> int {
    (e: Entry) => e.input + e.output + e.cacheRead + e.cacheWrite + e.reasoning
  }

  ghost function InputValue(): Entry -> int {
    (e: Entry) => e.input + e.cacheWrite
  }

  ghost function OutputValue(): Entry -> int {
    (e: Entry) => e.output
  }

  ghost function CacheValue(): Entry -> int {
    (e: Entry) => e.cacheRead
  }

  /** The fold counts the messages of the entries that are not empty ... */
  ghost function FoldMessages(): Entry -> int {
    (e: Entry) => if Empty(e) then 0 else e.messages
  }

  /** ... and prices those whose cost is not recorded. */
  ghost function FoldCost(price: Pricing): Entry -> real {
    (e: Entry) =>
      if Empty(e) then 0.0
      else if e.cost > 0.0 then e.cost
      else price(if e.provider == "" then e.model else e.provider + "/" + e.model,
                 e.input, e.output, e.cacheRead, e.cacheWrite)
  }

  /** Some stored entry of the same source, provider and model is not empty. */
  ghost predicate InUse(stored: seq<Entry>, e: Entry) {
    exists f <- stored :: f.source == e.source && f.provider == e.provider && f.model == e.model && !Empty(f)
  }

  /** SQL counts the messages and costs of every entry of a group in use, as recorded. */
  ghost function SqlMessages(stored: seq<Entry>): Entry -> int {
    (e: Entry) => if InUse(stored, e) then e.messages else 0
  }

  ghost function SqlCost(stored: seq<Entry>): Entry -> real {
    (e: Entry) => if InUse(stored, e) then e.cost else 0.0
  }

  /** A row of the table with its columns summed one by one. */
  ghost function Columns(entries: seq<Entry>, k: Key, cost: Entry -> real, messages: Entry -> int): Stat {
    Stat(Column(entries, k, TokenValue()), Column(entries, k, InputValue()), Column(entries, k, OutputValue()),
         Column(entries, k, CacheValue()), CostColumn(entries, k, cost), Column(entries, k, messages))
  }

  /** What one entry adds to each column. */
  ghost function EntryColumns(e: Entry, cost: Entry -> real, messages: Entry -> int): Stat {
    Stat(TokenValue()(e), InputValue()(e), OutputValue()(e), CacheValue()(e), cost(e), messages(e))
  }

  lemma {:induction false} SumByColumns(entries: seq<Entry>, k: Key, f: Entry -> Stat,
                                        cost: Entry -> real, messages: Entry -> int)
    requires forall e <- entries :: f(e) == EntryColumns(e, cost, messages)
    ensures SumBy(entries, k, f) == Columns(entries, k, cost, messages)
  {
    if entries != [] {
      var init, last := entries[..|entries| - 1], entries[|entries| - 1];
      assert forall e <- init :: e in entries;
      assert last in entries;
      SumByColumns(init, k, f, cost, messages);
      assert ShownAs(last, k.source, k.name) <==> last.TableKey() == k;
    }
  }

  lemma FoldedColumns(price: Pricing, e: Entry)
    requires e.NonNegative()
    ensures FoldedBy(price)(e) == EntryColumns(e, FoldCost(price), FoldMessages())
  {
  }

  lemma GroupedColumns(stored: seq<Entry>, e: Entry)
    requires AllNonNegative(stored) && e in stored
    ensures GroupedBy(stored)(e) == EntryColumns(e, SqlCost(stored), SqlMessages(stored))
  {
    assert e.NonNegative();
    GroupTokensSign(stored, e.SqlGroup());
    forall f <- stored ensures f.Tokens() == 0 <==> Empty(f) {
      assert f.NonNegative();
    }
    assert GroupTokens(stored, e.SqlGroup()) != 0 <==> InUse(stored, e);
  }

  /** The fold over all entries, column by column: a row sums the entries shown under its source and
      displayed name. */
  lemma FoldRowColumns(price: Pricing, entries: seq<Entry>, k: Key)
    requires AllNonNegative(entries)
    ensures var row := Look(ParseTable(price, entries), k);
            && row.tokens == Column(entries, k, TokenValue()) && row.tokensIn == Column(entries, k, InputValue())
            && row.tokensOut == Column(entries, k, OutputValue()) && row.tokensCache == Column(entries, k, CacheValue())
            && row.cost == CostColumn(entries, k, FoldCost(price))
            && row.messages == Column(entries, k, FoldMessages())
  {
    ParseTableIs(price, entries, k);
    forall e <- entries ensures FoldedBy(price)(e) == EntryColumns(e, FoldCost(price), FoldMessages()) {
      assert e.NonNegative();
      FoldedColumns(price, e);
    }
    SumByColumns(entries, k, FoldedBy(price), FoldCost(price), FoldMessages());
  }

  /** The combined table, column by column: the same token columns; messages and costs of the stored
      entries as recorded, of the live ones as the fold has them. */
  lemma CombinedRowColumns(price: Pricing, stored: seq<Entry>, live: seq<Entry>, rows: seq<ModelRow>, k: Key)
    requires Combined(price, stored, live, rows) && AllNonNegative(stored) && AllNonNegative(live)
    ensures var row := Look(MergeTable(rows), k);
            && row.tokens == Column(stored, k, TokenValue()) + Column(live, k, TokenValue())
            && row.tokensIn == Column(stored, k, InputValue()) + Column(live, k, InputValue())
            && row.tokensOut == Column(stored, k, OutputValue()) + Column(live, k, OutputValue())
            && row.tokensCache == Column(stored, k, CacheValue()) + Column(live, k, CacheValue())
            && row.cost == CostColumn(stored, k, SqlCost(stored)) + CostColumn(live, k, FoldCost(price))
            && row.messages == Column(stored, k, SqlMessages(stored)) + Column(live, k, FoldMessages())
  {
    CombinedIs(price, stored, live, rows, k);
    forall e <- stored ensures GroupedBy(stored)(e) == EntryColumns(e, SqlCost(stored), SqlMessages(stored)) {
      GroupedColumns(stored, e);
    }
    SumByColumns(stored, k, GroupedBy(stored), SqlCost(stored), SqlMessages(stored));
    ParseTableIs(price, live, k);
    FoldRowColumns(price, live, k);
  }
}
