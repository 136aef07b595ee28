/** Reset-time clustering and torn-read filtering of `quota_history`.  Percentages are
    integers in units of 0.0001, so the rounding to four places is exact. */
module QuotaEpochs {

  import opened Options

  datatype Reading = Reading(ts: int, pct: int, resets: Option<int>)

  const RESET_JITTER_SECONDS := 5
  const TORN_READ_MIN := 40_0000

  // ----- Clusters of reset times -----

  ghost function Observed(ordered: seq<Reading>): set<int> {
    set r <- ordered | r.resets.Some? :: r.resets.value
  }

  /** A chain of observed reset times from `a` to `b` with gaps of at most five seconds. */
  ghost predicate Chain(observed: set<int>, path: seq<int>, a: int, b: int) {
    && path != [] && path[0] == a && path[|path| - 1] == b
    && (forall x <- path :: x in observed)
    && (forall i :: 0 <= i < |path| - 1 ==> -5 <= path[i + 1] - path[i] <= 5)
  }

  ghost predicate Joined(observed: set<int>, a: int, b: int) {
    exists path :: Chain(observed, path, a, b)
  }

  /** What the epoch dictionary must be: equal epochs exactly for joined reset times, each
      epoch named by the least member of its cluster. */
  ghost predicate IsEpochMap(epochs: map<int, int>, observed: set<int>) {
    && epochs.Keys == observed
    && (forall a <- observed, b <- observed :: epochs[a] == epochs[b] <==> Joined(observed, a, b))
    && (forall a <- observed :: epochs[a] in observed && Joined(observed, a, epochs[a]))
    && (forall a <- observed, b <- observed :: Joined(observed, a, b) ==> epochs[a] <= b)
  }

  ghost predicate Ascending(s: seq<int>) {
    forall i, j :: 0 <= i < j < |s| ==> s[i] < s[j]
  }

  ghost function Elements(s: seq<int>): set<int> {
    set x | x in s
  }

  /** One insertion of `sorted`. */
  function InsertAscending(s: seq<int>, x: int): seq<int> {
    if s == [] then [x]
    else if x < s[0] then [x] + s
    else if x == s[0] then s
    else [s[0]] + InsertAscending(s[1..], x)
  }

  lemma {:induction false} InsertElements(s: seq<int>, x: int)
    ensures Elements(InsertAscending(s, x)) == Elements(s) + {x}
  {
    if s != [] && x > s[0] {
      InsertElements(s[1..], x);
      ElementsFirst(s[0], s[1..]);
      ElementsFirst(s[0], InsertAscending(s[1..], x));
      assert s == [s[0]] + s[1..];
    } else {
      ElementsFirst(x, s);
    }
  }

  lemma ElementsFirst(x: int, s: seq<int>)
    ensures Elements([x] + s) == {x} + Elements(s)
  {
  }

  lemma AscendingFirst(x: int, s: seq<int>)
    requires Ascending(s) && forall y <- Elements(s) :: x < y
    ensures Ascending([x] + s)
  {
    var r := [x] + s;
    forall i, j | 0 <= i < j < |r| ensures r[i] < r[j] {
      assert s[j - 1] in Elements(s);
      if i > 0 {
        assert s[i - 1] < s[j - 1];
      }
    }
  }

  lemma {:induction false} InsertAscends(s: seq<int>, x: int)
    requires Ascending(s)
    ensures Ascending(InsertAscending(s, x))
  {
    if s != [] && x != s[0] {
      var rest := s[1..];
      assert Ascending(rest) by {
        assert forall i :: 0 <= i < |rest| ==> rest[i] == s[i + 1];
      }
      assert forall y <- Elements(rest) :: s[0] < y;
      if x < s[0] {
        AscendingFirst(x, s);
      } else {
        InsertAscends(rest, x);
        InsertElements(rest, x);
        AscendingFirst(s[0], InsertAscending(rest, x));
      }
    }
  }

  method SortedResets(ordered: seq<Reading>) returns (sorted: seq<int>)
    ensures Ascending(sorted) && Elements(sorted) == Observed(ordered)
  {
    sorted := [];
    for n := 0 to |ordered|
      invariant Ascending(sorted) && Elements(sorted) == Observed(ordered[..n])
    {
      assert ordered[..n + 1] == ordered[..n] + [ordered[n]];
      if ordered[n].resets.Some? {
        InsertAscends(sorted, ordered[n].resets.value);
        InsertElements(sorted, ordered[n].resets.value);
        sorted := InsertAscending(sorted, ordered[n].resets.value);
      }
    }
    assert ordered[..|ordered|] == ordered;
  }

  /** Index of the first member of the cluster that position `k` belongs to. */
  ghost function AnchorIndex(sorted: seq<int>, k: nat): (a: nat)
    requires k < |sorted|
    ensures a <= k
  {
    if k == 0 || sorted[k] - sorted[k - 1] > RESET_JITTER_SECONDS then k else AnchorIndex(sorted, k - 1)
  }

  lemma {:induction false} AnchorStartsCluster(sorted: seq<int>, k: nat)
    requires k < |sorted|
    ensures var a := AnchorIndex(sorted, k);
            && (a == 0 || sorted[a] - sorted[a - 1] > RESET_JITTER_SECONDS)
            && (forall i :: a < i <= k ==> sorted[i] - sorted[i - 1] <= RESET_JITTER_SECONDS)
  {
    if k > 0 && sorted[k] - sorted[k - 1] <= RESET_JITTER_SECONDS {
      AnchorStartsCluster(sorted, k - 1);
    }
  }

  /** A chain cannot leave the members below a wide gap. */
  lemma {:induction false} ChainStaysBelow(observed: set<int>, path: seq<int>, a: int, b: int, low: int, high: int)
    requires Chain(observed, path, a, b) && a <= low && high - low > RESET_JITTER_SECONDS
    requires forall x <- observed :: x <= low || x >= high
    ensures b <= low
    decreases |path|
  {
    if |path| > 1 {
      assert path[1] in observed;
      ChainStaysBelow(observed, path[1..], path[1], b, low, high);
    }
  }

  lemma JoinedSymmetric(observed: set<int>, a: int, b: int)
    requires Joined(observed, a, b)
    ensures Joined(observed, b, a)
  {
    var path :| Chain(observed, path, a, b);
    var back := seq(|path|, i requires 0 <= i < |path| => path[|path| - 1 - i]);
    assert forall x <- back :: x in path;
    assert Chain(observed, back, b, a);
  }

  lemma StretchIsChain(sorted: seq<int>, i: nat, j: nat)
    requires Ascending(sorted) && i <= j < |sorted|
    requires forall k :: i < k <= j ==> sorted[k] - sorted[k - 1] <= RESET_JITTER_SECONDS
    ensures Joined(Elements(sorted), sorted[i], sorted[j])
  {
    var path := sorted[i..j + 1];
    assert forall x <- path :: x in sorted;
    forall k | 0 <= k < |path| - 1 ensures 0 <= path[k + 1] - path[k] <= RESET_JITTER_SECONDS {
      assert path[k] == sorted[i + k] && path[k + 1] == sorted[i + k + 1];
    }
    assert Chain(Elements(sorted), path, sorted[i], sorted[j]);
  }

  lemma GapSeparates(sorted: seq<int>, i: nat, g: nat, j: nat)
    requires Ascending(sorted) && i < g <= j < |sorted|
    requires sorted[g] - sorted[g - 1] > RESET_JITTER_SECONDS
    ensures !Joined(Elements(sorted), sorted[i], sorted[j])
  {
    forall x <- Elements(sorted) ensures x <= sorted[g - 1] || x >= sorted[g] {
      var k :| 0 <= k < |sorted| && sorted[k] == x;
    }
    forall path | Chain(Elements(sorted), path, sorted[i], sorted[j]) ensures false {
      ChainStaysBelow(Elements(sorted), path, sorted[i], sorted[j], sorted[g - 1], sorted[g]);
    }
  }

  /** Positions `i <= j` are joined exactly when they have the same anchor. */
  lemma JoinedIffSameAnchor(sorted: seq<int>, i: nat, j: nat)
    requires Ascending(sorted) && i <= j < |sorted|
    ensures Joined(Elements(sorted), sorted[i], sorted[j]) <==> AnchorIndex(sorted, i) == AnchorIndex(sorted, j)
  {
    var g := AnchorIndex(sorted, j);
    AnchorStartsCluster(sorted, j);
    if g <= i {
      SameAnchorBetween(sorted, g, i);
      StretchIsChain(sorted, i, j);
    } else {
      GapSeparates(sorted, i, g, j);
    }
  }

  lemma {:induction false} SameAnchorBetween(sorted: seq<int>, g: nat, i: nat)
    requires g <= i < |sorted| && (g == 0 || sorted[g] - sorted[g - 1] > RESET_JITTER_SECONDS)
    requires forall k :: g < k <= i ==> sorted[k] - sorted[k - 1] <= RESET_JITTER_SECONDS
    ensures AnchorIndex(sorted, i) == g
    decreases i
  {
    if g < i {
      SameAnchorBetween(sorted, g, i - 1);
    }
  }

  /** The dictionary once the first `n` reset times have been given their anchor. */
  ghost function AnchorMap(sorted: seq<int>, n: nat): map<int, int>
    requires n <= |sorted|
  {
    if n == 0 then map[] else AnchorMap(sorted, n - 1)[sorted[n - 1] := sorted[AnchorIndex(sorted, n - 1)]]
  }

  lemma {:induction false} AnchorMapKeys(sorted: seq<int>, n: nat)
    requires n <= |sorted|
    ensures AnchorMap(sorted, n).Keys == Elements(sorted[..n])
  {
    if n > 0 {
      AnchorMapKeys(sorted, n - 1);
      assert sorted[..n] == sorted[..n - 1] + [sorted[n - 1]];
      assert Elements(sorted[..n]) == Elements(sorted[..n - 1]) + {sorted[n - 1]};
    }
  }

  lemma {:induction false} AnchorMapAt(sorted: seq<int>, n: nat, k: nat)
    requires k < n <= |sorted| && Ascending(sorted)
    ensures sorted[k] in AnchorMap(sorted, n) && AnchorMap(sorted, n)[sorted[k]] == sorted[AnchorIndex(sorted, k)]
    decreases n
  {
    if k < n - 1 {
      AnchorMapAt(sorted, n - 1, k);
    }
  }

  /** The clustering loop of `_flush`. */
  method ResetEpochs(ordered: seq<Reading>) returns (epochs: map<int, int>)
    ensures IsEpochMap(epochs, Observed(ordered))
  {
    var sorted := SortedResets(ordered);
    epochs := map[];
    var anchor := 0;
    for i := 0 to |sorted|
      invariant epochs == AnchorMap(sorted, i)
      invariant i > 0 ==> anchor == sorted[AnchorIndex(sorted, i - 1)]
    {
      if i == 0 || sorted[i] - sorted[i - 1] > RESET_JITTER_SECONDS {
        anchor := sorted[i];
      }
      epochs := epochs[sorted[i] := anchor];
    }
    assert sorted[..|sorted|] == sorted;
    AnchorMapKeys(sorted, |sorted|);
    forall k | 0 <= k < |sorted| ensures sorted[k] in epochs && epochs[sorted[k]] == sorted[AnchorIndex(sorted, k)] {
      AnchorMapAt(sorted, |sorted|, k);
    }
    AnchorsAreEpochs(epochs, sorted);
  }

  ghost predicate ByAnchor(epochs: map<int, int>, sorted: seq<int>) {
    && epochs.Keys == Elements(sorted)
    && (forall k {:trigger AnchorIndex(sorted, k)} :: 0 <= k < |sorted| ==>
        sorted[k] in epochs && epochs[sorted[k]] == sorted[AnchorIndex(sorted, k)])
  }

  lemma PairByAnchor(sorted: seq<int>, i: nat, j: nat)
    requires Ascending(sorted) && i < |sorted| && j < |sorted|
    ensures sorted[AnchorIndex(sorted, i)] == sorted[AnchorIndex(sorted, j)] <==>
              Joined(Elements(sorted), sorted[i], sorted[j])
    ensures Joined(Elements(sorted), sorted[i], sorted[j]) ==> sorted[AnchorIndex(sorted, i)] <= sorted[j]
  {
    var all := Elements(sorted);
    if i <= j {
      JoinedIffSameAnchor(sorted, i, j);
    } else {
      JoinedIffSameAnchor(sorted, j, i);
      if Joined(all, sorted[i], sorted[j]) { JoinedSymmetric(all, sorted[i], sorted[j]); }
      if Joined(all, sorted[j], sorted[i]) { JoinedSymmetric(all, sorted[j], sorted[i]); }
    }
    assert AnchorIndex(sorted, i) <= i && AnchorIndex(sorted, j) <= j;
  }

  lemma AnchorsAreEpochs(epochs: map<int, int>, sorted: seq<int>)
    requires Ascending(sorted) && ByAnchor(epochs, sorted)
    ensures IsEpochMap(epochs, Elements(sorted))
  {
    var observed := Elements(sorted);
    forall a <- observed, b <- observed
      ensures epochs[a] == epochs[b] <==> Joined(observed, a, b)
      ensures Joined(observed, a, b) ==> epochs[a] <= b
    {
      var i :| 0 <= i < |sorted| && sorted[i] == a;
      var j :| 0 <= j < |sorted| && sorted[j] == b;
      PairByAnchor(sorted, i, j);
    }
    forall a <- observed ensures epochs[a] in observed && Joined(observed, a, epochs[a]) {
      var i :| 0 <= i < |sorted| && sorted[i] == a;
      var g := AnchorIndex(sorted, i);
      AnchorStartsCluster(sorted, i);
      assert sorted[g] in sorted;
      StretchIsChain(sorted, g, i);
      JoinedSymmetric(observed, sorted[g], a);
    }
  }

  /** The specification leaves no freedom. */
  lemma EpochMapUnique(e: map<int, int>, f: map<int, int>, observed: set<int>)
    requires IsEpochMap(e, observed) && IsEpochMap(f, observed)
    ensures e == f
  {
    forall a <- observed ensures e[a] == f[a] {
      assert e[a] <= f[a] && f[a] <= e[a];
    }
  }

  /** `reset_epoch.get(resets, resets)`; readings without a reset time share the epoch `None`. */
  function EpochOf(epochs: map<int, int>, r: Reading): Option<int> {
    if r.resets.Some? && r.resets.value in epochs then Some(epochs[r.resets.value]) else r.resets
  }

  // ----- Torn reads -----

  /** At least 40 points above the next reading of its epoch, and either the first of its run
      or at least 40 points above the previous one as well. */
  predicate Torn(s: seq<Reading>, epochs: map<int, int>, i: nat)
    requires i < |s|
  {
    && i + 1 < |s| && EpochOf(epochs, s[i + 1]) == EpochOf(epochs, s[i])
    && s[i].pct - s[i + 1].pct >= TORN_READ_MIN
    && (i == 0 || EpochOf(epochs, s[i - 1]) != EpochOf(epochs, s[i]) || s[i].pct - s[i - 1].pct >= TORN_READ_MIN)
  }

  /** The readings among the first `n` that survive. */
  function KeptTo(s: seq<Reading>, epochs: map<int, int>, n: nat): seq<Reading>
    requires n <= |s|
  {
    if n == 0 then [] else KeptTo(s, epochs, n - 1) + if Torn(s, epochs, n - 1) then [] else [s[n - 1]]
  }

  function Kept(s: seq<Reading>, epochs: map<int, int>): seq<Reading> {
    KeptTo(s, epochs, |s|)
  }

  /** `_drop_torn_reads`, marking a `keep` array first. */
  method DropTornReads(ordered: seq<Reading>, epochs: map<int, int>) returns (kept: seq<Reading>)
    ensures kept == Kept(ordered, epochs)
  {
    var keep := new bool[|ordered|](_ => true);
    for i := 0 to |ordered|
      invariant forall k :: 0 <= k < i ==> keep[k] == !Torn(ordered, epochs, k)
      invariant forall k :: i <= k < |ordered| ==> keep[k]
    {
      var e := EpochOf(epochs, ordered[i]);
      var next := if i + 1 < |ordered| && EpochOf(epochs, ordered[i + 1]) == e then Some(ordered[i + 1].pct) else None;
      if next.None? || ordered[i].pct - next.value < TORN_READ_MIN {
        continue;
      }
      var previous := if i - 1 >= 0 && EpochOf(epochs, ordered[i - 1]) == e then Some(ordered[i - 1].pct) else None;
      if previous.None? || ordered[i].pct - previous.value >= TORN_READ_MIN {
        keep[i] := false;
      }
    }
    kept := [];
    for i := 0 to |ordered|
      invariant kept == KeptTo(ordered, epochs, i)
    {
      if keep[i] {
        kept := kept + [ordered[i]];
      }
    }
  }

  /** Two neighbours of one epoch are never both dropped. */
  lemma NeverTwoNeighbours(s: seq<Reading>, epochs: map<int, int>, i: nat)
    requires i + 1 < |s| && EpochOf(epochs, s[i]) == EpochOf(epochs, s[i + 1])
    ensures !(Torn(s, epochs, i) && Torn(s, epochs, i + 1))
  {
  }

  /** The positions below `n` whose readings survive. */
  ghost function KeptAt(s: seq<Reading>, epochs: map<int, int>, n: nat): seq<nat>
    requires n <= |s|
  {
    if n == 0 then [] else KeptAt(s, epochs, n - 1) + if Torn(s, epochs, n - 1) then [] else [n - 1]
  }

  lemma {:induction false} KeptAtReading(s: seq<Reading>, epochs: map<int, int>, n: nat, k: nat)
    requires n <= |s|
    ensures |KeptAt(s, epochs, n)| == |KeptTo(s, epochs, n)|
    ensures k < |KeptAt(s, epochs, n)| ==>
              var i := KeptAt(s, epochs, n)[k]; i < n && !Torn(s, epochs, i) && KeptTo(s, epochs, n)[k] == s[i]
  {
    if n > 0 {
      KeptAtReading(s, epochs, n - 1, k);
    }
  }

  lemma {:induction false} KeptAtAscends(s: seq<Reading>, epochs: map<int, int>, n: nat, j: nat, k: nat)
    requires n <= |s| && j < k < |KeptAt(s, epochs, n)|
    ensures KeptAt(s, epochs, n)[j] < KeptAt(s, epochs, n)[k]
  {
    if k < |KeptAt(s, epochs, n - 1)| {
      KeptAtAscends(s, epochs, n - 1, j, k);
    } else {
      KeptAtReading(s, epochs, n - 1, j);
    }
  }

  lemma {:induction false} KeptAtHas(s: seq<Reading>, epochs: map<int, int>, n: nat, i: nat)
    requires i < n <= |s| && !Torn(s, epochs, i)
    ensures i in KeptAt(s, epochs, n)
  {
    if i < n - 1 {
      KeptAtHas(s, epochs, n - 1, i);
    }
  }

  /** The next reading belongs to the same epoch and is at least 40 points lower. */
  ghost predicate FallsBehind(s: seq<Reading>, epochs: map<int, int>, i: nat)
    requires i < |s|
  {
    i + 1 < |s| && EpochOf(epochs, s[i]) == EpochOf(epochs, s[i + 1]) && s[i].pct >= s[i + 1].pct + 40_0000
  }

  /** The reading opens its run, or the previous one of its epoch is at least 40 points lower. */
  ghost predicate RisesBefore(s: seq<Reading>, epochs: map<int, int>, i: nat)
    requires i < |s|
  {
    0 < i && EpochOf(epochs, s[i - 1]) == EpochOf(epochs, s[i]) ==> s[i].pct >= s[i - 1].pct + 40_0000
  }

  /** Filtering yields a subsequence: a reading is dropped exactly when the next one of its epoch is
      at least 40 points lower and it opens its run or stands as high above the previous one. */
  lemma KeptIsSubsequence(s: seq<Reading>, epochs: map<int, int>) returns (at: seq<nat>)
    ensures |at| == |Kept(s, epochs)|
    ensures forall k :: 0 <= k < |at| ==> at[k] < |s| && Kept(s, epochs)[k] == s[at[k]]
    ensures forall j, k :: 0 <= j < k < |at| ==> at[j] < at[k]
    ensures forall i: nat :: i < |s| ==> (i !in at <==> FallsBehind(s, epochs, i) && RisesBefore(s, epochs, i))
  {
    at := KeptAt(s, epochs, |s|);
    KeptAtReading(s, epochs, |s|, 0);
    forall k | 0 <= k < |at| ensures at[k] < |s| && Kept(s, epochs)[k] == s[at[k]] && !Torn(s, epochs, at[k]) {
      KeptAtReading(s, epochs, |s|, k);
    }
    forall j, k | 0 <= j < k < |at| ensures at[j] < at[k] {
      KeptAtAscends(s, epochs, |s|, j, k);
    }
    forall i: nat | i < |s| ensures i in at <==> !Torn(s, epochs, i) {
      if !Torn(s, epochs, i) {
        KeptAtHas(s, epochs, |s|, i);
      }
    }
    forall i: nat | i < |s| ensures Torn(s, epochs, i) <==> FallsBehind(s, epochs, i) && RisesBefore(s, epochs, i) {
    }
  }

  /** The last reading of the run that position `i` lies in. */
  ghost function RunEnd(s: seq<Reading>, epochs: map<int, int>, i: nat): (j: nat)
    requires i < |s|
    ensures i <= j < |s| && EpochOf(epochs, s[j]) == EpochOf(epochs, s[i])
    ensures j + 1 < |s| ==> EpochOf(epochs, s[j + 1]) != EpochOf(epochs, s[j])
    decreases |s| - i
  {
    if i + 1 < |s| && EpochOf(epochs, s[i + 1]) == EpochOf(epochs, s[i]) then RunEnd(s, epochs, i + 1) else i
  }

  /** The last reading of every run survives, so no epoch disappears. */
  lemma NoEpochDisappears(s: seq<Reading>, epochs: map<int, int>, i: nat)
    requires i < |s|
    ensures s[RunEnd(s, epochs, i)] in Kept(s, epochs)
    ensures exists r <- Kept(s, epochs) :: EpochOf(epochs, r) == EpochOf(epochs, s[i])
  {
    var j := RunEnd(s, epochs, i);
    var at := KeptIsSubsequence(s, epochs);
    assert !FallsBehind(s, epochs, j) && j in at;
    var k :| 0 <= k < |at| && at[k] == j;
    assert Kept(s, epochs)[k] == s[j];
  }

  // ----- Isolated spikes are undone -----

  /** The first `n` readings of `base`, each preceded by its spike if it has one. */
  ghost function WithSpikes(base: seq<Reading>, spikes: map<nat, Reading>, n: nat): seq<Reading>
    requires n <= |base|
  {
    if n == 0 then []
    else WithSpikes(base, spikes, n - 1) + (if n - 1 in spikes then [spikes[n - 1]] else []) + [base[n - 1]]
  }

  /** Within a run of one epoch the readings never fall. */
  ghost predicate Climbing(base: seq<Reading>, epochs: map<int, int>) {
    forall i :: 0 <= i < |base| - 1 && EpochOf(epochs, base[i]) == EpochOf(epochs, base[i + 1]) ==>
      base[i].pct <= base[i + 1].pct
  }

  ghost predicate AreSpikes(base: seq<Reading>, spikes: map<nat, Reading>, epochs: map<int, int>) {
    forall j :: j in spikes ==>
      j < |base| && EpochOf(epochs, spikes[j]) == EpochOf(epochs, base[j]) &&
          spikes[j].pct - base[j].pct >= TORN_READ_MIN
  }

  /** What the filter needs: readings never drop by 40 points within a run, and a spike stands at
      least 40 points above both its neighbours of its epoch. */
  ghost predicate Isolated(base: seq<Reading>, spikes: map<nat, Reading>, epochs: map<int, int>) {
    && (forall i :: 0 <= i < |base| - 1 && EpochOf(epochs, base[i]) == EpochOf(epochs, base[i + 1]) ==>
          base[i].pct - base[i + 1].pct < TORN_READ_MIN)
    && AreSpikes(base, spikes, epochs)
    && (forall j :: j in spikes && 0 < j && EpochOf(epochs, base[j - 1]) == EpochOf(epochs, base[j]) ==>
          spikes[j].pct - base[j - 1].pct >= TORN_READ_MIN)
  }

  lemma ClimbingIsolates(base: seq<Reading>, spikes: map<nat, Reading>, epochs: map<int, int>)
    requires Climbing(base, epochs) && AreSpikes(base, spikes, epochs)
    ensures Isolated(base, spikes, epochs)
  {
    forall j | j in spikes && 0 < j && EpochOf(epochs, base[j - 1]) == EpochOf(epochs, base[j])
      ensures spikes[j].pct - base[j - 1].pct >= TORN_READ_MIN
    {
      var i := j - 1;
      assert base[i].pct <= base[i + 1].pct;
    }
  }

  lemma {:induction false} WithSpikesPrefix(base: seq<Reading>, spikes: map<nat, Reading>, n: nat, m: nat)
    requires n <= m <= |base|
    ensures WithSpikes(base, spikes, n) <= WithSpikes(base, spikes, m)
    decreases m
  {
    if n < m {
      WithSpikesPrefix(base, spikes, n, m - 1);
    }
  }

  /** Where reading `n` and its spike stand in the spiked series. */
  lemma SpikeLayout(base: seq<Reading>, spikes: map<nat, Reading>, n: nat)
    requires n < |base|
    ensures var all, at, end := WithSpikes(base, spikes, |base|), |WithSpikes(base, spikes, n)|,
              |WithSpikes(base, spikes, n + 1)|;
            && end == at + (if n in spikes then 2 else 1) && end <= |all|
            && all[end - 1] == base[n]
            && all[at] == if n in spikes then spikes[n] else base[n]
  {
    WithSpikesPrefix(base, spikes, n + 1, |base|);
    var all, upTo := WithSpikes(base, spikes, |base|), WithSpikes(base, spikes, n + 1);
    assert forall k :: 0 <= k < |upTo| ==> all[k] == upTo[k];
  }

  /** A reading of the base survives; its spike does not. */
  lemma SpikeVerdicts(base: seq<Reading>, spikes: map<nat, Reading>, epochs: map<int, int>, n: nat)
    requires n < |base| && Isolated(base, spikes, epochs)
    ensures var all, at := WithSpikes(base, spikes, |base|), |WithSpikes(base, spikes, n)|;
            var end := |WithSpikes(base, spikes, n + 1)|;
            && end == at + (if n in spikes then 2 else 1) && end <= |all| && all[end - 1] == base[n]
            && !Torn(all, epochs, end - 1)
            && (n in spikes ==> Torn(all, epochs, at))
  {
    SpikeLayout(base, spikes, n);
    ReadingSurvives(base, spikes, epochs, n);
    if n in spikes {
      SpikeFalls(base, spikes, epochs, n);
    }
  }

  lemma ReadingSurvives(base: seq<Reading>, spikes: map<nat, Reading>, epochs: map<int, int>, n: nat)
    requires n < |base| && Isolated(base, spikes, epochs)
    ensures var end := |WithSpikes(base, spikes, n + 1)|;
            0 < end <= |WithSpikes(base, spikes, |base|)| && !Torn(WithSpikes(base, spikes, |base|), epochs, end - 1)
  {
    SpikeLayout(base, spikes, n);
    if n + 1 < |base| {
      SpikeLayout(base, spikes, n + 1);
      if n + 1 in spikes {
        assert (n + 1) - 1 == n;
      }
    }
  }

  lemma SpikeFalls(base: seq<Reading>, spikes: map<nat, Reading>, epochs: map<int, int>, n: nat)
    requires n < |base| && n in spikes && Isolated(base, spikes, epochs)
    ensures var all, at := WithSpikes(base, spikes, |base|), |WithSpikes(base, spikes, n)|;
            at < |all| && Torn(all, epochs, at)
  {
    SpikeLayout(base, spikes, n);
    if n > 0 {
      SpikeLayout(base, spikes, n - 1);
    }
  }

  lemma KeptPair(s: seq<Reading>, epochs: map<int, int>, at: nat, end: nat)
    requires at < end <= |s| && end <= at + 2 && !Torn(s, epochs, end - 1) && (end == at + 2 ==> Torn(s, epochs, at))
    ensures KeptTo(s, epochs, end) == KeptTo(s, epochs, at) + [s[end - 1]]
  {
    if end == at + 2 {
      assert KeptTo(s, epochs, at + 1) == KeptTo(s, epochs, at);
    }
  }

  lemma Snoc<T>(s: seq<T>, m: nat)
    requires m < |s|
    ensures s[..m + 1] == s[..m] + [s[m]]
  {
  }

  /** Filtering the first `n` readings with their spikes leaves the first `n` readings. */
  lemma {:induction false} SpikesDroppedTo(base: seq<Reading>, spikes: map<nat, Reading>, epochs: map<int, int>, n: nat)
    requires n <= |base| && Isolated(base, spikes, epochs)
    ensures |WithSpikes(base, spikes, n)| <= |WithSpikes(base, spikes, |base|)|
    ensures KeptTo(WithSpikes(base, spikes, |base|), epochs, |WithSpikes(base, spikes, n)|) == base[..n]
    decreases n
  {
    if n > 0 {
      var m := n - 1;
      SpikesDroppedTo(base, spikes, epochs, m);
      var all, at, end := WithSpikes(base, spikes, |base|), |WithSpikes(base, spikes, m)|,
          |WithSpikes(base, spikes, m + 1)|;
      SpikeVerdicts(base, spikes, epochs, m);
      KeptPair(all, epochs, at, end);
      Snoc(base, m);
    }
  }

  lemma IsolatedAreUndone(base: seq<Reading>, spikes: map<nat, Reading>, epochs: map<int, int>)
    requires Isolated(base, spikes, epochs)
    ensures Kept(WithSpikes(base, spikes, |base|), epochs) == base
  {
    SpikesDroppedTo(base, spikes, epochs, |base|);
    assert base[..|base|] == base;
  }

  /** Inserting isolated spikes into a climbing series and filtering gives the series back. */
  lemma SpikesAreUndone(base: seq<Reading>, spikes: map<nat, Reading>, epochs: map<int, int>)
    requires Climbing(base, epochs) && AreSpikes(base, spikes, epochs)
    ensures Kept(WithSpikes(base, spikes, |base|), epochs) == base
  {
    ClimbingIsolates(base, spikes, epochs);
    IsolatedAreUndone(base, spikes, epochs);
  }

  /** A climbing series passes the filter unchanged. */
  lemma ClimbingIsKept(base: seq<Reading>, epochs: map<int, int>)
    requires Climbing(base, epochs)
    ensures Kept(base, epochs) == base
  {
    SpikesAreUndone(base, map[], epochs);
    NoSpikes(base, |base|);
    assert base[..|base|] == base;
  }

  lemma {:induction false} SpikesObserved(base: seq<Reading>, spikes: map<nat, Reading>, n: nat)
    requires n <= |base|
    requires forall j :: j in spikes && spikes[j].resets.Some? ==> spikes[j].resets.value in Observed(base)
    ensures Observed(base[..n]) <= Observed(WithSpikes(base, spikes, n)) <= Observed(base)
  {
    if n > 0 {
      SpikesObserved(base, spikes, n - 1);
      var before, after := WithSpikes(base, spikes, n - 1), WithSpikes(base, spikes, n);
      assert base[..n] == base[..n - 1] + [base[n - 1]];
      assert Observed(base[..n]) == Observed(base[..n - 1]) + Observed([base[n - 1]]);
      if n - 1 in spikes {
        assert after == before + [spikes[n - 1], base[n - 1]];
        assert Observed(after) == Observed(before) + Observed([spikes[n - 1]]) + Observed([base[n - 1]]);
      } else {
        assert after == before + [base[n - 1]];
        assert Observed(after) == Observed(before) + Observed([base[n - 1]]);
      }
      assert base[n - 1] in base;
    }
  }

  /** Spikes stamped with reset times that the series has anyway do not move the epochs either:
      the clustering of the spiked series filters it back to the series. */
  lemma SpikesLeaveEpochs(base: seq<Reading>, spikes: map<nat, Reading>, epochs: map<int, int>, spiked: map<int, int>)
    requires IsEpochMap(epochs, Observed(base)) && IsEpochMap(spiked, Observed(WithSpikes(base, spikes, |base|)))
    requires forall j :: j in spikes && spikes[j].resets.Some? ==> spikes[j].resets.value in Observed(base)
    requires Climbing(base, epochs) && AreSpikes(base, spikes, epochs)
    ensures spiked == epochs && Kept(WithSpikes(base, spikes, |base|), spiked) == base == Kept(base, epochs)
  {
    SpikesObserved(base, spikes, |base|);
    assert base[..|base|] == base;
    EpochMapUnique(spiked, epochs, Observed(base));
    SpikesAreUndone(base, spikes, epochs);
    ClimbingIsKept(base, epochs);
  }

  lemma {:induction false} NoSpikes(base: seq<Reading>, n: nat)
    requires n <= |base|
    ensures WithSpikes(base, map[], n) == base[..n]
  {
    if n > 0 {
      NoSpikes(base, n - 1);
    }
  }
}
