/** Consumption derivation of `quota_history`: running highs per reset epoch for fixed
    windows, adjacent deltas for rolling or unknown windows, bucketed by period. */
module QuotaConsumption {
  import opened Sums
  import opened Options
  import opened QuotaEpochs

  const RECOVERY_EPSILON := 5000
  const HOUR := 3600
  const DAY := 86400

  type Epoch = Option<int>

  /** `_quota_history_uses_adjacent_deltas`; `weekly` says that the series is a Codex 7-day one. */
  predicate Adjacent(weekly: bool, r: Reading) {
    r.resets.None? || weekly
  }

  predicate IsWeekly(provider: string, bucket: string) {
    provider == "codex" && (bucket == "7d" || (|bucket| >= 3 && bucket[|bucket| - 3..] == "_7d"))
  }

  /** The reading comes back from below to the neighbourhood of an earlier high, or above it. */
  predicate Recovers(prev: int, pct: int, priorHigh: Option<int>) {
    priorHigh.Some? && prev < priorHigh.value && pct >= priorHigh.value - 5000
  }

  /** `_quota_adjacent_consumed_delta`. */
  function AdjacentDelta(prev: int, pct: int, priorHigh: Option<int>): (delta: int)
    // A rise that stays clear of an earlier high counts in full, unless it is noise.
    ensures !Recovers(prev, pct, priorHigh) && pct - prev > 5000 ==> delta == pct - prev
    // A recovery counts only by what it exceeds the earlier high.
    ensures Recovers(prev, pct, priorHigh) && pct - priorHigh.value > 5000 ==> delta == pct - priorHigh.value
    // Nothing else counts.
    ensures delta > 0 ==> 5000 < delta <= pct - prev
    ensures delta > 0 && Recovers(prev, pct, priorHigh) ==> pct > priorHigh.value + 5000
    ensures delta >= 0
  {
    if pct <= prev then 0
    else
      var delta :=
        if priorHigh.Some? && prev < priorHigh.value && pct >= priorHigh.value - RECOVERY_EPSILON then
          if pct - priorHigh.value > 0 then pct - priorHigh.value else 0
        else pct - prev;
      if delta <= RECOVERY_EPSILON then 0 else delta
  }

  /** The multiple of `period` at or before `ts`. */
  function PeriodStart(ts: int, period: int): (start: int)
    requires period > 0
    ensures start == period * (ts / period) && start <= ts < start + period
  {
    ts - ts % period
  }

  // ----- What each reading contributes, said about the series -----

  /** The highest reading of epoch `e` among the first `n`. */
  ghost function High(s: seq<Reading>, epochs: map<int, int>, e: Epoch, n: nat): Option<int>
    requires n <= |s|
  {
    if n == 0 then None
    else
      var before, r := High(s, epochs, e, n - 1), s[n - 1];
      if EpochOf(epochs, r) != e then before
      else if before.Some? && before.value >= r.pct then before else Some(r.pct)
  }

  /** The latest reading of epoch `e` among the first `n`. */
  ghost function Latest(s: seq<Reading>, epochs: map<int, int>, e: Epoch, n: nat): Option<int>
    requires n <= |s|
  {
    if n == 0 then None
    else if EpochOf(epochs, s[n - 1]) == e then Some(s[n - 1].pct)
    else Latest(s, epochs, e, n - 1)
  }

  /** The first reading of epoch `e` among the first `n`. */
  ghost function First(s: seq<Reading>, epochs: map<int, int>, e: Epoch, n: nat): Option<int>
    requires n <= |s|
  {
    if n == 0 then None
    else
      var before := First(s, epochs, e, n - 1);
      if before.Some? then before
      else if EpochOf(epochs, s[n - 1]) == e then Some(s[n - 1].pct) else None
  }

  /** How much reading `i` adds: its rise above everything its epoch has seen, or, for
      adjacent series, its adjusted rise above the epoch's latest reading. */
  ghost function Contribution(s: seq<Reading>, epochs: map<int, int>, weekly: bool, i: nat): int
    requires i < |s|
  {
    var e := EpochOf(epochs, s[i]);
    var high, latest := High(s, epochs, e, i), Latest(s, epochs, e, i);
    if high.None? || latest.None? then 0
    else if Adjacent(weekly, s[i]) then AdjacentDelta(latest.value, s[i].pct, high)
    else if s[i].pct > high.value then s[i].pct - high.value
    else 0
  }

  /** Contributions of the first `n` readings that fall into the period starting at `k`. */
  ghost function BucketSum(s: seq<Reading>, epochs: map<int, int>, weekly: bool, period: int, k: int, n: nat): int
    requires n <= |s| && period > 0
  {
    if n == 0 then 0
    else BucketSum(s, epochs, weekly, period, k, n - 1) +
         if PeriodStart(s[n - 1].ts, period) == k then Contribution(s, epochs, weekly, n - 1) else 0
  }

  ghost function Total(s: seq<Reading>, epochs: map<int, int>, weekly: bool, n: nat): int
    requires n <= |s|
  {
    if n == 0 then 0 else Total(s, epochs, weekly, n - 1) + Contribution(s, epochs, weekly, n - 1)
  }

  function Get(m: map<int, int>, k: int): int {
    if k in m then m[k] else 0
  }

  lemma {:induction false} HighLatestTogether(s: seq<Reading>, epochs: map<int, int>, e: Epoch, n: nat)
    requires n <= |s|
    ensures High(s, epochs, e, n).Some? <==> Latest(s, epochs, e, n).Some?
    ensures High(s, epochs, e, n).Some? <==> First(s, epochs, e, n).Some?
    ensures High(s, epochs, e, n).Some? ==> First(s, epochs, e, n).value <= High(s, epochs, e, n).value
  {
    if n > 0 {
      HighLatestTogether(s, epochs, e, n - 1);
    }
  }

  /** `High` is a true maximum of its epoch and `First` a true first reading. */
  lemma {:induction false} HighAndFirstMean(s: seq<Reading>, epochs: map<int, int>, e: Epoch, n: nat)
    requires n <= |s|
    ensures forall i :: 0 <= i < n && EpochOf(epochs, s[i]) == e ==>
              High(s, epochs, e, n).Some? && First(s, epochs, e, n).Some? && s[i].pct <= High(s, epochs, e, n).value
    ensures High(s, epochs, e, n).Some? ==> exists i ::
              0 <= i < n && EpochOf(epochs, s[i]) == e && s[i].pct == High(s, epochs, e, n).value
    ensures First(s, epochs, e, n).Some? ==>
              exists i :: 0 <= i < n && EpochOf(epochs, s[i]) == e && s[i].pct == First(s, epochs, e, n).value &&
                          forall j :: 0 <= j < i ==> EpochOf(epochs, s[j]) != e
  {
    if n > 0 {
      HighAndFirstMean(s, epochs, e, n - 1);
    }
  }

  // ----- The accumulation loop -----

  lemma {:induction false} LatestIs(s: seq<Reading>, epochs: map<int, int>, n: nat, j: nat)
    requires j < n <= |s| && forall k :: j < k < n ==> EpochOf(epochs, s[k]) != EpochOf(epochs, s[j])
    ensures Latest(s, epochs, EpochOf(epochs, s[j]), n) == Some(s[j].pct)
    decreases n
  {
    if j < n - 1 {
      LatestIs(s, epochs, n - 1, j);
    }
  }

  /** Reading `j` is the one before `i` in their epoch. */
  ghost predicate PreviousOf(s: seq<Reading>, epochs: map<int, int>, i: nat, j: nat)
    requires i < |s|
  {
    && j < i && EpochOf(epochs, s[j]) == EpochOf(epochs, s[i])
    && (forall k :: j < k < i ==> EpochOf(epochs, s[k]) != EpochOf(epochs, s[i]))
  }

  /** `h` is the highest reading before `i` in its epoch. */
  ghost predicate HighestBefore(s: seq<Reading>, epochs: map<int, int>, i: nat, h: int)
    requires i < |s|
  {
    && (exists k :: 0 <= k < i && EpochOf(epochs, s[k]) == EpochOf(epochs, s[i]) && s[k].pct == h)
    && (forall k :: 0 <= k < i && EpochOf(epochs, s[k]) == EpochOf(epochs, s[i]) ==> s[k].pct <= h)
  }

  /** What a reading adds, in terms of its epoch: its adjusted rise above the previous reading in a
      rolling window or without a reset time, its rise above the highest one in a fixed window. */
  lemma ContributionIs(s: seq<Reading>, epochs: map<int, int>, weekly: bool, i: nat, j: nat, h: int)
    requires i < |s| && PreviousOf(s, epochs, i, j) && HighestBefore(s, epochs, i, h)
    ensures Contribution(s, epochs, weekly, i) ==
            if weekly || s[i].resets.None? then AdjacentDelta(s[j].pct, s[i].pct, Some(h))
            else if s[i].pct > h then s[i].pct - h else 0
  {
    HighAndFirstMean(s, epochs, EpochOf(epochs, s[i]), i);
    LatestIs(s, epochs, i, j);
  }

  /** The first reading of an epoch is its baseline and adds nothing. */
  lemma FirstAddsNothing(s: seq<Reading>, epochs: map<int, int>, weekly: bool, i: nat)
    requires i < |s| && forall k :: 0 <= k < i ==> EpochOf(epochs, s[k]) != EpochOf(epochs, s[i])
    ensures Contribution(s, epochs, weekly, i) == 0
  {
    HighAndFirstMean(s, epochs, EpochOf(epochs, s[i]), i);
  }

  /** The rolling windows are the Codex buckets `7d` and those with the suffix `_7d`. */
  lemma WeeklyIff(provider: string, bucket: string)
    ensures IsWeekly(provider, bucket) <==>
            provider == "codex" && (bucket == "7d" || exists feature: string :: bucket == feature + "_7d")
  {
    if |bucket| >= 3 && bucket[|bucket| - 3..] == "_7d" {
      assert bucket == bucket[..|bucket| - 3] + "_7d";
    }
    if feature: string :| bucket == feature + "_7d" {
      assert bucket[|bucket| - 3..] == "_7d";
    }
  }

  /** Half of the quota used, most of it aged out, some of it used again. */
  ghost function SeriesOf(ts: int, reset: int): seq<Reading> {
    [Reading(ts, 50_0000, Some(reset)), Reading(ts, 10_0000, Some(reset)), Reading(ts, 30_0000, Some(reset))]
  }

  /** Usage that ages out and comes back counts in a rolling window, and not in a fixed one. */
  lemma RollingCountsAgain(epochs: map<int, int>, ts: int, reset: int)
    ensures var s := SeriesOf(ts, reset);
            Total(s, epochs, true, 3) == 20_0000 && Total(s, epochs, false, 3) == 0
  {
    var s := SeriesOf(ts, reset);
    forall weekly: bool
      ensures Total(s, epochs, weekly, 3) == if weekly then 20_0000 else 0
    {
      FirstAddsNothing(s, epochs, weekly, 0);
      assert s[0].pct == 50_0000 && s[1].pct == 10_0000;
      ContributionIs(s, epochs, weekly, 1, 0, 50_0000);
      ContributionIs(s, epochs, weekly, 2, 1, 50_0000);
      assert Total(s, epochs, weekly, 1) == 0 && Total(s, epochs, weekly, 2) == 0;
    }
  }

  function Lookup(m: map<Epoch, int>, e: Epoch): Option<int> {
    if e in m then Some(m[e]) else None
  }

  ghost predicate TablesAre(s: seq<Reading>, epochs: map<int, int>, weekly: bool, n: nat, epochHigh: map<Epoch, int>,
                            epochPrev: map<Epoch, int>)
    requires n <= |s|
  {
    && (forall e :: Lookup(epochHigh, e) == High(s, epochs, e, n))
    && (forall e: Epoch :: weekly || e.None? ==> Lookup(epochPrev, e) == Latest(s, epochs, e, n))
  }

  /** One turn of the loop on the two epoch tables: what the reading adds, and the new tables. */
  method Observe(s: seq<Reading>, epochs: map<int, int>, weekly: bool, n: nat, epochHigh: map<Epoch, int>,
                 epochPrev: map<Epoch, int>)
    returns (delta: int, high': map<Epoch, int>, prev': map<Epoch, int>)
    requires n < |s| && TablesAre(s, epochs, weekly, n, epochHigh, epochPrev)
    ensures TablesAre(s, epochs, weekly, n + 1, high', prev')
    ensures delta == Contribution(s, epochs, weekly, n) >= 0
  {
    var r := s[n];
    var e := EpochOf(epochs, r);
    HighLatestTogether(s, epochs, e, n);
    delta, high', prev' := 0, epochHigh, epochPrev;
    if Adjacent(weekly, r) {
      var prev, high := Lookup(epochPrev, e), Lookup(epochHigh, e);
      prev' := epochPrev[e := r.pct];
      high' := epochHigh[e := if high.None? || high.value < r.pct then r.pct else high.value];
      if prev.Some? {
        delta := AdjacentDelta(prev.value, r.pct, high);
      }
    } else {
      var prev := Lookup(epochHigh, e);
      if prev.None? {
        high' := epochHigh[e := r.pct];
      } else if r.pct > prev.value {
        delta := r.pct - prev.value;
        high' := epochHigh[e := r.pct];
      }
    }
    forall f
      ensures Lookup(high', f) == High(s, epochs, f, n + 1)
      ensures weekly || f.None? ==> Lookup(prev', f) == Latest(s, epochs, f, n + 1)
    {
      assert Lookup(epochHigh, f) == High(s, epochs, f, n);
      assert weekly || f.None? ==> Lookup(epochPrev, f) == Latest(s, epochs, f, n);
    }
  }

  /** The accumulation loop of `_flush`: every bucket holds the contributions of its readings. */
  method Accumulate(s: seq<Reading>, epochs: map<int, int>, weekly: bool, period: int)
    returns (consumption: map<int, int>)
    requires period > 0
    ensures forall k :: Get(consumption, k) == BucketSum(s, epochs, weekly, period, k, |s|)
    ensures forall k :: k in consumption ==> consumption[k] > 0
    ensures MapSum(consumption) == Total(s, epochs, weekly, |s|)
  {
    consumption := map[];
    var epochHigh: map<Epoch, int> := map[];
    var epochPrev: map<Epoch, int> := map[];
    for n := 0 to |s|
      invariant TablesAre(s, epochs, weekly, n, epochHigh, epochPrev)
      invariant forall k :: Get(consumption, k) == BucketSum(s, epochs, weekly, period, k, n)
      invariant forall k :: k in consumption ==> consumption[k] > 0
      invariant MapSum(consumption) == Total(s, epochs, weekly, n)
    {
      var delta;
      delta, epochHigh, epochPrev := Observe(s, epochs, weekly, n, epochHigh, epochPrev);
      BucketStep(s, epochs, weekly, period, n);
      if delta != 0 {
        var start := PeriodStart(s[n].ts, period);
        MapSumUpdate(consumption, start, Get(consumption, start) + delta);
        consumption := consumption[start := Get(consumption, start) + delta];
      }
    }
  }

  lemma BucketStep(s: seq<Reading>, epochs: map<int, int>, weekly: bool, period: int, n: nat)
    requires n < |s| && period > 0
    ensures forall k {:trigger BucketSum(s, epochs, weekly, period, k, n + 1)} ::
              BucketSum(s, epochs, weekly, period, k, n + 1) == BucketSum(s, epochs, weekly, period, k, n) +
              if PeriodStart(s[n].ts, period) == k then Contribution(s, epochs, weekly, n) else 0
    ensures Total(s, epochs, weekly, n + 1) == Total(s, epochs, weekly, n) + Contribution(s, epochs, weekly, n)
  {
  }

  // ----- Fixed windows: highest minus first, per epoch -----

  ghost function EpochsTo(s: seq<Reading>, epochs: map<int, int>, n: nat): set<Epoch>
    requires n <= |s|
  {
    set i | 0 <= i < n :: EpochOf(epochs, s[i])
  }

  /** Highest minus first reading of an epoch. */
  ghost function Climb(s: seq<Reading>, epochs: map<int, int>, e: Epoch, n: nat): int
    requires n <= |s|
  {
    var high, first := High(s, epochs, e, n), First(s, epochs, e, n);
    if high.Some? && first.Some? then high.value - first.value else 0
  }

  /** The climb of every epoch that has a reset time. */
  ghost function Climbs(s: seq<Reading>, epochs: map<int, int>, n: nat): map<Epoch, int>
    requires n <= |s|
  {
    map e: Epoch | e in EpochsTo(s, epochs, n) && e.Some? :: Climb(s, epochs, e, n)
  }

  /** The contributions of the readings without a reset time. */
  ghost function ResetlessTotal(s: seq<Reading>, epochs: map<int, int>, weekly: bool, n: nat): int
    requires n <= |s|
  {
    if n == 0 then 0
    else
      var more := if s[n - 1].resets.None? then Contribution(s, epochs, weekly, n - 1) else 0;
      ResetlessTotal(s, epochs, weekly, n - 1) + more
  }

  lemma {:induction false} UnseenClimb(s: seq<Reading>, epochs: map<int, int>, e: Epoch, n: nat)
    requires n <= |s| && e !in EpochsTo(s, epochs, n)
    ensures Climb(s, epochs, e, n) == 0
  {
    if n > 0 {
      assert EpochsTo(s, epochs, n) == EpochsTo(s, epochs, n - 1) + {EpochOf(epochs, s[n - 1])};
      UnseenClimb(s, epochs, e, n - 1);
    }
  }

  /** A reading with a reset time raises its own epoch's climb by its contribution. */
  lemma OwnClimb(s: seq<Reading>, epochs: map<int, int>, n: nat)
    requires 0 < n <= |s| && s[n - 1].resets.Some?
    ensures Climb(s, epochs, EpochOf(epochs, s[n - 1]), n) ==
            Climb(s, epochs, EpochOf(epochs, s[n - 1]), n - 1) + Contribution(s, epochs, false, n - 1)
  {
    HighLatestTogether(s, epochs, EpochOf(epochs, s[n - 1]), n - 1);
  }

  lemma ClimbsStep(s: seq<Reading>, epochs: map<int, int>, n: nat)
    requires 0 < n <= |s| && s[n - 1].resets.Some?
    ensures Climbs(s, epochs, n) == Raise(Climbs(s, epochs, n - 1), EpochOf(epochs, s[n - 1]),
              Contribution(s, epochs, false, n - 1))
  {
    var e, before, after := EpochOf(epochs, s[n - 1]), Climbs(s, epochs, n - 1), Climbs(s, epochs, n);
    EpochsStep(s, epochs, n);
    OwnClimb(s, epochs, n);
    if e !in before {
      UnseenClimb(s, epochs, e, n - 1);
    }
    forall f | f in after && f != e ensures f in before && after[f] == before[f] {
      OtherClimb(s, epochs, f, n);
    }
  }

  lemma EpochsStep(s: seq<Reading>, epochs: map<int, int>, n: nat)
    requires 0 < n <= |s|
    ensures EpochsTo(s, epochs, n) == EpochsTo(s, epochs, n - 1) + {EpochOf(epochs, s[n - 1])}
  {
  }

  lemma OtherClimb(s: seq<Reading>, epochs: map<int, int>, f: Epoch, n: nat)
    requires 0 < n <= |s| && EpochOf(epochs, s[n - 1]) != f
    ensures Climb(s, epochs, f, n) == Climb(s, epochs, f, n - 1)
  {
  }

  lemma ClimbsSkip(s: seq<Reading>, epochs: map<int, int>, n: nat)
    requires 0 < n <= |s| && s[n - 1].resets.None?
    ensures Climbs(s, epochs, n) == Climbs(s, epochs, n - 1)
  {
    EpochsStep(s, epochs, n);
    forall f: Epoch | f.Some? ensures Climb(s, epochs, f, n) == Climb(s, epochs, f, n - 1) {
      OtherClimb(s, epochs, f, n);
    }
  }

  /** For a fixed-window series the total is, over all epochs however they interleave, highest
      minus first reading; readings without a reset time add their adjacent deltas. */
  lemma {:induction false} FixedTotalIsClimbs(s: seq<Reading>, epochs: map<int, int>, n: nat)
    requires n <= |s|
    ensures Total(s, epochs, false, n) == MapSum(Climbs(s, epochs, n)) + ResetlessTotal(s, epochs, false, n)
  {
    if n == 0 {
      assert Climbs(s, epochs, 0) == map[];
    } else {
      FixedTotalIsClimbs(s, epochs, n - 1);
      if s[n - 1].resets.Some? {
        ClimbsStep(s, epochs, n);
        MapSumRaise(Climbs(s, epochs, n - 1), EpochOf(epochs, s[n - 1]), Contribution(s, epochs, false, n - 1));
      } else {
        ClimbsSkip(s, epochs, n);
      }
    }
  }

  // ----- Days and hours -----

  /** The `hours` hour buckets from `day` on. */
  ghost function HourSum(s: seq<Reading>, epochs: map<int, int>, weekly: bool, day: int, hours: nat, n: nat): int
    requires n <= |s|
  {
    if hours == 0 then 0
    else HourSum(s, epochs, weekly, day, hours - 1, n) + BucketSum(s, epochs, weekly, HOUR, day + HOUR * (hours - 1), n)
  }

  lemma {:induction false} HourSumStep(s: seq<Reading>, epochs: map<int, int>, weekly: bool, day: int, hours: nat,
                                       n: nat)
    requires 0 < n <= |s|
    ensures HourSum(s, epochs, weekly, day, hours, n) == HourSum(s, epochs, weekly, day, hours, n - 1) +
            if exists h :: 0 <= h < hours && PeriodStart(s[n - 1].ts, HOUR) == day + HOUR * h
            then Contribution(s, epochs, weekly, n - 1) else 0
    decreases hours
  {
    if hours > 0 {
      HourSumStep(s, epochs, weekly, day, hours - 1, n);
      if PeriodStart(s[n - 1].ts, HOUR) == day + HOUR * (hours - 1) {
        assert forall h :: 0 <= h < hours - 1 ==> day + HOUR * h != day + HOUR * (hours - 1);
      }
    }
  }

  lemma HourInDay(ts: int, day: int)
    requires day % DAY == 0
    ensures PeriodStart(ts, DAY) == day <==> exists h :: 0 <= h < 24 && PeriodStart(ts, HOUR) == day + HOUR * h
  {
    var h := ts / HOUR - 24 * (day / DAY);
    assert PeriodStart(ts, HOUR) == HOUR * (ts / HOUR);
    assert PeriodStart(ts, DAY) == DAY * (ts / DAY);
    assert HOUR * (ts / HOUR) == day + HOUR * h;
  }

  /** A day bucket is the sum of its 24 hour buckets. */
  lemma {:induction false} DayIsItsHours(s: seq<Reading>, epochs: map<int, int>, weekly: bool, day: int, n: nat)
    requires n <= |s| && day % DAY == 0
    ensures BucketSum(s, epochs, weekly, DAY, day, n) == HourSum(s, epochs, weekly, day, 24, n)
  {
    if n == 0 {
      HourSumEmpty(s, epochs, weekly, day, 24);
    } else {
      DayIsItsHours(s, epochs, weekly, day, n - 1);
      HourSumStep(s, epochs, weekly, day, 24, n);
      HourInDay(s[n - 1].ts, day);
    }
  }

  lemma {:induction false} HourSumEmpty(s: seq<Reading>, epochs: map<int, int>, weekly: bool, day: int, hours: nat)
    ensures HourSum(s, epochs, weekly, day, hours, 0) == 0
  {
    if hours > 0 {
      HourSumEmpty(s, epochs, weekly, day, hours - 1);
    }
  }

  // ----- The whole derivation -----

  /** `_flush` for one series: cluster, filter, accumulate.  The epoch dictionary is returned too. */
  method Flush(provider: string, bucket: string, ordered: seq<Reading>, period: int)
    returns (points: seq<Reading>, consumption: map<int, int>, epochs: map<int, int>)
    requires period > 0
    ensures IsEpochMap(epochs, Observed(ordered)) && points == Kept(ordered, epochs)
    ensures forall k :: Get(consumption, k) == BucketSum(points, epochs, IsWeekly(provider, bucket), period, k,
              |points|)
    ensures !IsWeekly(provider, bucket) ==>
              MapSum(consumption) == MapSum(Climbs(points, epochs, |points|)) +
                  ResetlessTotal(points, epochs, false, |points|)
    ensures !IsWeekly(provider, bucket) && (forall r <- points :: r.resets.Some?) ==>
              MapSum(consumption) == MapSum(Climbs(points, epochs, |points|))
  {
    epochs := ResetEpochs(ordered);
    points := DropTornReads(ordered, epochs);
    consumption := Accumulate(points, epochs, IsWeekly(provider, bucket), period);
    FixedTotalIsClimbs(points, epochs, |points|);
    if forall r <- points :: r.resets.Some? {
      NoResetless(points, epochs, |points|);
    }
  }

  lemma {:induction false} NoResetless(s: seq<Reading>, epochs: map<int, int>, n: nat)
    requires n <= |s| && forall r <- s :: r.resets.Some?
    ensures ResetlessTotal(s, epochs, false, n) == 0
  {
    if n > 0 {
      NoResetless(s, epochs, n - 1);
      assert s[n - 1] in s;
    }
  }

  // ----- Spikes and consumption -----

  /** Two epoch dictionaries sort the readings of a series into the same windows. */
  ghost predicate SamePartition(s: seq<Reading>, e: map<int, int>, f: map<int, int>) {
    forall i, j :: 0 <= i < |s| && 0 <= j < |s| ==>
      (EpochOf(e, s[i]) == EpochOf(e, s[j]) <==> EpochOf(f, s[i]) == EpochOf(f, s[j]))
  }

  lemma {:induction false} SameHigh(s: seq<Reading>, e: map<int, int>, f: map<int, int>, i: nat, n: nat)
    requires SamePartition(s, e, f) && i < |s| && n <= |s|
    ensures High(s, e, EpochOf(e, s[i]), n) == High(s, f, EpochOf(f, s[i]), n)
    ensures Latest(s, e, EpochOf(e, s[i]), n) == Latest(s, f, EpochOf(f, s[i]), n)
    decreases n
  {
    if n > 0 {
      SameHigh(s, e, f, i, n - 1);
    }
  }

  lemma {:induction false} SameBuckets(s: seq<Reading>, e: map<int, int>, f: map<int, int>, weekly: bool,
                                       period: int, k: int, n: nat)
    requires SamePartition(s, e, f) && n <= |s| && period > 0
    ensures BucketSum(s, e, weekly, period, k, n) == BucketSum(s, f, weekly, period, k, n)
    decreases n
  {
    if n > 0 {
      SameBuckets(s, e, f, weekly, period, k, n - 1);
      SameHigh(s, e, f, n - 1, n - 1);
    }
  }

  /** Isolated spikes leave every bucket as it was, as long as their reset times do not join
      windows of the series that were separate without them. */
  lemma SpikesKeepConsumption(base: seq<Reading>, spikes: map<nat, Reading>, epochs: map<int, int>,
                              spiked: map<int, int>, weekly: bool, period: int)
    requires period > 0 && SamePartition(base, epochs, spiked)
    requires Climbing(base, epochs) && AreSpikes(base, spikes, spiked)
    ensures SameConsumption(base, spikes, epochs, spiked, weekly, period)
  {
    SpikesAreUndone(base, spikes, spiked);
    ClimbingIsKept(base, epochs);
    forall k ensures BucketSum(base, epochs, weekly, period, k, |base|) ==
        BucketSum(base, spiked, weekly, period, k, |base|) {
      SameBuckets(base, epochs, spiked, weekly, period, k, |base|);
    }
  }

  /** The spiked series, clustered by `spiked`, shows the same consumption as the series itself. */
  ghost predicate SameConsumption(base: seq<Reading>, spikes: map<nat, Reading>, epochs: map<int, int>,
                                  spiked: map<int, int>, weekly: bool, period: int)
    requires period > 0
  {
    var kept, keptBase := Kept(WithSpikes(base, spikes, |base|), spiked), Kept(base, epochs);
    forall k :: BucketSum(kept, spiked, weekly, period, k, |kept|) ==
        BucketSum(keptBase, epochs, weekly, period, k, |keptBase|)
  }

  /** Readings of one window of `e` share a window of `f`. */
  ghost predicate Coarser(s: seq<Reading>, e: map<int, int>, f: map<int, int>) {
    forall i, j :: 0 <= i < |s| && 0 <= j < |s| && EpochOf(e, s[i]) == EpochOf(e, s[j]) ==>
      EpochOf(f, s[i]) == EpochOf(f, s[j])
  }

  lemma JoinedInMore(few: set<int>, all: set<int>, a: int, b: int)
    requires few <= all && Joined(few, a, b)
    ensures Joined(all, a, b)
  {
    var path :| Chain(few, path, a, b);
    assert Chain(all, path, a, b);
  }

  lemma SameEpochIffJoined(epochs: map<int, int>, observed: set<int>, x: Reading, y: Reading)
    requires IsEpochMap(epochs, observed)
    requires x.resets.Some? ==> x.resets.value in observed
    requires y.resets.Some? ==> y.resets.value in observed
    ensures EpochOf(epochs, x) == EpochOf(epochs, y) <==>
            if x.resets.Some? && y.resets.Some? then Joined(observed, x.resets.value, y.resets.value)
            else x.resets == y.resets
  {
  }

  lemma ObservedAt(s: seq<Reading>, i: nat)
    requires i < |s|
    ensures s[i].resets.Some? ==> s[i].resets.value in Observed(s)
  {
    assert s[i] in s;
  }

  /** More observed reset times can only join windows. */
  lemma MoreTimesJoin(s: seq<Reading>, e: map<int, int>, f: map<int, int>, all: set<int>)
    requires IsEpochMap(e, Observed(s)) && IsEpochMap(f, all) && Observed(s) <= all
    ensures Coarser(s, e, f)
  {
    forall i, j | 0 <= i < |s| && 0 <= j < |s| && EpochOf(e, s[i]) == EpochOf(e, s[j])
      ensures EpochOf(f, s[i]) == EpochOf(f, s[j])
    {
      PairJoins(s[i], s[j], e, f, Observed(s), all) by {
        ObservedAt(s, i);
        ObservedAt(s, j);
      }
    }
  }

  lemma PairJoins(x: Reading, y: Reading, e: map<int, int>, f: map<int, int>, few: set<int>, all: set<int>)
    requires IsEpochMap(e, few) && IsEpochMap(f, all) && few <= all && EpochOf(e, x) == EpochOf(e, y)
    requires (x.resets.Some? ==> x.resets.value in few) && (y.resets.Some? ==> y.resets.value in few)
    ensures EpochOf(f, x) == EpochOf(f, y)
  {
    SameEpochIffJoined(e, few, x, y);
    SameEpochIffJoined(f, all, x, y);
    if x.resets.Some? && y.resets.Some? {
      JoinedInMore(few, all, x.resets.value, y.resets.value);
    }
  }

  /** Whatever of `few` is joined in `all` is joined already. */
  ghost predicate JoinsNothing(few: set<int>, all: set<int>) {
    forall a <- few, b <- few :: Joined(all, a, b) ==> Joined(few, a, b)
  }

  /** In terms of reset times: the windows stay apart exactly when no two of them are joined. */
  lemma PartitionIffApart(s: seq<Reading>, e: map<int, int>, f: map<int, int>, all: set<int>)
    requires IsEpochMap(e, Observed(s)) && IsEpochMap(f, all) && Observed(s) <= all
    ensures SamePartition(s, e, f) <==> JoinsNothing(Observed(s), all)
  {
    var few := Observed(s);
    MoreTimesJoin(s, e, f, all);
    if SamePartition(s, e, f) {
      forall a <- few, b <- few | Joined(all, a, b) ensures Joined(few, a, b) {
        var i :| 0 <= i < |s| && s[i].resets == Some(a);
        var j :| 0 <= j < |s| && s[j].resets == Some(b);
        SameEpochIffJoined(f, all, s[i], s[j]);
        SameEpochIffJoined(e, few, s[i], s[j]);
      }
    }
    if JoinsNothing(few, all) {
      forall i, j | 0 <= i < |s| && 0 <= j < |s| && EpochOf(f, s[i]) == EpochOf(f, s[j])
        ensures EpochOf(e, s[i]) == EpochOf(e, s[j])
      {
        ObservedAt(s, i);
        ObservedAt(s, j);
        SameEpochIffJoined(f, all, s[i], s[j]);
        SameEpochIffJoined(e, few, s[i], s[j]);
      }
    }
  }

  /** The same times and reset times, with any percentages. */
  ghost predicate SameStamps(s: seq<Reading>, base: seq<Reading>) {
    |s| == |base| && forall i :: 0 <= i < |s| ==> s[i].ts == base[i].ts && s[i].resets == base[i].resets
  }

  lemma {:induction false} FirstMember(s: seq<Reading>, e: map<int, int>, i: nat) returns (k: nat)
    requires i < |s|
    ensures k <= i && EpochOf(e, s[k]) == EpochOf(e, s[i])
    ensures forall m :: 0 <= m < k ==> EpochOf(e, s[m]) != EpochOf(e, s[i])
    decreases i
  {
    k := i;
    if m: nat :| m < i && EpochOf(e, s[m]) == EpochOf(e, s[i]) {
      k := FirstMember(s, e, m);
    }
  }

  /** One point used in the window of reading `j`, nothing in the others. */
  ghost function OneWindow(base: seq<Reading>, e: map<int, int>, j: nat): (s: seq<Reading>)
    requires j < |base|
    ensures |s| == |base|
    ensures forall i :: 0 <= i < |base| ==>
              s[i] == base[i].(pct := if EpochOf(e, base[i]) == EpochOf(e, base[j]) then 1_0000 else 0)
  {
    seq(|base|, i requires 0 <= i < |base| =>
      base[i].(pct := if EpochOf(e, base[i]) == EpochOf(e, base[j]) then 1_0000 else 0))
  }

  /** Every window shows one value only. */
  ghost predicate Flat(s: seq<Reading>, e: map<int, int>) {
    forall i, j :: 0 <= i < |s| && 0 <= j < |s| && EpochOf(e, s[i]) == EpochOf(e, s[j]) ==> s[i].pct == s[j].pct
  }

  lemma {:induction false} FlatHigh(s: seq<Reading>, e: map<int, int>, i: nat, n: nat)
    requires Flat(s, e) && i < |s| && n <= |s|
    ensures High(s, e, EpochOf(e, s[i]), n).Some? ==> High(s, e, EpochOf(e, s[i]), n).value == s[i].pct
    ensures Latest(s, e, EpochOf(e, s[i]), n).Some? ==> Latest(s, e, EpochOf(e, s[i]), n).value == s[i].pct
    decreases n
  {
    if n > 0 {
      FlatHigh(s, e, i, n - 1);
    }
  }

  /** A flat series consumes nothing. */
  lemma {:induction false} FlatBuckets(s: seq<Reading>, e: map<int, int>, weekly: bool, period: int, k: int, n: nat)
    requires Flat(s, e) && n <= |s| && period > 0
    ensures BucketSum(s, e, weekly, period, k, n) == 0
    decreases n
  {
    if n > 0 {
      FlatBuckets(s, e, weekly, period, k, n - 1);
      FlatHigh(s, e, n - 1, n - 1);
    }
  }

  lemma ContributionNonNegative(s: seq<Reading>, e: map<int, int>, weekly: bool, i: nat)
    requires i < |s|
    ensures Contribution(s, e, weekly, i) >= 0
  {
  }

  lemma {:induction false} BucketAtLeast(s: seq<Reading>, e: map<int, int>, weekly: bool, period: int, j: nat, n: nat)
    requires j < |s| && n <= |s| && period > 0
    ensures BucketSum(s, e, weekly, period, PeriodStart(s[j].ts, period), n) >=
            if j < n then Contribution(s, e, weekly, j) else 0
    decreases n
  {
    if n > 0 {
      BucketAtLeast(s, e, weekly, period, j, n - 1);
      ContributionNonNegative(s, e, weekly, n - 1);
      ContributionNonNegative(s, e, weekly, j);
    }
  }

  lemma {:induction false} ZeroBefore(s: seq<Reading>, f: map<int, int>, c: Epoch, n: nat)
    requires n <= |s| && forall k :: 0 <= k < n ==> EpochOf(f, s[k]) == c ==> s[k].pct == 0
    ensures High(s, f, c, n).Some? ==> High(s, f, c, n).value == 0
    ensures Latest(s, f, c, n).Some? ==> Latest(s, f, c, n).value == 0
    ensures (exists k :: 0 <= k < n && EpochOf(f, s[k]) == c) ==> High(s, f, c, n).Some? && Latest(s, f, c, n).Some?
    decreases n
  {
    if n > 0 {
      ZeroBefore(s, f, c, n - 1);
    }
  }

  /** A window of `f` that takes in a window of `e` late counts a climb that `e` does not. */
  lemma JoinedWindowsDiffer(base: seq<Reading>, e: map<int, int>, f: map<int, int>, i: nat, j: nat, weekly: bool,
                            period: int)
    requires period > 0 && i < j < |base| && EpochOf(f, base[i]) == EpochOf(f, base[j])
    requires forall m :: 0 <= m < j ==> EpochOf(e, base[m]) != EpochOf(e, base[j])
    ensures var s, k := OneWindow(base, e, j), PeriodStart(base[j].ts, period);
            && SameStamps(s, base) && Flat(s, e)
            && BucketSum(s, e, weekly, period, k, |s|) == 0 < BucketSum(s, f, weekly, period, k, |s|)
  {
    var s, k := OneWindow(base, e, j), PeriodStart(base[j].ts, period);
    assert forall m :: 0 <= m < |s| ==>
                         EpochOf(e, s[m]) == EpochOf(e, base[m]) && EpochOf(f, s[m]) == EpochOf(f, base[m]);
    FlatBuckets(s, e, weekly, period, k, |s|);
    assert EpochOf(f, s[i]) == EpochOf(f, s[j]);
    ZeroBefore(s, f, EpochOf(f, s[j]), j);
    assert Contribution(s, f, weekly, j) == 1_0000;
    BucketAtLeast(s, f, weekly, period, j, |s|);
  }

  lemma SameStampsPartition(s: seq<Reading>, base: seq<Reading>, e: map<int, int>, f: map<int, int>)
    requires SameStamps(s, base) && SamePartition(base, e, f)
    ensures SamePartition(s, e, f)
  {
    assert forall i :: 0 <= i < |s| ==>
                         EpochOf(e, s[i]) == EpochOf(e, base[i]) && EpochOf(f, s[i]) == EpochOf(f, base[i]);
  }

  /** If a coarser clustering joins windows, there are two that it joins late. */
  lemma LateJoin(base: seq<Reading>, e: map<int, int>, f: map<int, int>) returns (i: nat, j: nat)
    requires Coarser(base, e, f) && !SamePartition(base, e, f)
    ensures i < j < |base| && EpochOf(f, base[i]) == EpochOf(f, base[j])
    ensures forall m :: 0 <= m < j ==> EpochOf(e, base[m]) != EpochOf(e, base[j])
  {
    var x, y :| 0 <= x < |base| && 0 <= y < |base| &&
                EpochOf(f, base[x]) == EpochOf(f, base[y]) && EpochOf(e, base[x]) != EpochOf(e, base[y]);
    var a := FirstMember(base, e, x);
    var b := FirstMember(base, e, y);
    i, j := if a < b then a else b, if a < b then b else a;
  }

  ghost predicate SameBucketsUnder(s: seq<Reading>, e: map<int, int>, f: map<int, int>, weekly: bool, period: int)
    requires period > 0
  {
    forall k :: BucketSum(s, e, weekly, period, k, |s|) == BucketSum(s, f, weekly, period, k, |s|)
  }

  /** A coarser clustering puts the same amounts into the same buckets, for all percentages, if
      and only if it joins no windows of the series. */
  lemma BucketsAgreeIff(base: seq<Reading>, e: map<int, int>, f: map<int, int>, weekly: bool, period: int)
    requires period > 0 && Coarser(base, e, f)
    ensures (forall s :: SameStamps(s, base) ==> SameBucketsUnder(s, e, f, weekly, period)) <==>
              SamePartition(base, e, f)
  {
    if SamePartition(base, e, f) {
      forall s, k | SameStamps(s, base)
        ensures BucketSum(s, e, weekly, period, k, |s|) == BucketSum(s, f, weekly, period, k, |s|)
      {
        SameStampsPartition(s, base, e, f);
        SameBuckets(s, e, f, weekly, period, k, |s|);
      }
    } else {
      var i, j := LateJoin(base, e, f);
      JoinedWindowsDiffer(base, e, f, i, j, weekly, period);
    }
  }

  /** Spikes at the same places with the same times and reset times, of any height. */
  ghost predicate SameSpikeStamps(sp: map<nat, Reading>, spikes: map<nat, Reading>) {
    && sp.Keys == spikes.Keys
    && (forall j :: j in sp ==> sp[j].ts == spikes[j].ts && sp[j].resets == spikes[j].resets)
  }

  /** The promise: whatever the percentages, as long as the series climbs within its runs and the
      spikes stand out by 40 points, filtering the spiked series leaves the consumption alone. */
  ghost predicate SpikesHarmless(base: seq<Reading>, spikes: map<nat, Reading>, epochs: map<int, int>,
                                 spiked: map<int, int>, weekly: bool, period: int)
    requires period > 0
  {
    forall s, sp ::
      SameStamps(s, base) && SameSpikeStamps(sp, spikes) && Climbing(s, epochs) && AreSpikes(s, sp, spiked) ==>
      SameConsumption(s, sp, epochs, spiked, weekly, period)
  }

  ghost function HighSpikes(spikes: map<nat, Reading>): map<nat, Reading> {
    map j | j in spikes :: spikes[j].(pct := 90_0000)
  }

  /** Spikes of 90 points on a series that uses at most one point are isolated. */
  lemma HighSpikesIsolated(base: seq<Reading>, s: seq<Reading>, spikes: map<nat, Reading>, f: map<int, int>)
    requires SameStamps(s, base) && forall i :: 0 <= i < |s| ==> 0 <= s[i].pct <= 1_0000
    requires forall j :: j in spikes ==> j < |base| && EpochOf(f, spikes[j]) == EpochOf(f, base[j])
    ensures SameSpikeStamps(HighSpikes(spikes), spikes) && Isolated(s, HighSpikes(spikes), f)
  {
    assert forall j :: j in spikes ==> EpochOf(f, HighSpikes(spikes)[j]) == EpochOf(f, spikes[j]);
    assert forall i :: 0 <= i < |s| ==> EpochOf(f, s[i]) == EpochOf(f, base[i]);
  }

  /** Where windows are joined, some series and spikes of these times break the promise. */
  lemma JoinedIsHarmful(base: seq<Reading>, spikes: map<nat, Reading>, epochs: map<int, int>, spiked: map<int, int>,
                        weekly: bool, period: int)
    requires period > 0 && Coarser(base, epochs, spiked) && !SamePartition(base, epochs, spiked)
    requires forall j :: j in spikes ==> j < |base| && EpochOf(spiked, spikes[j]) == EpochOf(spiked, base[j])
    ensures !SpikesHarmless(base, spikes, epochs, spiked, weekly, period)
  {
    var i, j := LateJoin(base, epochs, spiked);
    JoinedWindowsDiffer(base, epochs, spiked, i, j, weekly, period);
    var s, sp := OneWindow(base, epochs, j), HighSpikes(spikes);
    HighSpikesIsolated(base, s, spikes, spiked);
    IsolatedAreUndone(s, sp, spiked);
    assert Climbing(s, epochs);
    ClimbingIsKept(s, epochs);
    assert AreSpikes(s, sp, spiked) && !SameConsumption(s, sp, epochs, spiked, weekly, period);
  }

  /** The promise holds if and only if the reset times of the spikes join no two windows that the
      series keeps apart, that is, chain no two of its reset times that were not chained before. */
  lemma SpikesHarmlessIff(base: seq<Reading>, spikes: map<nat, Reading>, epochs: map<int, int>, spiked: map<int, int>,
                          weekly: bool, period: int)
    requires period > 0
    requires IsEpochMap(epochs, Observed(base)) && IsEpochMap(spiked, Observed(WithSpikes(base, spikes, |base|)))
    requires forall j :: j in spikes ==> j < |base| && EpochOf(spiked, spikes[j]) == EpochOf(spiked, base[j])
    ensures SpikesHarmless(base, spikes, epochs, spiked, weekly, period) <==>
            JoinsNothing(Observed(base), Observed(WithSpikes(base, spikes, |base|)))
  {
    var all := Observed(WithSpikes(base, spikes, |base|));
    BaseObserved(base, spikes);
    MoreTimesJoin(base, epochs, spiked, all);
    PartitionIffApart(base, epochs, spiked, all);
    if SamePartition(base, epochs, spiked) {
      forall s, sp | SameStamps(s, base) && SameSpikeStamps(sp, spikes) && Climbing(s, epochs) &&
          AreSpikes(s, sp, spiked)
        ensures SameConsumption(s, sp, epochs, spiked, weekly, period)
      {
        SameStampsPartition(s, base, epochs, spiked);
        SpikesKeepConsumption(s, sp, epochs, spiked, weekly, period);
      }
    } else {
      JoinedIsHarmful(base, spikes, epochs, spiked, weekly, period);
    }
  }

  lemma {:induction false} ReadingAmongSpikes(base: seq<Reading>, spikes: map<nat, Reading>, n: nat, i: nat)
    requires i < n <= |base|
    ensures base[i] in WithSpikes(base, spikes, n)
  {
    if i < n - 1 {
      ReadingAmongSpikes(base, spikes, n - 1, i);
    }
  }

  lemma BaseObserved(base: seq<Reading>, spikes: map<nat, Reading>)
    ensures Observed(base) <= Observed(WithSpikes(base, spikes, |base|))
  {
    forall r <- base ensures r in WithSpikes(base, spikes, |base|) {
      var i :| 0 <= i < |base| && base[i] == r;
      ReadingAmongSpikes(base, spikes, |base|, i);
    }
  }

  lemma BridgeSeries()
    ensures WithSpikes(BridgeBase(), BridgeSpike(), 2) == [BridgeBase()[0], BridgeSpike()[1], BridgeBase()[1]]
    ensures Observed(BridgeBase()) == {100, 108} &&
              Observed(WithSpikes(BridgeBase(), BridgeSpike(), 2)) == {100, 104, 108}
  {
    var base, spikes := BridgeBase(), BridgeSpike();
    assert WithSpikes(base, spikes, 0) == [];
    assert WithSpikes(base, spikes, 1) == [base[0]];
    var full := WithSpikes(base, spikes, 2);
    assert full == [base[0], spikes[1], base[1]];
    assert base[0] in base && base[1] in base && full[0] in full && full[1] in full && full[2] in full;
  }

  lemma NeighboursJoin(observed: set<int>, a: int, b: int)
    requires a in observed && b in observed && -RESET_JITTER_SECONDS <= b - a <= RESET_JITTER_SECONDS
    ensures Joined(observed, a, b)
  {
    assert Chain(observed, [a, b], a, b);
  }

  lemma PairApart(a: int, b: int)
    requires b - a > RESET_JITTER_SECONDS
    ensures !Joined({a, b}, a, b)
  {
    forall path | Chain({a, b}, path, a, b) ensures false {
      ChainStaysBelow({a, b}, path, a, b, a, b);
    }
  }

  lemma BridgeEpochs(epochs: map<int, int>, spiked: map<int, int>, few: set<int>, all: set<int>)
    requires few == {100, 108} && all == {100, 104, 108}
    requires IsEpochMap(epochs, few) && IsEpochMap(spiked, all)
    ensures spiked[100] == spiked[104] == spiked[108] && epochs[100] != epochs[108]
  {
    NeighboursJoin(all, 100, 104);
    NeighboursJoin(all, 104, 108);
    PairApart(100, 108);
  }

  lemma TwoReadings(a: Reading, b: Reading, epochs: map<int, int>)
    requires a.resets.Some? && b.resets.Some?
    ensures Total([a, b], epochs, false, 2) ==
            if EpochOf(epochs, a) == EpochOf(epochs, b) && b.pct > a.pct then b.pct - a.pct else 0
  {
    var s, e := [a, b], EpochOf(epochs, b);
    assert High(s, epochs, e, 0) == None == Latest(s, epochs, e, 0);
    assert Total(s, epochs, false, 1) == 0;
  }

  lemma BridgeResult(epochs: map<int, int>, spiked: map<int, int>)
    requires 100 in epochs && 108 in epochs && 100 in spiked && 104 in spiked && 108 in spiked
    requires spiked[100] == spiked[104] == spiked[108] && epochs[100] != epochs[108]
    ensures AreSpikes(BridgeBase(), BridgeSpike(), spiked) && Climbing(BridgeBase(), spiked)
    ensures Kept(WithSpikes(BridgeBase(), BridgeSpike(), 2), spiked) == BridgeBase()
    ensures Total(BridgeBase(), epochs, false, 2) == 0 && Total(BridgeBase(), spiked, false, 2) == 10_0000
  {
    SpikesAreUndone(BridgeBase(), BridgeSpike(), spiked);
    TwoReadings(BridgeBase()[0], BridgeBase()[1], epochs);
    TwoReadings(BridgeBase()[0], BridgeBase()[1], spiked);
  }

  /** A spike with a reset time of its own can bridge two epochs: the filter drops it, but the
      two windows it joined are then measured as one. */
  lemma BridgingSpikeChangesConsumption(epochs: map<int, int>, spiked: map<int, int>)
    requires IsEpochMap(epochs, Observed(BridgeBase())) &&
               IsEpochMap(spiked, Observed(WithSpikes(BridgeBase(), BridgeSpike(), 2)))
    ensures AreSpikes(BridgeBase(), BridgeSpike(), spiked) && Climbing(BridgeBase(), spiked)
    ensures Kept(WithSpikes(BridgeBase(), BridgeSpike(), 2), spiked) == BridgeBase()
    ensures Total(BridgeBase(), epochs, false, 2) == 0 && Total(BridgeBase(), spiked, false, 2) == 10_0000
  {
    BridgeSeries();
    BridgeEpochs(epochs, spiked, Observed(BridgeBase()), Observed(WithSpikes(BridgeBase(), BridgeSpike(), 2)));
    BridgeResult(epochs, spiked);
  }

  ghost function BridgeBase(): seq<Reading> {
    [Reading(0, 50_0000, Some(100)), Reading(900, 60_0000, Some(108))]
  }

  ghost function BridgeSpike(): map<nat, Reading> {
    map[1 := Reading(450, 100_0000, Some(104))]
  }
}
