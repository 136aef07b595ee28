/** The response cache of `api.py` under concurrency: single-flight per key,
    stale-while-revalidate, a cap on heavy computes, and an epoch that invalidates fills
    in flight.  Requests are threads; one step is one guarded section (or one call of a
    lock, semaphore or fetch), and any interleaving of steps and cache clears is allowed. */
module ResponseCache {

  import opened Options

  type Key = string
  type Tid = nat

  /** A computed response together with the key it was computed for and the epoch in which its
      fetch began. */
  datatype Value = Value(payload: int, key: Key, born: nat)
  datatype Stored = Stored(at: int, value: Value)

  datatype Status = Hit | Stale | Recomputed
  datatype Outcome =
    | Returned(status: Status, value: Value, age: int)
    | Backpressure
    | Raised

  /** Where a request stands in `get_cached_or_fetch`. */
  datatype Pc =
    | Start
    | WantLock
    | TryLock(lock: nat)
    | Recheck(lock: nat)
    | ReadEpoch(lock: nat, lockedNow: int)
    | TryPermit(lock: nat, lockedNow: int, token: nat)
    | Fetching(lock: nat, token: nat, born: nat)
    | Storing(lock: nat, token: nat, computed: Value)
    | Unlocking(lock: nat, outcome: Outcome)
    | Done(outcome: Outcome)
  {
    /** Between acquiring and releasing the key lock. */
    predicate HoldsLock() {
      Recheck? || ReadEpoch? || TryPermit? || Fetching? || Storing? || Unlocking?
    }
  }

  /** `since` is the epoch when the request started, `lastRead` its latest look at the cache. */
  datatype Thread = Thread(key: Key, force: bool, since: nat, now: int, lastRead: Option<Stored>, pc: Pc)

  datatype State = State(
    ttl: int, cap: nat,
    cache: map<Key, Stored>, epoch: nat,
    keyLocks: map<Key, nat>, held: map<nat, Tid>,
    permits: nat, threads: map<Tid, Thread>)

  datatype Event =
    | Arrive(t: Tid, key: Key, force: bool, now: int)
    | LookUp(t: Tid)
    | GetKeyLock(t: Tid)
    | AcquireKeyLock(t: Tid)
    | LookUpAgain(t: Tid, lockedNow: int)
    | TakeEpoch(t: Tid)
    | AcquirePermit(t: Tid)
    | FetchReturns(t: Tid, payload: int)
    | FetchRaises(t: Tid)
    | Store(t: Tid, at: int)
    | ReleaseKeyLock(t: Tid)
    | Clear

  predicate Enabled(s: State, e: Event) {
    match e
    case Arrive(t, _, _, _) => t !in s.threads
    case LookUp(t) => t in s.threads && s.threads[t].pc.Start?
    case GetKeyLock(t) => t in s.threads && s.threads[t].pc.WantLock?
    case AcquireKeyLock(t) => t in s.threads && s.threads[t].pc.TryLock?
    case LookUpAgain(t, _) => t in s.threads && s.threads[t].pc.Recheck?
    case TakeEpoch(t) => t in s.threads && s.threads[t].pc.ReadEpoch?
    case AcquirePermit(t) => t in s.threads && s.threads[t].pc.TryPermit?
    case FetchReturns(t, _) => t in s.threads && s.threads[t].pc.Fetching?
    case FetchRaises(t) => t in s.threads && s.threads[t].pc.Fetching?
    case Store(t, _) => t in s.threads && s.threads[t].pc.Storing?
    case ReleaseKeyLock(t) => t in s.threads && s.threads[t].pc.Unlocking?
    case Clear => true
  }

  function Cached(s: State, key: Key): Option<Stored> {
    if key in s.cache then Some(s.cache[key]) else None
  }

  /** Fresh enough to serve at once. */
  predicate Fresh(s: State, th: Thread, read: Option<Stored>, now: int) {
    read.Some? && now - read.value.at < s.ttl && !th.force
  }

  function Served(status: Status, read: Stored, now: int): Outcome {
    Returned(status, read.value, now - read.at)
  }

  /** The key locks after a thread has asked for the lock of its key. */
  function WithKeyLock(s: State, key: Key): map<Key, nat> {
    if key in s.keyLocks then s.keyLocks else s.keyLocks[key := |s.keyLocks|]
  }

  /** What an event does to the shared state. */
  function Shared(s: State, e: Event): State
    requires Enabled(s, e)
  {
    match e
    case GetKeyLock(t) => s.(keyLocks := WithKeyLock(s, s.threads[t].key))
    case AcquireKeyLock(t) =>
      var lock := s.threads[t].pc.lock;
      if lock in s.held then s else s.(held := s.held[lock := t])
    case AcquirePermit(t) => if s.permits == 0 then s else s.(permits := s.permits - 1)
    case FetchReturns(t, _) => s.(permits := s.permits + 1)
    case FetchRaises(t) => s.(permits := s.permits + 1)
    case Store(t, at) =>
      var th := s.threads[t];
      if th.pc.token == s.epoch then s.(cache := s.cache[th.key := Stored(at, th.pc.computed)]) else s
    case ReleaseKeyLock(t) => s.(held := s.held - {s.threads[t].pc.lock})
    case Clear => s.(epoch := s.epoch + 1, cache := map[])
    case _ => s
  }

  /** Where the event leaves the thread it belongs to. */
  function Next(s: State, e: Event): Thread
    requires Enabled(s, e) && !e.Clear?
  {
    match e
    case Arrive(t, key, force, now) => Thread(key, force, s.epoch, now, None, Start)
    case LookUp(t) =>
      var th := s.threads[t];
      var hit := Cached(s, th.key);
      th.(lastRead := hit, pc := if Fresh(s, th, hit, th.now) then Done(Served(Hit, hit.value, th.now)) else WantLock)
    case GetKeyLock(t) =>
      var th := s.threads[t];
      th.(pc := TryLock(WithKeyLock(s, th.key)[th.key]))
    case AcquireKeyLock(t) =>
      var th := s.threads[t];
      if th.pc.lock !in s.held then th.(pc := Recheck(th.pc.lock))
      else th.(pc := Done(if th.lastRead.Some? then Served(Stale, th.lastRead.value, th.now) else Backpressure))
    case LookUpAgain(t, lockedNow) =>
      var th := s.threads[t];
      var latest := Cached(s, th.key);
      th.(lastRead := latest,
          pc := if Fresh(s, th, latest, lockedNow) then Unlocking(th.pc.lock, Served(Hit, latest.value, lockedNow))
                else ReadEpoch(th.pc.lock, lockedNow))
    case TakeEpoch(t) =>
      var th := s.threads[t];
      th.(pc := TryPermit(th.pc.lock, th.pc.lockedNow, s.epoch))
    case AcquirePermit(t) =>
      var th := s.threads[t];
      var refusal := if th.lastRead.Some? then Served(Stale, th.lastRead.value, th.pc.lockedNow) else Backpressure;
      th.(pc := if s.permits > 0 then Fetching(th.pc.lock, th.pc.token, s.epoch) else Unlocking(th.pc.lock, refusal))
    case FetchReturns(t, payload) =>
      var th := s.threads[t];
      th.(pc := Storing(th.pc.lock, th.pc.token, Value(payload, th.key, th.pc.born)))
    case FetchRaises(t) =>
      var th := s.threads[t];
      th.(pc := Unlocking(th.pc.lock, Raised))
    case Store(t, at) =>
      var th := s.threads[t];
      th.(pc := Unlocking(th.pc.lock, Returned(Recomputed, th.pc.computed, 0)))
    case ReleaseKeyLock(t) =>
      var th := s.threads[t];
      th.(pc := Done(th.pc.outcome))
  }

  function Apply(s: State, e: Event): State
    requires Enabled(s, e)
  {
    if e.Clear? then Shared(s, e) else Shared(s, e).(threads := s.threads[e.t := Next(s, e)])
  }

  ghost predicate Initial(s: State) {
    s.cache == map[] && s.keyLocks == map[] && s.held == map[] && s.permits == s.cap && s.threads == map[]
  }

  ghost predicate Runs(s: State, events: seq<Event>, t: State)
    decreases |events|
  {
    if events == [] then s == t else Enabled(s, events[0]) && Runs(Apply(s, events[0]), events[1..], t)
  }

  ghost predicate Reachable(s: State) {
    exists s0, events :: Initial(s0) && Runs(s0, events, s)
  }

  // ----- Invariant -----

  /** What an outcome means.  A hit and a stale answer repeat the request's latest look at the
      cache, the one within the TTL and unforced, the other not; a recomputed answer is new;
      backpressure means that there was nothing to fall back on.  Every value belongs to the
      request's key, and its fetch began no earlier than the request. */
  ghost predicate OutcomeOk(s: State, th: Thread, outcome: Outcome) {
    match outcome
    case Returned(Recomputed, value, age) => th.since <= value.born && value.key == th.key && age == 0
    case Returned(status, value, age) =>
      && th.lastRead.Some? && value == th.lastRead.value.value
      && (status == Hit <==> age < s.ttl && !th.force)
    case Backpressure => th.lastRead == None
    case Raised => true
  }

  /** The latest look found nothing, or nothing that may be served as a hit at `now`. */
  ghost predicate NotFresh(s: State, th: Thread, now: int) {
    !Fresh(s, th, th.lastRead, now)
  }

  ghost predicate PcOk(s: State, th: Thread) {
    match th.pc
    case Start => true
    case WantLock => NotFresh(s, th, th.now)
    case TryLock(_) => NotFresh(s, th, th.now)
    case Recheck(_) => true
    case ReadEpoch(_, lockedNow) => NotFresh(s, th, lockedNow)
    case TryPermit(_, lockedNow, token) => NotFresh(s, th, lockedNow) && th.since <= token <= s.epoch
    case Fetching(_, token, born) => th.since <= token <= born <= s.epoch
    case Storing(_, token, computed) => th.since <= token <= computed.born <= s.epoch && computed.key == th.key
    case Unlocking(_, outcome) => OutcomeOk(s, th, outcome)
    case Done(outcome) => OutcomeOk(s, th, outcome)
  }

  ghost predicate ThreadOk(s: State, t: Tid, th: Thread) {
    && th.since <= s.epoch
    && (th.lastRead.Some? ==> th.since <= th.lastRead.value.value.born && th.lastRead.value.value.key == th.key)
    && PcOk(s, th)
    && (th.pc.TryLock? || th.pc.HoldsLock() ==> th.key in s.keyLocks && s.keyLocks[th.key] == th.pc.lock)
    && (th.pc.HoldsLock() ==> th.pc.lock in s.held && s.held[th.pc.lock] == t)
  }

  /** Every key has a lock of its own. */
  ghost predicate KeyLocksOk(keyLocks: map<Key, nat>) {
    && (forall k :: k in keyLocks ==> keyLocks[k] < |keyLocks|)
    && (forall k, l :: k in keyLocks && l in keyLocks && keyLocks[k] == keyLocks[l] ==> k == l)
  }

  ghost predicate Holder(s: State, lock: nat, t: Tid) {
    t in s.threads && s.threads[t].pc.HoldsLock() && s.threads[t].pc.lock == lock
  }

  /** A held lock belongs to a thread inside its locked section. */
  ghost predicate HeldOk(s: State) {
    forall lock :: lock in s.held ==> Holder(s, lock, s.held[lock])
  }

  ghost function Fetchers(threads: map<Tid, Thread>): set<Tid> {
    set t | t in threads && threads[t].pc.Fetching?
  }

  ghost predicate CacheOk(s: State) {
    forall k :: k in s.cache ==> s.cache[k].value.born == s.epoch && s.cache[k].value.key == k
  }

  ghost predicate ThreadsOk(s: State) {
    forall t :: t in s.threads ==> ThreadOk(s, t, s.threads[t])
  }

  ghost predicate Inv(s: State) {
    && CacheOk(s) && ThreadsOk(s) && KeyLocksOk(s.keyLocks) && HeldOk(s)
    && s.permits + |Fetchers(s.threads)| == s.cap
  }

  /** Another thread's step does not disturb a thread's own facts. */
  lemma ThreadUndisturbed(s: State, s': State, t: Tid, th: Thread)
    requires ThreadOk(s, t, th) && s.epoch <= s'.epoch && s.ttl == s'.ttl
    requires forall k :: k in s.keyLocks ==> k in s'.keyLocks && s'.keyLocks[k] == s.keyLocks[k]
    requires forall lock :: lock in s.held && s.held[lock] == t ==> lock in s'.held && s'.held[lock] == t
    ensures ThreadOk(s', t, th)
  {
  }

  /** One if the thread is fetching. */
  function FetchingAt(threads: map<Tid, Thread>, t: Tid): int {
    if t in threads && threads[t].pc.Fetching? then 1 else 0
  }

  /** Replacing one thread changes the set of fetchers by that thread alone. */
  lemma FetchersMoved(threads: map<Tid, Thread>, t: Tid, th: Thread)
    ensures |Fetchers(threads[t := th])| == |Fetchers(threads)| - FetchingAt(threads, t) +
              FetchingAt(threads[t := th], t)
  {
    var before, after := Fetchers(threads), Fetchers(threads[t := th]);
    forall u ensures u in after <==> (if u == t then th.pc.Fetching? else u in before) {
    }
    SizeWithout(before, after, t);
  }

  lemma SizeWithout<T>(before: set<T>, after: set<T>, x: T)
    requires forall y :: y != x ==> (y in after <==> y in before)
    ensures |after| == |before| - (if x in before then 1 else 0) + (if x in after then 1 else 0)
  {
    var common := before - {x};
    assert after - {x} == common;
    assert before == if x in before then common + {x} else common;
    assert after == if x in after then common + {x} else common;
  }

  lemma CacheStep(s: State, e: Event)
    requires CacheOk(s) && ThreadsOk(s) && Enabled(s, e)
    ensures CacheOk(Apply(s, e))
  {
    if e.Store? {
      assert ThreadOk(s, e.t, s.threads[e.t]);
    }
  }

  lemma NewKeyLock(keyLocks: map<Key, nat>, key: Key)
    requires KeyLocksOk(keyLocks) && key !in keyLocks
    ensures KeyLocksOk(keyLocks[key := |keyLocks|])
  {
    assert |keyLocks[key := |keyLocks|]| == |keyLocks| + 1;
  }

  /** A permit is taken exactly when a fetch begins and given back exactly when it ends. */
  lemma PermitsFollowFetches(s: State, e: Event)
    requires Enabled(s, e) && !e.Clear?
    ensures Shared(s, e).permits + (if Next(s, e).pc.Fetching? then 1 else 0) == s.permits + FetchingAt(s.threads, e.t)
  {
  }

  lemma PermitsStep(s: State, e: Event)
    requires s.permits + |Fetchers(s.threads)| == s.cap && Enabled(s, e)
    ensures Apply(s, e).permits + |Fetchers(Apply(s, e).threads)| == s.cap
  {
    if !e.Clear? {
      PermitsFollowFetches(s, e);
      FetchersMoved(s.threads, e.t, Next(s, e));
    }
  }

  /** A thread that is inside its locked section stays there, with the same lock, until it
      releases it. */
  lemma LockKept(s: State, e: Event)
    requires Enabled(s, e) && !e.Clear? && !e.Arrive? && s.threads[e.t].pc.HoldsLock() && !e.ReleaseKeyLock?
    ensures Next(s, e).pc.HoldsLock() && Next(s, e).pc.lock == s.threads[e.t].pc.lock
  {
  }

  /** A holder remains one unless the step releases its lock. */
  lemma HolderKept(s: State, e: Event, lock: nat, t: Tid)
    requires Enabled(s, e) && Holder(s, lock, t) && !(e.ReleaseKeyLock? && e.t == t)
    ensures Holder(Apply(s, e), lock, t)
  {
    if !e.Clear? && e.t == t {
      LockKept(s, e);
    }
  }

  lemma HeldStep(s: State, e: Event)
    requires HeldOk(s) && Enabled(s, e)
    ensures HeldOk(Apply(s, e))
  {
    var s' := Apply(s, e);
    forall lock | lock in s'.held ensures Holder(s', lock, s'.held[lock]) {
      if lock in s.held {
        assert s'.held[lock] == s.held[lock];
        HolderKept(s, e, lock, s.held[lock]);
      } else {
        assert e.AcquireKeyLock?;
      }
    }
  }

  lemma BeforeLock(s: State, e: Event)
    requires CacheOk(s) && ThreadsOk(s) && Enabled(s, e) &&
               (e.Arrive? || e.LookUp? || e.GetKeyLock? || e.AcquireKeyLock?)
    ensures ThreadOk(Apply(s, e), e.t, Next(s, e))
  {
    assert e.t in s.threads ==> ThreadOk(s, e.t, s.threads[e.t]);
  }

  lemma BeforeFetch(s: State, e: Event)
    requires CacheOk(s) && ThreadsOk(s) && Enabled(s, e) && (e.LookUpAgain? || e.TakeEpoch? || e.AcquirePermit?)
    ensures ThreadOk(Apply(s, e), e.t, Next(s, e))
  {
    assert ThreadOk(s, e.t, s.threads[e.t]);
  }

  lemma AfterFetch(s: State, e: Event)
    requires ThreadsOk(s) && Enabled(s, e) && (e.FetchReturns? || e.FetchRaises? || e.Store? || e.ReleaseKeyLock?)
    ensures ThreadOk(Apply(s, e), e.t, Next(s, e))
  {
    assert ThreadOk(s, e.t, s.threads[e.t]);
  }

  lemma OtherStep(s: State, e: Event, t: Tid)
    requires ThreadsOk(s) && Enabled(s, e) && (e.Clear? || e.t != t) && t in s.threads
    ensures ThreadOk(Apply(s, e), t, s.threads[t])
  {
    assert ThreadOk(s, t, s.threads[t]);
    if e.ReleaseKeyLock? {
      assert ThreadOk(s, e.t, s.threads[e.t]);
    }
    ThreadUndisturbed(s, Apply(s, e), t, s.threads[t]);
  }

  lemma ThreadsStep(s: State, e: Event)
    requires CacheOk(s) && ThreadsOk(s) && Enabled(s, e)
    ensures ThreadsOk(Apply(s, e))
  {
    var s' := Apply(s, e);
    forall t | t in s'.threads ensures ThreadOk(s', t, s'.threads[t]) {
      if e.Clear? || e.t != t {
        OtherStep(s, e, t);
      } else if e.Arrive? || e.LookUp? || e.GetKeyLock? || e.AcquireKeyLock? {
        BeforeLock(s, e);
      } else if e.LookUpAgain? || e.TakeEpoch? || e.AcquirePermit? {
        BeforeFetch(s, e);
      } else {
        AfterFetch(s, e);
      }
    }
  }

  lemma StepKeeps(s: State, e: Event)
    requires Inv(s) && Enabled(s, e)
    ensures Inv(Apply(s, e))
  {
    CacheStep(s, e);
    ThreadsStep(s, e);
    if e.GetKeyLock? && s.threads[e.t].key !in s.keyLocks {
      NewKeyLock(s.keyLocks, s.threads[e.t].key);
    }
    HeldStep(s, e);
    PermitsStep(s, e);
  }

  lemma {:induction false} RunKeeps(s: State, events: seq<Event>, t: State)
    requires Inv(s) && Runs(s, events, t)
    ensures Inv(t)
    decreases |events|
  {
    if events != [] {
      StepKeeps(s, events[0]);
      RunKeeps(Apply(s, events[0]), events[1..], t);
    }
  }

  lemma ReachableInv(s: State)
    requires Reachable(s)
    ensures Inv(s)
  {
    var s0, events :| Initial(s0) && Runs(s0, events, s);
    assert Fetchers(s0.threads) == {};
    RunKeeps(s0, events, s);
  }

  // ----- Theorems -----

  /** Every cached value was fetched for its own key, in the current epoch. */
  lemma CacheIsCurrent(s: State, key: Key)
    requires Reachable(s) && key in s.cache
    ensures s.cache[key].value.born == s.epoch && s.cache[key].value.key == key
  {
    ReachableInv(s);
  }

  /** What a finished request returns: its own key's value, classified truthfully. */
  lemma AnswersAreTruthful(s: State, t: Tid)
    requires Reachable(s) && t in s.threads && s.threads[t].pc.Done? && s.threads[t].pc.outcome.Returned?
    ensures var th := s.threads[t]; var Returned(status, value, age) := th.pc.outcome;
            && value.key == th.key && th.since <= value.born
            && (status == Hit ==> age < s.ttl && !th.force)
            && (status == Stale ==> age >= s.ttl || th.force)
            && (status == Recomputed ==> age == 0)
  {
    ReachableInv(s);
    assert ThreadOk(s, t, s.threads[t]);
  }

  /** Request `t` is not there yet, or started after epoch `n`. */
  ghost predicate StartedAfter(s: State, t: Tid, n: nat) {
    s.epoch > n && (t in s.threads ==> s.threads[t].since > n)
  }

  lemma AfterStep(s: State, e: Event, t: Tid, n: nat)
    requires Enabled(s, e) && StartedAfter(s, t, n)
    ensures StartedAfter(Apply(s, e), t, n)
  {
  }

  lemma {:induction false} StaysAfter(s: State, events: seq<Event>, u: State, t: Tid, n: nat)
    requires Inv(s) && StartedAfter(s, t, n) && Runs(s, events, u)
    ensures Inv(u) && StartedAfter(u, t, n)
    decreases |events|
  {
    if events != [] {
      StepKeeps(s, events[0]);
      AfterStep(s, events[0], t, n);
      StaysAfter(Apply(s, events[0]), events[1..], u, t, n);
    }
  }

  /** A request that starts after a clear never returns, as hit, stale or recomputed, a value
      whose fetch began before that clear, whatever happens before, between and after. */
  lemma NothingFromBeforeTheClear(s: State, events: seq<Event>, u: State, t: Tid)
    requires Reachable(s) && t !in s.threads && Runs(Apply(s, Clear), events, u)
    requires t in u.threads && u.threads[t].pc.Done? && u.threads[t].pc.outcome.Returned?
    ensures u.threads[t].pc.outcome.value.born > s.epoch
  {
    ReachableInv(s);
    StepKeeps(s, Clear);
    StaysAfter(Apply(s, Clear), events, u, t, s.epoch);
    assert ThreadOk(u, t, u.threads[t]);
  }

  /** At most one request at a time is inside the locked section of a key. */
  lemma SingleFlight(s: State, t: Tid, u: Tid)
    requires Reachable(s) && t in s.threads && u in s.threads
    requires s.threads[t].pc.HoldsLock() && s.threads[u].pc.HoldsLock() && s.threads[t].key == s.threads[u].key
    ensures t == u
  {
    ReachableInv(s);
    assert ThreadOk(s, t, s.threads[t]) && ThreadOk(s, u, s.threads[u]);
  }

  /** Free permits and running fetches add up to the cap, and when every request has left,
      every permit and every lock has been given back. */
  lemma PermitsConserved(s: State)
    requires Reachable(s)
    ensures s.permits + |Fetchers(s.threads)| == s.cap
    ensures (forall t :: t in s.threads ==> s.threads[t].pc.Done?) ==> s.permits == s.cap && s.held == map[]
  {
    ReachableInv(s);
    if forall t :: t in s.threads ==> s.threads[t].pc.Done? {
      assert Fetchers(s.threads) == {};
    }
  }

  /** A finished request holds neither lock nor permit; backpressure means that its latest
      look at the cache found nothing. */
  lemma ExitsCleanly(s: State, t: Tid)
    requires Reachable(s) && t in s.threads && s.threads[t].pc.Done?
    ensures t !in s.held.Values && t !in Fetchers(s.threads)
    ensures s.threads[t].pc.outcome == Backpressure ==> s.threads[t].lastRead == None
  {
    ReachableInv(s);
    assert ThreadOk(s, t, s.threads[t]);
  }

  /** Steps a request still has to take, whatever the others do. */
  function StepsLeft(pc: Pc): nat {
    match pc
    case Start => 9
    case WantLock => 8
    case TryLock(_) => 7
    case Recheck(_) => 6
    case ReadEpoch(_, _) => 5
    case TryPermit(_, _, _) => 4
    case Fetching(_, _, _) => 3
    case Storing(_, _, _) => 2
    case Unlocking(_, _) => 1
    case Done(_) => 0
  }

  /** The next step of an unfinished request. */
  function NextEvent(t: Tid, pc: Pc, now: int, payload: int): Event
    requires !pc.Done?
  {
    match pc
    case Start => LookUp(t)
    case WantLock => GetKeyLock(t)
    case TryLock(_) => AcquireKeyLock(t)
    case Recheck(_) => LookUpAgain(t, now)
    case ReadEpoch(_, _) => TakeEpoch(t)
    case TryPermit(_, _, _) => AcquirePermit(t)
    case Fetching(_, _, _) => FetchReturns(t, payload)
    case Storing(_, _, _) => Store(t, now)
    case Unlocking(_, _) => ReleaseKeyLock(t)
  }

  lemma OwnStepAdvances(s: State, e: Event)
    requires Enabled(s, e) && !e.Clear? && !e.Arrive?
    ensures StepsLeft(Next(s, e).pc) < StepsLeft(s.threads[e.t].pc)
  {
    var pc := Next(s, e).pc;
    match e
    case LookUp(_) => assert pc.WantLock? || pc.Done?;
    case GetKeyLock(_) => assert pc.TryLock?;
    case AcquireKeyLock(_) => assert pc.Recheck? || pc.Done?;
    case LookUpAgain(_, _) => assert pc.ReadEpoch? || pc.Unlocking?;
    case TakeEpoch(_) => assert pc.TryPermit?;
    case AcquirePermit(_) => assert pc.Fetching? || pc.Unlocking?;
    case FetchReturns(_, _) => assert pc.Storing?;
    case FetchRaises(_) => assert pc.Unlocking?;
    case Store(_, _) => assert pc.Unlocking?;
    case ReleaseKeyLock(_) => assert pc.Done?;
  }

  /** No request ever waits: in every state its next step is enabled, every step of its own
      brings it strictly nearer to its exit, and steps of others leave its position alone. */
  lemma NeverBlocks(s: State, t: Tid, now: int, payload: int, e: Event)
    requires t in s.threads && !s.threads[t].pc.Done? && Enabled(s, e)
    ensures Enabled(s, NextEvent(t, s.threads[t].pc, now, payload))
    ensures t in Apply(s, e).threads
    ensures !e.Clear? && e.t == t ==> StepsLeft(Apply(s, e).threads[t].pc) < StepsLeft(s.threads[t].pc)
    ensures (e.Clear? || e.t != t) ==> Apply(s, e).threads[t] == s.threads[t]
  {
    if !e.Clear? && !e.Arrive? {
      OwnStepAdvances(s, e);
    }
  }

  // ----- Fills and hits -----

  ghost predicate NoClear(events: seq<Event>) {
    forall e <- events :: !e.Clear?
  }

  /** The request keeps the epoch that it noted until it has stored. */
  ghost predicate Noted(th: Thread, key: Key, token: nat) {
    && th.key == key
    && (|| th.pc.Unlocking? || th.pc.Done?
        || ((th.pc.TryPermit? || th.pc.Fetching? || th.pc.Storing?) && th.pc.token == token))
  }

  lemma NotedStep(s: State, e: Event, t: Tid, key: Key, token: nat)
    requires Enabled(s, e) && t in s.threads && Noted(s.threads[t], key, token)
    ensures t in Apply(s, e).threads && Noted(Apply(s, e).threads[t], key, token)
    ensures Apply(s, e).epoch == if e.Clear? then s.epoch + 1 else s.epoch
  {
  }

  lemma {:induction false} NotedRun(s: State, events: seq<Event>, u: State, t: Tid, key: Key, token: nat)
    requires Runs(s, events, u) && t in s.threads && Noted(s.threads[t], key, token)
    ensures t in u.threads && Noted(u.threads[t], key, token)
    ensures s.epoch <= u.epoch && (u.epoch == s.epoch <==> NoClear(events))
    decreases |events|
  {
    if events != [] {
      var e, rest := events[0], events[1..];
      NotedStep(s, e, t, key, token);
      NotedRun(Apply(s, e), rest, u, t, key, token);
      assert events == [e] + rest;
    }
  }

  /** The request carries, or has answered with, the payload that its fetch delivered. */
  ghost predicate Delivered(th: Thread, payload: int) {
    match th.pc
    case Storing(_, _, computed) => computed.payload == payload && computed.key == th.key
    case Unlocking(_, outcome) => Answers(outcome, payload, th.key)
    case Done(outcome) => Answers(outcome, payload, th.key)
    case _ => false
  }

  ghost predicate Answers(outcome: Outcome, payload: int, key: Key) {
    outcome.Returned? && outcome.status == Recomputed && outcome.value.payload == payload && outcome.value.key == key
  }

  lemma DeliveredStep(s: State, e: Event, t: Tid, payload: int)
    requires Enabled(s, e) && t in s.threads && Delivered(s.threads[t], payload)
    ensures t in Apply(s, e).threads && Delivered(Apply(s, e).threads[t], payload)
  {
  }

  lemma {:induction false} DeliveredRun(s: State, events: seq<Event>, u: State, t: Tid, payload: int)
    requires Runs(s, events, u) && t in s.threads && Delivered(s.threads[t], payload)
    ensures t in u.threads && Delivered(u.threads[t], payload)
    decreases |events|
  {
    if events != [] {
      DeliveredStep(s, events[0], t, payload);
      DeliveredRun(Apply(s, events[0]), events[1..], u, t, payload);
    }
  }

  /** A request whose fetch returned answers with what the fetch delivered, and with nothing else. */
  lemma AnswersWhatWasFetched(s: State, t: Tid, payload: int, events: seq<Event>, u: State)
    requires Enabled(s, FetchReturns(t, payload)) && Runs(Apply(s, FetchReturns(t, payload)), events, u)
    ensures t in u.threads && (u.threads[t].pc.Done? ==> Answers(u.threads[t].pc.outcome, payload, u.threads[t].key))
  {
    DeliveredRun(Apply(s, FetchReturns(t, payload)), events, u, t, payload);
  }

  /** A request that noted the epoch, fetched and stores: exactly when no clear came in between, the
      cache holds the fetched payload under the request's key, stamped with the time of storing; all
      other keys are as they were. */
  lemma FillIff(s: State, t: Tid, toFetch: seq<Event>, f: State, payload: int, toStore: seq<Event>, u: State, at: int)
    requires Enabled(s, TakeEpoch(t)) && Runs(Apply(s, TakeEpoch(t)), toFetch, f)
    requires Enabled(f, FetchReturns(t, payload)) && Runs(Apply(f, FetchReturns(t, payload)), toStore, u)
    requires Enabled(u, Store(t, at))
    ensures var computed, key := u.threads[t].pc.computed, s.threads[t].key;
            && computed.payload == payload && computed.key == key
            && Apply(u, Store(t, at)).cache ==
               if NoClear(toFetch) && NoClear(toStore) then u.cache[key := Stored(at, computed)] else u.cache
  {
    var key, token := s.threads[t].key, s.epoch;
    NotedRun(Apply(s, TakeEpoch(t)), toFetch, f, t, key, token);
    NotedStep(f, FetchReturns(t, payload), t, key, token);
    NotedRun(Apply(f, FetchReturns(t, payload)), toStore, u, t, key, token);
    DeliveredRun(Apply(f, FetchReturns(t, payload)), toStore, u, t, payload);
  }

  /** No clear, and no other store under the key. */
  ghost predicate Quiet(s: State, events: seq<Event>, key: Key)
    decreases |events|
  {
    events != [] && Enabled(s, events[0]) ==>
      && !events[0].Clear? && !(events[0].Store? && s.threads[events[0].t].key == key)
      && Quiet(Apply(s, events[0]), events[1..], key)
  }

  lemma QuietStep(s: State, e: Event, key: Key)
    requires Enabled(s, e) && !e.Clear? && !(e.Store? && s.threads[e.t].key == key)
    ensures Cached(Apply(s, e), key) == Cached(s, key) && Apply(s, e).ttl == s.ttl
  {
  }

  lemma {:induction false} QuietRun(s: State, events: seq<Event>, u: State, key: Key)
    requires Runs(s, events, u) && Quiet(s, events, key)
    ensures Cached(u, key) == Cached(s, key) && u.ttl == s.ttl
    decreases |events|
  {
    if events != [] {
      QuietStep(s, events[0], key);
      QuietRun(Apply(s, events[0]), events[1..], u, key);
    }
  }

  /** A value that was stored is served: as long as nothing clears or replaces it, an unforced
      request that looks at the cache within the TTL, before or under the lock, gets it as a hit
      with its true age. */
  lemma FilledThenHit(s: State, key: Key, at: int, value: Value, events: seq<Event>, w: State, t: Tid, now: int)
    requires Cached(s, key) == Some(Stored(at, value)) && Runs(s, events, w) && Quiet(s, events, key)
    requires t in w.threads && w.threads[t].key == key && !w.threads[t].force
    ensures w.threads[t].pc.Start? && w.threads[t].now - at < s.ttl ==>
              Apply(w, LookUp(t)).threads[t].pc == Done(Returned(Hit, value, w.threads[t].now - at))
    ensures w.threads[t].pc.Recheck? && now - at < s.ttl ==>
              Apply(w, LookUpAgain(t, now)).threads[t].pc ==
              Unlocking(w.threads[t].pc.lock, Returned(Hit, value, now - at))
  {
    QuietRun(s, events, w, key);
  }

  // ----- Which way a request leaves -----

  /** How the request will leave, as far as that is settled. */
  function Settled(th: Thread): Option<Outcome> {
    match th.pc
    case Storing(_, _, computed) => Some(Returned(Recomputed, computed, 0))
    case Unlocking(_, outcome) => Some(outcome)
    case Done(outcome) => Some(outcome)
    case _ => None
  }

  ghost predicate LeavesRecomputed(s: State, t: Tid) {
    t in s.threads && Settled(s.threads[t]).Some? && Settled(s.threads[t]).value.Returned? &&
    Settled(s.threads[t]).value.status == Recomputed
  }

  ghost predicate LeavesRaised(s: State, t: Tid) {
    t in s.threads && Settled(s.threads[t]) == Some(Raised)
  }

  ghost predicate FetchReturned(events: seq<Event>, t: Tid) {
    exists payload :: FetchReturns(t, payload) in events
  }

  lemma RecomputedStep(s: State, e: Event, t: Tid)
    requires Enabled(s, e)
    ensures LeavesRecomputed(Apply(s, e), t) <==> LeavesRecomputed(s, t) || (e.FetchReturns? && e.t == t)
  {
  }

  lemma RaisedStep(s: State, e: Event, t: Tid)
    requires Enabled(s, e)
    ensures LeavesRaised(Apply(s, e), t) <==> LeavesRaised(s, t) || (e.FetchRaises? && e.t == t)
  {
  }

  /** A request leaves with a recomputed answer exactly when its own fetch returned, and with an
      exception of the fetch exactly when that raised, in every run. */
  lemma {:induction false} LeavesAsItsFetch(s: State, events: seq<Event>, u: State, t: Tid)
    requires Runs(s, events, u)
    ensures LeavesRecomputed(u, t) <==> LeavesRecomputed(s, t) || FetchReturned(events, t)
    ensures LeavesRaised(u, t) <==> LeavesRaised(s, t) || FetchRaises(t) in events
    decreases |events|
  {
    if events != [] {
      var e, rest := events[0], events[1..];
      RecomputedStep(s, e, t);
      RaisedStep(s, e, t);
      LeavesAsItsFetch(Apply(s, e), rest, u, t);
      assert events == [e] + rest;
      assert FetchReturned(events, t) <==> (e.FetchReturns? && e.t == t) || FetchReturned(rest, t) by {
        forall payload ensures FetchReturns(t, payload) in events <==>
                               e == FetchReturns(t, payload) || FetchReturns(t, payload) in rest {
        }
        if e.FetchReturns? && e.t == t {
          assert FetchReturns(t, e.payload) in events;
        }
      }
    }
  }

  /** A request that finds its lock taken, or no permit free, answers with what it last read and the age
      of that, or with backpressure if it read nothing; and only then is it refused. */
  lemma RefusedIff(s: State, t: Tid)
    requires t in s.threads
    ensures var th := s.threads[t]; var read := th.lastRead;
            th.pc.TryLock? ==>
              Apply(s, AcquireKeyLock(t)).threads[t].pc ==
              if th.pc.lock !in s.held then Recheck(th.pc.lock)
              else if read.Some? then Done(Returned(Stale, read.value.value, th.now - read.value.at))
              else Done(Backpressure)
    ensures var th := s.threads[t]; var read := th.lastRead;
            th.pc.TryPermit? ==>
              Apply(s, AcquirePermit(t)).threads[t].pc ==
              if s.permits > 0 then Fetching(th.pc.lock, th.pc.token, s.epoch)
              else if read.Some? then
                Unlocking(th.pc.lock, Returned(Stale, read.value.value, th.pc.lockedNow - read.value.at))
              else Unlocking(th.pc.lock, Backpressure)
  {
  }

  // ----- An undisturbed request -----

  lemma Prepend(s: State, e: Event, events: seq<Event>, u: State)
    requires Enabled(s, e) && Runs(Apply(s, e), events, u)
    ensures Runs(s, [e] + events, u)
  {
    assert ([e] + events)[1..] == events;
  }

  lemma ThreeSteps(s: State, e0: Event, s1: State, e1: Event, s2: State, e2: Event, u: State)
    requires Enabled(s, e0) && s1 == Apply(s, e0) && Enabled(s1, e1) && s2 == Apply(s1, e1)
    requires Enabled(s2, e2) && u == Apply(s2, e2)
    ensures Runs(s, [e0, e1, e2], u)
  {
    Prepend(s2, e2, [], u);
    Prepend(s1, e1, [e2] + [], u);
    Prepend(s, e0, [e1] + ([e2] + []), u);
    assert [e0] + ([e1] + ([e2] + [])) == [e0, e1, e2];
  }

  lemma {:induction false} RunsConcat(s: State, before: seq<Event>, m: State, after: seq<Event>, u: State)
    requires Runs(s, before, m) && Runs(m, after, u)
    ensures Runs(s, before + after, u)
    decreases |before|
  {
    if before == [] {
      assert before + after == after;
    } else {
      RunsConcat(Apply(s, before[0]), before[1..], m, after, u);
      assert (before + after)[1..] == before[1..] + after;
    }
  }

  /** The lock that a request for the key will ask for. */
  function LockOf(s: State, key: Key): nat {
    WithKeyLock(s, key)[key]
  }

  /** Nothing that may be served as a hit at that time. */
  ghost predicate NothingToServe(s: State, key: Key, force: bool, now: int) {
    force || key !in s.cache || now - s.cache[key].at >= s.ttl
  }

  /** The request as it stands behind the lock of its key. */
  function AtLock(s: State, key: Key, force: bool, now: int): Thread {
    Thread(key, force, s.epoch, now, Cached(s, key), Recheck(LockOf(s, key)))
  }

  lemma ReachesLock(s: State, t: Tid, key: Key, force: bool, now: int) returns (events: seq<Event>, u: State)
    requires t !in s.threads && NothingToServe(s, key, force, now) && LockOf(s, key) !in s.held
    ensures Runs(s, events, u)
    ensures u == s.(keyLocks := WithKeyLock(s, key), held := s.held[LockOf(s, key) := t],
                    threads := s.threads[t := AtLock(s, key, force, now)])
  {
    var s1 := Apply(s, Arrive(t, key, force, now));
    var s2 := Apply(s1, LookUp(t));
    var s3 := Apply(s2, GetKeyLock(t));
    u := Apply(s3, AcquireKeyLock(t));
    ThreeSteps(s1, LookUp(t), s2, GetKeyLock(t), s3, AcquireKeyLock(t), u);
    Prepend(s, Arrive(t, key, force, now), [LookUp(t), GetKeyLock(t), AcquireKeyLock(t)], u);
    events := [Arrive(t, key, force, now)] + [LookUp(t), GetKeyLock(t), AcquireKeyLock(t)];
    assert s3.threads[t].lastRead == Cached(s, key);
    assert u.threads == s.threads[t := u.threads[t]];
  }

  lemma Fetches(s: State, t: Tid, now: int) returns (events: seq<Event>, u: State)
    requires t in s.threads && s.threads[t].pc.Recheck? && s.permits > 0
    requires NothingToServe(s, s.threads[t].key, s.threads[t].force, now)
    ensures Runs(s, events, u)
    ensures var th := s.threads[t];
            var fetching := th.(lastRead := Cached(s, th.key), pc := Fetching(th.pc.lock, s.epoch, s.epoch));
            u == s.(permits := s.permits - 1, threads := s.threads[t := fetching])
  {
    var s1 := Apply(s, LookUpAgain(t, now));
    var s2 := Apply(s1, TakeEpoch(t));
    u := Apply(s2, AcquirePermit(t));
    ThreeSteps(s, LookUpAgain(t, now), s1, TakeEpoch(t), s2, AcquirePermit(t), u);
    events := [LookUpAgain(t, now), TakeEpoch(t), AcquirePermit(t)];
    assert u.threads == s.threads[t := u.threads[t]];
  }

  lemma StoresAndLeaves(s: State, t: Tid, payload: int, at: int) returns (events: seq<Event>, u: State)
    requires t in s.threads && s.threads[t].pc.Fetching? && s.threads[t].pc.token == s.epoch
    ensures Runs(s, events, u)
    ensures var th := s.threads[t]; var value := Value(payload, th.key, th.pc.born);
            u == s.(permits := s.permits + 1, held := s.held - {th.pc.lock},
                    cache := s.cache[th.key := Stored(at, value)],
                    threads := s.threads[t := th.(pc := Done(Returned(Recomputed, value, 0)))])
  {
    var s1 := Apply(s, FetchReturns(t, payload));
    var s2 := Apply(s1, Store(t, at));
    u := Apply(s2, ReleaseKeyLock(t));
    ThreeSteps(s, FetchReturns(t, payload), s1, Store(t, at), s2, ReleaseKeyLock(t), u);
    events := [FetchReturns(t, payload), Store(t, at), ReleaseKeyLock(t)];
    assert u.threads == s.threads[t := u.threads[t]];
  }

  lemma ConcatThree(s: State, e1: seq<Event>, s1: State, e2: seq<Event>, s2: State, e3: seq<Event>, u: State)
    requires Runs(s, e1, s1) && Runs(s1, e2, s2) && Runs(s2, e3, u)
    ensures Runs(s, e1 + (e2 + e3), u)
  {
    RunsConcat(s1, e2, s2, e3, u);
    RunsConcat(s, e1, s1, e2 + e3, u);
  }

  /** The three stretches taken together touch the cache and the request's own entry alone. */
  lemma LeavesNoTrace(s: State, s1: State, s2: State, t: Tid, key: Key, u: State)
    requires t !in s.threads && LockOf(s, key) !in s.held
    requires s1.held == s.held[LockOf(s, key) := t] && s2.held == s1.held && u.held == s2.held - {LockOf(s, key)}
    requires t in s1.threads && t in s2.threads && t in u.threads
    requires s1.threads == s.threads[t := s1.threads[t]]
    requires s2.threads == s1.threads[t := s2.threads[t]]
    requires u.threads == s2.threads[t := u.threads[t]]
    ensures u.held == s.held && u.threads - {t} == s.threads
  {
  }

  /** Left alone, with its lock and a permit free, a request that finds nothing to serve computes its
      answer, leaves it in the cache, and gives everything back. */
  lemma UndisturbedRequestFills(
      s: State, t: Tid, key: Key, force: bool, now: int, lockedNow: int, payload: int, at: int)
    returns (events: seq<Event>, u: State)
    requires t !in s.threads && s.permits > 0 && LockOf(s, key) !in s.held
    requires NothingToServe(s, key, force, now) && NothingToServe(s, key, force, lockedNow)
    ensures var value := Value(payload, key, s.epoch);
            && Runs(s, events, u) && u.cache == s.cache[key := Stored(at, value)]
            && t in u.threads && u.threads[t].pc == Done(Returned(Recomputed, value, 0))
            && u.permits == s.permits && u.held == s.held && u.epoch == s.epoch && u.threads - {t} == s.threads
  {
    var e1, s1 := ReachesLock(s, t, key, force, now);
    var e2, s2 := Fetches(s1, t, lockedNow);
    var e3, s3 := StoresAndLeaves(s2, t, payload, at);
    ConcatThree(s, e1, s1, e2, s2, e3, s3);
    events, u := e1 + (e2 + e3), s3;
    LeavesNoTrace(s, s1, s2, t, key, u);
  }
}
