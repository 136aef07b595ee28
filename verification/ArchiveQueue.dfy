/** The conversation archive writer of `conversation_archive.py`: any number of producers
    reserve bytes, put records into a bounded queue, and one batching writer drains it.  A
    step is one guarded section of a producer or of the writer; any interleaving is allowed. */
module ArchiveQueue {
  import opened Sums

  type Path = string

  /** `size` is the serialized length plus one, so it is never zero. */
  datatype Record = Record(path: Path, body: int, size: nat)

  datatype Item = Entry(record: Record) | StopMark

  /** Where a call of `_enqueue_record` stands. */
  datatype Producer =
    | Arriving(record: Record)
    | Waiting(record: Record)     // in the blocking byte reservation
    | Reserved(record: Record)    // bytes counted, not yet in the queue
    | Blocked(record: Record)     // in the blocking put
    | Finished(record: Record, queued: bool)
  {
    predicate Holds() { Reserved? || Blocked? }
  }

  /** Where the writer thread stands in `_writer_loop`. */
  datatype Writer =
    | Idle
    | Gathering(batch: seq<Record>)
    | Writing(batch: seq<Record>, stop: bool)
    | Releasing(batch: seq<Record>, stop: bool)
    | Stopped
  {
    /** Records taken from the queue whose bytes are still counted. */
    function Batch(): seq<Record> {
      if Idle? || Stopped? then [] else batch
    }

    /** Records taken from the queue and not yet handed to the file writer. */
    function Unwritten(): seq<Record> {
      if Gathering? || Writing? then batch else []
    }
  }

  /** `enqueued`, `handed` and `processed` record the history: what was put (and by whom), what the
      writer took, what it passed to `_append_records`; `lost` collects paths of dropped groups. */
  datatype State = State(
    maxBytes: nat, maxRecords: nat,
    bytes: nat, queue: seq<Item>, unfinished: nat,
    producers: map<nat, Producer>, writer: Writer,
    enqueued: seq<Record>, putBy: seq<nat>, handed: seq<Record>, processed: seq<Record>,
    files: map<Path, seq<Record>>, lost: set<Path>)

  datatype Event =
    | Arrive(p: nat, record: Record, diskPressure: bool)
    | TryReserve(p: nat)
    | ReserveBlocking(p: nat)
    | Put(p: nat)
    | PutBlocking(p: nat)
    | FailToStart(p: nat)
    | RestartWriter(p: nat)
    | PutStop
    | Get
    | GetMore
    | Append(written: set<Path>)
    | ReleaseOne

  /** `_can_reserve_archive_queue_bytes`: within budget, or one oversize record alone. */
  predicate CanReserve(s: State, size: nat) {
    s.bytes + size <= s.maxBytes || (size > s.maxBytes && s.bytes == 0)
  }

  predicate Enabled(s: State, e: Event) {
    match e
    case Arrive(p, r, _) => p !in s.producers && r.size >= 1
    case TryReserve(p) => p in s.producers && s.producers[p].Arriving?
    case ReserveBlocking(p) => p in s.producers && s.producers[p].Waiting? && CanReserve(s, s.producers[p].record.size)
    case Put(p) => p in s.producers && s.producers[p].Reserved?
    case PutBlocking(p) => p in s.producers && s.producers[p].Blocked? && |s.queue| < s.maxRecords
    case FailToStart(p) => p in s.producers && s.producers[p].Reserved?
    case RestartWriter(p) => p in s.producers && s.producers[p].Reserved? && s.writer.Stopped?
    case PutStop => |s.queue| < s.maxRecords
    case Get => s.writer.Idle? && s.queue != []
    case GetMore => s.writer.Gathering?
    case Append(written) => s.writer.Writing? && written <= Paths(s.writer.batch)
    case ReleaseOne => s.writer.Releasing?
  }

  function Moved(s: State, p: nat, producer: Producer): State {
    s.(producers := s.producers[p := producer])
  }

  function Queued(s: State, p: nat, r: Record): State {
    Moved(s, p, Finished(r, true)).(queue := s.queue + [Entry(r)], unfinished := s.unfinished + 1,
        enqueued := s.enqueued + [r], putBy := s.putBy + [p])
  }

  /** `_release_archive_queue_bytes`, with its clamp at zero. */
  function Released(bytes: nat, size: nat): nat {
    if bytes >= size then bytes - size else 0
  }

  /** The records of a batch that go to one file, in batch order. */
  function OnPath(records: seq<Record>, path: Path): seq<Record> {
    if records == [] then []
    else
      var last := records[|records| - 1];
      OnPath(records[..|records| - 1], path) + if last.path == path then [last] else []
  }

  function FileOf(files: map<Path, seq<Record>>, path: Path): seq<Record> {
    if path in files then files[path] else []
  }

  /** `_append_records`: each path's group is appended as a whole or, on an error or under disk
      pressure, dropped as a whole. */
  function Appended(files: map<Path, seq<Record>>, batch: seq<Record>, written: set<Path>): map<Path, seq<Record>> {
    map path | path in files.Keys + written :: FileOf(files, path) + if path in written then OnPath(batch, path) else []
  }

  function Paths(batch: seq<Record>): set<Path> {
    set r <- batch :: r.path
  }

  /** The events of a producer; the others are the writer's, or a stop request. */
  predicate ByProducer(e: Event) {
    e.Arrive? || e.TryReserve? || e.ReserveBlocking? || e.Put? || e.PutBlocking? || e.FailToStart? || e.RestartWriter?
  }

  function ProducerApply(s: State, e: Event): State
    requires Enabled(s, e) && ByProducer(e)
  {
    match e
    case Arrive(p, r, diskPressure) => Moved(s, p, if diskPressure then Finished(r, false) else Arriving(r))
    case TryReserve(p) =>
      var r := s.producers[p].record;
      if CanReserve(s, r.size) then Moved(s.(bytes := s.bytes + r.size), p, Reserved(r)) else Moved(s, p, Waiting(r))
    case ReserveBlocking(p) =>
      var r := s.producers[p].record;
      Moved(s.(bytes := s.bytes + r.size), p, Reserved(r))
    case Put(p) =>
      var r := s.producers[p].record;
      if |s.queue| < s.maxRecords then Queued(s, p, r) else Moved(s, p, Blocked(r))
    case PutBlocking(p) => Queued(s, p, s.producers[p].record)
    case FailToStart(p) =>
      var r := s.producers[p].record;
      Moved(s.(bytes := Released(s.bytes, r.size)), p, Finished(r, false))
    case RestartWriter(p) => s.(writer := Idle)
  }

  function TaskDone(unfinished: nat): nat {
    if unfinished > 0 then unfinished - 1 else 0
  }

  /** Take the head of the queue: a stop mark leaves the writer at `onStop`, a record joins
      the batch. */
  function Take(s: State, batch: seq<Record>, onStop: Writer): State
    requires s.queue != []
  {
    match s.queue[0]
    case StopMark => s.(queue := s.queue[1..], unfinished := TaskDone(s.unfinished), writer := onStop)
    case Entry(r) => s.(queue := s.queue[1..], handed := s.handed + [r], writer := Gathering(batch + [r]))
  }

  function WriterApply(s: State, e: Event): State
    requires Enabled(s, e) && !ByProducer(e)
  {
    match e
    case PutStop => s.(queue := s.queue + [StopMark], unfinished := s.unfinished + 1)
    case Get => Take(s, [], Stopped)
    case GetMore =>
      var batch := s.writer.batch;
      if s.queue == [] then s.(writer := Writing(batch, false)) else Take(s, batch, Writing(batch, true))
    case Append(written) =>
      var batch := s.writer.batch;
      s.(writer := Releasing(batch, s.writer.stop), processed := s.processed + batch,
         files := Appended(s.files, batch, written), lost := s.lost + (Paths(batch) - written))
    case ReleaseOne =>
      var Releasing(batch, stop) := s.writer;
      if batch == [] then s.(writer := if stop then Stopped else Idle)
      else s.(bytes := Released(s.bytes, batch[0].size), unfinished := TaskDone(s.unfinished),
          writer := Releasing(batch[1..], stop))
  }

  function Apply(s: State, e: Event): State
    requires Enabled(s, e)
  {
    if ByProducer(e) then ProducerApply(s, e) else WriterApply(s, e)
  }

  ghost predicate Initial(s: State) {
    && s.maxBytes >= 1 && s.maxRecords >= 1
    && s.bytes == 0 && s.queue == [] && s.unfinished == 0 && s.producers == map[] &&
        (s.writer.Idle? || s.writer.Stopped?)
    && s.enqueued == s.handed == s.processed == [] && s.putBy == [] && s.files == map[] && s.lost == {}
  }

  ghost predicate Runs(s: State, events: seq<Event>, t: State)
    decreases |events|
  {
    if events == [] then s == t else Enabled(s, events[0]) && Runs(Apply(s, events[0]), events[1..], t)
  }

  ghost predicate Reachable(s: State) {
    exists s0, events :: Initial(s0) && Runs(s0, events, s)
  }

  // ----- What is reserved and not yet released -----

  /** Sizes reserved by producers that have not queued their record yet. */
  ghost function Pending(producers: map<nat, Producer>): map<nat, int> {
    map p | p in producers && producers[p].Holds() :: producers[p].record.size as int
  }

  ghost function Records(queue: seq<Item>): seq<Record> {
    if queue == [] then []
    else Records(queue[..|queue| - 1]) + if queue[|queue| - 1].Entry? then [queue[|queue| - 1].record] else []
  }

  ghost function SizeSum(records: seq<Record>): int {
    if records == [] then 0 else SizeSum(records[..|records| - 1]) + records[|records| - 1].size
  }

  /** Summed sizes of all reserved and unreleased records. */
  ghost function Outstanding(s: State): int {
    MapSum(Pending(s.producers)) + SizeSum(Records(s.queue)) + SizeSum(s.writer.Batch())
  }

  /** How many there are. */
  ghost function OutstandingCount(s: State): int {
    |Pending(s.producers)| + |Records(s.queue)| + |s.writer.Batch()|
  }

  ghost predicate Positive(records: seq<Record>) {
    forall r <- records :: r.size >= 1
  }

  ghost predicate ProducersPositive(producers: map<nat, Producer>) {
    forall p :: p in producers && !producers[p].Finished? ==> producers[p].record.size >= 1
  }

  ghost predicate SizesPositive(s: State) {
    ProducersPositive(s.producers) && Positive(Records(s.queue)) && Positive(s.writer.Batch())
  }

  // ----- Sequence facts -----

  lemma {:induction false} RecordsConcat(a: seq<Item>, b: seq<Item>)
    ensures Records(a + b) == Records(a) + Records(b)
    decreases |b|
  {
    if b == [] {
      assert a + b == a;
    } else {
      assert (a + b)[..|a + b| - 1] == a + b[..|b| - 1];
      RecordsConcat(a, b[..|b| - 1]);
    }
  }

  lemma {:induction false} SizeSumConcat(a: seq<Record>, b: seq<Record>)
    ensures SizeSum(a + b) == SizeSum(a) + SizeSum(b)
    decreases |b|
  {
    if b == [] {
      assert a + b == a;
    } else {
      assert (a + b)[..|a + b| - 1] == a + b[..|b| - 1];
      SizeSumConcat(a, b[..|b| - 1]);
    }
  }

  lemma {:induction false} OnPathConcat(a: seq<Record>, b: seq<Record>, path: Path)
    ensures OnPath(a + b, path) == OnPath(a, path) + OnPath(b, path)
    decreases |b|
  {
    if b == [] {
      assert a + b == a;
    } else {
      assert (a + b)[..|a + b| - 1] == a + b[..|b| - 1];
      OnPathConcat(a, b[..|b| - 1], path);
    }
  }

  lemma {:induction false} SizeSumAtLeast(records: seq<Record>)
    requires Positive(records)
    ensures SizeSum(records) >= |records|
  {
    if records != [] {
      var init := records[..|records| - 1];
      assert forall r <- init :: r in records;
      SizeSumAtLeast(init);
      assert records[|records| - 1] in records;
    }
  }

  lemma {:induction false} MapSumAtLeast(m: map<nat, int>)
    requires forall k :: k in m ==> m[k] >= 1
    ensures MapSum(m) >= |m|
    decreases |m|
  {
    if m != map[] {
      var k :| k in m;
      MapSumRemove(m, k);
      MapSumAtLeast(m - {k});
      assert |m - {k}| == |m| - 1 by { assert (m - {k}).Keys == m.Keys - {k}; }
    }
  }

  /** The head of a queue splits off. */
  lemma HeadSplits(queue: seq<Item>)
    requires queue != []
    ensures Records(queue) == (if queue[0].Entry? then [queue[0].record] else []) + Records(queue[1..])
  {
    assert queue == [queue[0]] + queue[1..];
    RecordsConcat([queue[0]], queue[1..]);
    assert Records([queue[0]]) == if queue[0].Entry? then [queue[0].record] else [] by {
      assert [queue[0]][..0] == [];
    }
  }

  // ----- The accounting invariant -----

  ghost predicate Accounting(s: State) {
    && s.maxBytes >= 1 && s.maxRecords >= 1
    && s.bytes == Outstanding(s)
    && SizesPositive(s)
    && (s.bytes <= s.maxBytes || OutstandingCount(s) == 1)
    && s.unfinished == |s.queue| + |s.writer.Batch()|
    && |s.queue| <= s.maxRecords
  }

  lemma PendingMoved(producers: map<nat, Producer>, p: nat, producer: Producer)
    ensures var before, after := Pending(producers), Pending(producers[p := producer]);
            after == if producer.Holds() then before[p := producer.record.size] else before - {p}
  {
  }

  lemma SumWithout(m: map<nat, int>, p: nat)
    ensures MapSum(m - {p}) == MapSum(m) - if p in m then m[p] else 0
    ensures |m - {p}| == |m| - if p in m then 1 else 0
  {
    if p in m {
      MapSumRemove(m, p);
      assert (m - {p}).Keys == m.Keys - {p};
    } else {
      assert m - {p} == m;
    }
  }

  lemma SumWith(m: map<nat, int>, p: nat, size: int)
    ensures MapSum(m[p := size]) == MapSum(m) + size - if p in m then m[p] else 0
    ensures |m[p := size]| == |m| + if p in m then 0 else 1
  {
    MapSumUpdate(m, p, size);
    assert m[p := size].Keys == m.Keys + {p};
  }

  /** Bytes counted are at least the number of records they belong to. */
  lemma CountWithinBytes(s: State)
    requires SizesPositive(s)
    ensures OutstandingCount(s) <= Outstanding(s)
  {
    MapSumAtLeast(Pending(s.producers));
    SizeSumAtLeast(Records(s.queue));
    SizeSumAtLeast(s.writer.Batch());
  }

  /** How an event changes what is outstanding: `(sum, count)` added by it. */
  ghost function Change(s: State, e: Event): (int, int)
    requires Enabled(s, e)
  {
    match e
    case TryReserve(p) => if CanReserve(s, s.producers[p].record.size) then (s.producers[p].record.size, 1) else (0, 0)
    case ReserveBlocking(p) => (s.producers[p].record.size, 1)
    case FailToStart(p) => (0 - s.producers[p].record.size, -1)
    case ReleaseOne => if s.writer.batch == [] then (0, 0) else (0 - s.writer.batch[0].size, -1)
    case _ => (0, 0)
  }

  ghost predicate ChangeHolds(s: State, e: Event)
    requires Enabled(s, e)
  {
    && Outstanding(Apply(s, e)) == Outstanding(s) + Change(s, e).0
    && OutstandingCount(Apply(s, e)) == OutstandingCount(s) + Change(s, e).1
  }

  /** A producer that moves takes what it holds along. */
  lemma MoveChange(s: State, p: nat, producer: Producer)
    ensures var t := Moved(s, p, producer); var was := p in s.producers && s.producers[p].Holds();
            && Outstanding(t) == Outstanding(s) - (if was then s.producers[p].record.size else 0) +
                (if producer.Holds() then producer.record.size else 0)
            && OutstandingCount(t) == OutstandingCount(s) - (if was then 1 else 0) + (if producer.Holds() then 1 else 0)
  {
    var before := Pending(s.producers);
    PendingMoved(s.producers, p, producer);
    if producer.Holds() {
      SumWith(before, p, producer.record.size);
    } else {
      SumWithout(before, p);
    }
  }

  lemma PutRecords(queue: seq<Item>, item: Item)
    ensures Records(queue + [item]) == Records(queue) + if item.Entry? then [item.record] else []
    ensures SizeSum(Records(queue + [item])) == SizeSum(Records(queue)) + if item.Entry? then item.record.size else 0
  {
    assert (queue + [item])[..|queue|] == queue;
    if item.Entry? {
      assert (Records(queue) + [item.record])[..|Records(queue)|] == Records(queue);
    } else {
      assert Records(queue) + [] == Records(queue);
    }
  }

  /** Putting a record moves its bytes from the producer to the queue. */
  lemma QueuedChange(s: State, p: nat)
    requires p in s.producers && s.producers[p].Holds()
    ensures var t := Queued(s, p, s.producers[p].record);
            Outstanding(t) == Outstanding(s) && OutstandingCount(t) == OutstandingCount(s)
  {
    MoveChange(s, p, Finished(s.producers[p].record, true));
    PutRecords(s.queue, Entry(s.producers[p].record));
  }

  /** Counting the bytes of a record and holding it. */
  lemma ReserveChange(s: State, p: nat, r: Record)
    requires p in s.producers && !s.producers[p].Holds()
    ensures var t := Moved(s.(bytes := s.bytes + r.size), p, Reserved(r));
            Outstanding(t) == Outstanding(s) + r.size && OutstandingCount(t) == OutstandingCount(s) + 1
  {
    MoveChange(s.(bytes := s.bytes + r.size), p, Reserved(r));
  }

  lemma TryReserveChange(s: State, p: nat)
    requires Enabled(s, TryReserve(p))
    ensures ChangeHolds(s, TryReserve(p))
  {
    if CanReserve(s, s.producers[p].record.size) {
      ReserveChange(s, p, s.producers[p].record);
    } else {
      MoveChange(s, p, Waiting(s.producers[p].record));
    }
  }

  lemma PutChange(s: State, p: nat)
    requires Enabled(s, Put(p))
    ensures ChangeHolds(s, Put(p))
  {
    if |s.queue| < s.maxRecords {
      QueuedChange(s, p);
    } else {
      MoveChange(s, p, Blocked(s.producers[p].record));
    }
  }

  lemma FailChange(s: State, p: nat)
    requires Enabled(s, FailToStart(p))
    ensures ChangeHolds(s, FailToStart(p))
  {
    var r := s.producers[p].record;
    MoveChange(s.(bytes := Released(s.bytes, r.size)), p, Finished(r, false));
  }

  lemma PutBlockingChange(s: State, p: nat)
    requires Enabled(s, PutBlocking(p))
    ensures ChangeHolds(s, PutBlocking(p))
  {
    QueuedChange(s, p);
    assert Apply(s, PutBlocking(p)) == Queued(s, p, s.producers[p].record);
  }

  lemma ReserveBlockingChange(s: State, p: nat)
    requires Enabled(s, ReserveBlocking(p))
    ensures ChangeHolds(s, ReserveBlocking(p))
  {
    ReserveChange(s, p, s.producers[p].record);
  }

  lemma ArriveChange(s: State, e: Event)
    requires Enabled(s, e) && e.Arrive?
    ensures ChangeHolds(s, e)
  {
    MoveChange(s, e.p, if e.diskPressure then Finished(e.record, false) else Arriving(e.record));
  }

  lemma ProducerChange(s: State, e: Event)
    requires Enabled(s, e) && ByProducer(e)
    ensures ChangeHolds(s, e)
  {
    match e
    case Arrive(_, _, _) => ArriveChange(s, e);
    case TryReserve(p) => TryReserveChange(s, p);
    case Put(p) => PutChange(s, p);
    case FailToStart(p) => FailChange(s, p);
    case RestartWriter(_) =>
    case PutBlocking(p) => PutBlockingChange(s, p);
    case ReserveBlocking(p) => ReserveBlockingChange(s, p);
  }

  /** The batch once the head of the queue has been taken. */
  function WithHead(batch: seq<Record>, head: Item): seq<Record> {
    if head.Entry? then batch + [head.record] else batch
  }

  lemma RecordMoves(records: seq<Record>, rest: seq<Record>, batch: seq<Record>, r: Record)
    requires records == [r] + rest
    ensures SizeSum(records) + SizeSum(batch) == SizeSum(rest) + SizeSum(batch + [r])
    ensures |records| + |batch| == |rest| + |batch + [r]|
  {
    SizeSumConcat([r], rest);
    SizeSumConcat(batch, [r]);
  }

  /** Taking the head of the queue into the batch moves its size along. */
  lemma HeadMoves(queue: seq<Item>, rest: seq<Item>, batch: seq<Record>)
    requires queue != [] && rest == queue[1..]
    ensures SizeSum(Records(queue)) + SizeSum(batch) == SizeSum(Records(rest)) + SizeSum(WithHead(batch, queue[0]))
    ensures |Records(queue)| + |batch| == |Records(rest)| + |WithHead(batch, queue[0])|
  {
    HeadSplits(queue);
    if queue[0].Entry? {
      RecordMoves(Records(queue), Records(rest), batch, queue[0].record);
    } else {
      assert [] + Records(rest) == Records(rest);
    }
  }

  lemma BatchShrinks(batch: seq<Record>)
    requires batch != []
    ensures SizeSum(batch) == batch[0].size + SizeSum(batch[1..])
  {
    assert batch == [batch[0]] + batch[1..];
    SizeSumConcat([batch[0]], batch[1..]);
    assert SizeSum([batch[0]]) == batch[0].size by { assert [batch[0]][..0] == []; }
  }

  lemma TakeChange(s: State, batch: seq<Record>, onStop: Writer)
    requires s.queue != [] && s.writer.Batch() == batch && onStop.Batch() == batch
    ensures var t := Take(s, batch, onStop);
            Outstanding(t) == Outstanding(s) && OutstandingCount(t) == OutstandingCount(s)
  {
    var t := Take(s, batch, onStop);
    TakeIs(s, batch, onStop);
    HeadMoves(s.queue, t.queue, batch);
    SameSumsSameOutstanding(s, t);
  }

  lemma TakeIs(s: State, batch: seq<Record>, onStop: Writer)
    requires s.queue != [] && onStop.Batch() == batch
    ensures var t := Take(s, batch, onStop);
            t.producers == s.producers && t.queue == s.queue[1..] && t.writer.Batch() == WithHead(batch, s.queue[0])
  {
  }

  /** Only the producers and the sums over queue and batch matter. */
  lemma SameSumsSameOutstanding(s: State, t: State)
    requires t.producers == s.producers
    requires SizeSum(Records(t.queue)) + SizeSum(t.writer.Batch()) ==
             SizeSum(Records(s.queue)) + SizeSum(s.writer.Batch())
    requires |Records(t.queue)| + |t.writer.Batch()| == |Records(s.queue)| + |s.writer.Batch()|
    ensures Outstanding(t) == Outstanding(s) && OutstandingCount(t) == OutstandingCount(s)
  {
  }

  lemma WriterChange(s: State, e: Event)
    requires Enabled(s, e) && !ByProducer(e)
    ensures ChangeHolds(s, e)
  {
    if e.PutStop? {
      PutRecords(s.queue, StopMark);
    } else if e.Get? {
      TakeChange(s, [], Stopped);
    } else if e.GetMore? && s.queue != [] {
      TakeChange(s, s.writer.batch, Writing(s.writer.batch, true));
    } else if e.ReleaseOne? && s.writer.batch != [] {
      BatchShrinks(s.writer.batch);
    }
  }

  lemma StepChange(s: State, e: Event)
    requires Enabled(s, e)
    ensures ChangeHolds(s, e)
  {
    if ByProducer(e) {
      ProducerChange(s, e);
    } else {
      WriterChange(s, e);
    }
  }

  lemma ProducerPositive(s: State, e: Event)
    requires SizesPositive(s) && Enabled(s, e) && ByProducer(e)
    ensures SizesPositive(Apply(s, e))
  {
    var s' := Apply(s, e);
    assert ProducersPositive(s'.producers);
    if e.PutBlocking? || (e.Put? && |s.queue| < s.maxRecords) {
      PutRecords(s.queue, Entry(s.producers[e.p].record));
    }
  }

  lemma WriterPositive(s: State, e: Event)
    requires SizesPositive(s) && Enabled(s, e) && !ByProducer(e)
    ensures SizesPositive(Apply(s, e))
  {
    if e.PutStop? {
      PutRecords(s.queue, StopMark);
    } else if (e.Get? || e.GetMore?) && s.queue != [] {
      HeadSplits(s.queue);
    }
  }

  lemma PositiveStep(s: State, e: Event)
    requires SizesPositive(s) && Enabled(s, e)
    ensures SizesPositive(Apply(s, e))
  {
    if ByProducer(e) {
      ProducerPositive(s, e);
    } else {
      WriterPositive(s, e);
    }
  }

  /** What a step takes away was counted. */
  lemma ChangeWithinBytes(s: State, e: Event)
    requires Accounting(s) && Enabled(s, e)
    ensures s.bytes + Change(s, e).0 >= 0
  {
    StepChange(s, e);
    PositiveStep(s, e);
    CountWithinBytes(Apply(s, e));
  }

  /** Where there was enough to take away, the counter changes by just that. */
  lemma BytesFollow(s: State, e: Event)
    requires Enabled(s, e) && s.bytes + Change(s, e).0 >= 0
    ensures Apply(s, e).bytes == s.bytes + Change(s, e).0
  {
  }

  /** The releases that a step performs never reach the clamp. */
  lemma NoClamp(s: State, e: Event)
    requires Accounting(s) && Enabled(s, e)
    ensures e.FailToStart? ==> s.producers[e.p].record.size <= s.bytes
    ensures e.ReleaseOne? && s.writer.batch != [] ==> s.writer.batch[0].size <= s.bytes && 0 < s.unfinished
    ensures Apply(s, e).bytes == s.bytes + Change(s, e).0
  {
    ChangeWithinBytes(s, e);
    BytesFollow(s, e);
  }

  /** The bounds on the queue and the `task_done` count. */
  lemma CountersStep(s: State, e: Event)
    requires s.unfinished == |s.queue| + |s.writer.Batch()| && |s.queue| <= s.maxRecords && Enabled(s, e)
    ensures var t := Apply(s, e); t.unfinished == |t.queue| + |t.writer.Batch()| && |t.queue| <= t.maxRecords
  {
  }

  lemma AccountingStep(s: State, e: Event)
    requires Accounting(s) && Enabled(s, e)
    ensures Accounting(Apply(s, e))
  {
    StepChange(s, e);
    PositiveStep(s, e);
    NoClamp(s, e);
    CountersStep(s, e);
    CountWithinBytes(s);
    CountWithinBytes(Apply(s, e));
  }

  // ----- Order -----

  /** `a` is `b` with some records left out. */
  ghost predicate Within(a: seq<Record>, b: seq<Record>) {
    a == [] || (b != [] && ((a[|a| - 1] == b[|b| - 1] && Within(a[..|a| - 1], b[..|b| - 1])) ||
        Within(a, b[..|b| - 1])))
  }

  lemma {:induction false} WithinExtends(a: seq<Record>, b: seq<Record>, c: seq<Record>)
    requires Within(a, b)
    ensures Within(a, b + c) && Within(a + c, b + c)
    decreases |c|
  {
    if c == [] {
      assert b + c == b && a + c == a;
    } else {
      var init := c[..|c| - 1];
      WithinExtends(a, b, init);
      assert (b + c)[..|b + c| - 1] == b + init && (a + c)[..|a + c| - 1] == a + init;
    }
  }

  /** The queue is first in, first out. */
  ghost predicate Fifo(s: State) {
    && s.enqueued == s.handed + Records(s.queue)
    && s.handed == s.processed + s.writer.Unwritten()
  }

  /** A file holds, in order, records that the writer processed; all of them unless a group of
      that path was dropped. */
  ghost predicate FileOk(files: map<Path, seq<Record>>, processed: seq<Record>, lost: set<Path>, path: Path) {
    && Within(FileOf(files, path), OnPath(processed, path))
    && (path !in lost ==> FileOf(files, path) == OnPath(processed, path))
  }

  ghost predicate Ordered(s: State) {
    Fifo(s) && forall path :: FileOk(s.files, s.processed, s.lost, path)
  }

  lemma {:induction false} OnPathOutside(batch: seq<Record>, path: Path)
    requires path !in Paths(batch)
    ensures OnPath(batch, path) == []
  {
    if batch != [] {
      var init := batch[..|batch| - 1];
      assert forall r <- init :: r in batch;
      assert batch[|batch| - 1] in batch;
      OnPathOutside(init, path);
    }
  }

  lemma AppendFile(files: map<Path, seq<Record>>, processed: seq<Record>, lost: set<Path>, batch: seq<Record>,
                   written: set<Path>, path: Path)
    requires FileOk(files, processed, lost, path)
    ensures FileOk(Appended(files, batch, written), processed + batch, lost + (Paths(batch) - written), path)
  {
    OnPathConcat(processed, batch, path);
    WithinExtends(FileOf(files, path), OnPath(processed, path), OnPath(batch, path));
    if path !in Paths(batch) {
      OnPathOutside(batch, path);
    }
    var after := FileOf(Appended(files, batch, written), path);
    assert after == FileOf(files, path) + if path in written then OnPath(batch, path) else [];
    if path !in written {
      assert after == FileOf(files, path);
    }
  }

  lemma ProducerFifo(s: State, e: Event)
    requires Fifo(s) && Enabled(s, e) && ByProducer(e)
    ensures Fifo(Apply(s, e))
  {
    if e.PutBlocking? || (e.Put? && |s.queue| < s.maxRecords) {
      var r := s.producers[e.p].record;
      PutRecords(s.queue, Entry(r));
      assert s.handed + Records(s.queue) + [r] == s.handed + (Records(s.queue) + [r]);
    }
  }

  lemma TakeFifo(s: State, batch: seq<Record>, onStop: Writer)
    requires Fifo(s) && s.queue != [] && s.writer.Unwritten() == batch && onStop.Unwritten() == batch
    ensures Fifo(Take(s, batch, onStop))
  {
    HeadSplits(s.queue);
    if s.queue[0].Entry? {
      var r := s.queue[0].record;
      assert s.handed + ([r] + Records(s.queue[1..])) == s.handed + [r] + Records(s.queue[1..]);
      assert s.processed + batch + [r] == s.processed + (batch + [r]);
    } else {
      assert [] + Records(s.queue[1..]) == Records(s.queue[1..]);
    }
  }

  lemma WriterFifo(s: State, e: Event)
    requires Fifo(s) && Enabled(s, e) && !ByProducer(e)
    ensures Fifo(Apply(s, e))
  {
    if e.PutStop? {
      PutRecords(s.queue, StopMark);
    } else if e.Get? {
      TakeFifo(s, [], Stopped);
    } else if e.GetMore? && s.queue != [] {
      TakeFifo(s, s.writer.batch, Writing(s.writer.batch, true));
    }
  }

  lemma OrderedStep(s: State, e: Event)
    requires Ordered(s) && Enabled(s, e)
    ensures Ordered(Apply(s, e))
  {
    if ByProducer(e) {
      ProducerFifo(s, e);
    } else {
      WriterFifo(s, e);
    }
    var s' := Apply(s, e);
    forall path ensures FileOk(s'.files, s'.processed, s'.lost, path) {
      assert FileOk(s.files, s.processed, s.lost, path);
      if e.Append? {
        AppendFile(s.files, s.processed, s.lost, s.writer.batch, e.written, path);
      }
    }
  }

  lemma {:induction false} RunKeeps(s: State, events: seq<Event>, t: State)
    requires Accounting(s) && Ordered(s) && Runs(s, events, t)
    ensures Accounting(t) && Ordered(t)
    decreases |events|
  {
    if events != [] {
      AccountingStep(s, events[0]);
      OrderedStep(s, events[0]);
      RunKeeps(Apply(s, events[0]), events[1..], t);
    }
  }

  lemma ReachableInv(s: State)
    requires Reachable(s)
    ensures Accounting(s) && Ordered(s)
  {
    var s0, events :| Initial(s0) && Runs(s0, events, s);
    assert Pending(s0.producers) == map[];
    RunKeeps(s0, events, s);
  }

  // ----- Theorems -----

  /** The byte counter is the summed size of the reserved and unreleased records, and exceeds
      the budget only while a single oversize record is outstanding. */
  lemma ByteBudget(s: State)
    requires Reachable(s)
    ensures s.bytes == Outstanding(s)
    ensures s.bytes > s.maxBytes ==> OutstandingCount(s) == 1
    ensures s.bytes == 0 <==> OutstandingCount(s) == 0
  {
    ReachableInv(s);
    CountWithinBytes(s);
    if OutstandingCount(s) == 0 {
      assert Pending(s.producers) == map[] && Records(s.queue) == [] && s.writer.Batch() == [];
    }
  }

  /** The clamp in the release never takes effect, and `task_done` never over-counts. */
  lemma ClampNeverTruncates(s: State, e: Event)
    requires Reachable(s) && Enabled(s, e)
    ensures Apply(s, e).bytes == s.bytes + Change(s, e).0
    ensures Apply(s, e).unfinished == |Apply(s, e).queue| + |Apply(s, e).writer.Batch()|
  {
    ReachableInv(s);
    NoClamp(s, e);
    AccountingStep(s, e);
  }

  /** Records of each path reach the writer in the order they were put, and reach the file in
      that order too; `join` returning means that nothing is queued or in hand. */
  lemma FirstInFirstOut(s: State, path: Path)
    requires Reachable(s)
    ensures OnPath(s.enqueued, path) == OnPath(s.handed, path) + OnPath(Records(s.queue), path)
    ensures Within(FileOf(s.files, path), OnPath(s.processed, path))
    ensures s.unfinished == 0 ==> s.queue == [] && s.writer.Batch() == [] && s.processed == s.enqueued
    ensures s.unfinished == 0 && path !in s.lost ==> FileOf(s.files, path) == OnPath(s.enqueued, path)
  {
    ReachableInv(s);
    assert FileOk(s.files, s.processed, s.lost, path);
    OnPathConcat(s.handed, Records(s.queue), path);
  }

  // ----- Progress -----

  /** The writer's next step, when it has one. */
  function WriterStep(s: State): Event {
    match s.writer
    case Idle => Get
    case Gathering(_) => GetMore
    case Writing(batch, _) => Append(Paths(batch))
    case Releasing(_, _) => ReleaseOne
    case Stopped => Get
  }

  /** A step that somebody else can take while producer `p` is blocked. */
  lemma HelpForBlocked(s: State, p: nat) returns (e: Event)
    requires Reachable(s) && !s.writer.Stopped?
    requires p in s.producers
    requires || (s.producers[p].Waiting? && !CanReserve(s, s.producers[p].record.size))
             || (s.producers[p].Blocked? && |s.queue| >= s.maxRecords)
    ensures Enabled(s, e) && !e.Arrive? && !e.PutStop?
    ensures ByProducer(e) ==> e.p != p
  {
    ReachableInv(s);
    CountWithinBytes(s);
    if !s.writer.Idle? || s.queue != [] {
      e := WriterStep(s);
    } else {
      ByteBudget(s);
      assert Records(s.queue) == [] && s.writer.Batch() == [];
      assert Pending(s.producers) != map[];
      var q :| q in Pending(s.producers);
      e := if s.producers[q].Reserved? then Put(q) else PutBlocking(q);
    }
  }

  /** Steps that take no new input. */
  predicate Internal(e: Event) {
    !e.Arrive? && !e.PutStop? && !e.RestartWriter? && !e.FailToStart?
  }

  /** No stop request is pending. */
  ghost predicate Running(s: State) {
    && StopMark !in s.queue && !s.writer.Stopped?
    && (s.writer.Writing? || s.writer.Releasing? ==> !s.writer.stop)
  }

  ghost predicate Quiescent(s: State) {
    && s.queue == [] && s.writer.Idle? && s.bytes == 0
    && forall p :: p in s.producers ==> s.producers[p].Finished?
  }

  function ProducerWork(p: Producer): int {
    match p
    case Arriving(_) => 10
    case Waiting(_) => 9
    case Reserved(_) => 8
    case Blocked(_) => 7
    case Finished(_, _) => 0
  }

  function WriterWork(w: Writer): int {
    match w
    case Idle => 0
    case Gathering(batch) => 4 + |batch|
    case Writing(batch, _) => 3 + |batch|
    case Releasing(batch, _) => 2 + |batch|
    case Stopped => 1
  }

  ghost function Loads(producers: map<nat, Producer>): map<nat, int> {
    map p | p in producers :: ProducerWork(producers[p])
  }

  ghost function Work(s: State): int {
    MapSum(Loads(s.producers)) + 6 * |s.queue| + WriterWork(s.writer)
  }

  lemma {:induction false} WorkNonNegative(m: map<nat, int>)
    requires forall k :: k in m ==> m[k] >= 0
    ensures MapSum(m) >= 0
    decreases |m|
  {
    if m != map[] {
      var k :| k in m;
      MapSumRemove(m, k);
      WorkNonNegative(m - {k});
    }
  }

  lemma ProducerWorks(s: State, p: nat, producer: Producer)
    requires p in s.producers
    ensures MapSum(Loads(s.producers[p := producer])) ==
              MapSum(Loads(s.producers)) - ProducerWork(s.producers[p]) + ProducerWork(producer)
  {
    MapSumUpdate(Loads(s.producers), p, ProducerWork(producer));
    assert Loads(s.producers[p := producer]) == Loads(s.producers)[p := ProducerWork(producer)];
  }

  lemma WriterWorks(s: State, e: Event)
    requires Enabled(s, e) && !ByProducer(e) && Internal(e)
    ensures 6 * |Apply(s, e).queue| + WriterWork(Apply(s, e).writer) < 6 * |s.queue| + WriterWork(s.writer)
    ensures Apply(s, e).producers == s.producers
  {
  }

  /** Every internal step uses up work. */
  lemma InternalStepWorks(s: State, e: Event)
    requires Enabled(s, e) && Internal(e)
    ensures Work(Apply(s, e)) < Work(s)
  {
    if ByProducer(e) {
      ProducerWorks(s, e.p, Apply(s, e).producers[e.p]);
    } else {
      WriterWorks(s, e);
    }
  }

  /** A running system that is not quiescent can always take an internal step. */
  lemma InternalStepExists(s: State) returns (e: Event)
    requires Accounting(s) && Running(s) && !Quiescent(s)
    ensures Enabled(s, e) && Internal(e)
  {
    CountWithinBytes(s);
    if !s.writer.Idle? || s.queue != [] {
      e := WriterStep(s);
    } else if p :| p in s.producers && s.producers[p].Holds() {
      e := if s.producers[p].Reserved? then Put(p) else PutBlocking(p);
    } else {
      assert Pending(s.producers) == map[];
      var p :| p in s.producers && !s.producers[p].Finished?;
      e := if s.producers[p].Arriving? then TryReserve(p) else ReserveBlocking(p);
    }
  }

  lemma RunningStep(s: State, e: Event)
    requires Running(s) && Enabled(s, e) && Internal(e)
    ensures Running(Apply(s, e))
  {
  }

  lemma WorkIsNatural(s: State)
    ensures Work(s) >= 0
  {
    WorkNonNegative(Loads(s.producers));
  }

  /** One step towards quiescence. */
  lemma DrainStep(s: State) returns (e: Event, s': State)
    requires Accounting(s) && Running(s) && !Quiescent(s)
    ensures Enabled(s, e) && Internal(e) && s' == Apply(s, e)
    ensures Accounting(s') && Running(s') && 0 <= Work(s') < Work(s)
  {
    e := InternalStepExists(s);
    s' := Apply(s, e);
    InternalStepWorks(s, e);
    AccountingStep(s, e);
    RunningStep(s, e);
    WorkIsNatural(s');
  }

  /** Left alone, the system drains: within `Work(s)` internal steps every producer has
      finished, the queue is empty and every byte has been released. */
  lemma {:induction false} Drains(s: State) returns (events: seq<Event>, t: State)
    requires Accounting(s) && Running(s)
    ensures Runs(s, events, t) && Quiescent(t) && |events| <= Work(s)
    ensures forall e <- events :: Internal(e)
    decreases Work(s)
  {
    WorkIsNatural(s);
    if Quiescent(s) {
      events, t := [], s;
    } else {
      var e, s' := DrainStep(s);
      var rest;
      rest, t := Drains(s');
      events := [e] + rest;
      assert events[1..] == rest;
    }
  }

  /** No internal run is longer than the work there is, so a run that keeps taking enabled
      steps ends, and by `InternalStepExists` it ends quiescent. */
  lemma {:induction false} InternalRunsEnd(s: State, events: seq<Event>, t: State)
    requires Accounting(s) && Running(s) && Runs(s, events, t) && forall e <- events :: Internal(e)
    ensures |events| + Work(t) <= Work(s) && Accounting(t) && Running(t)
    decreases |events|
  {
    WorkIsNatural(t);
    if events != [] {
      var e := events[0];
      AccountingStep(s, e);
      RunningStep(s, e);
      InternalStepWorks(s, e);
      assert forall f <- events[1..] :: f in events;
      InternalRunsEnd(Apply(s, e), events[1..], t);
    }
  }

  /** From every reachable state with a running writer the archive can drain. */
  lemma ReachableDrains(s: State) returns (events: seq<Event>, t: State)
    requires Reachable(s) && Running(s)
    ensures Runs(s, events, t) && Quiescent(t) && |events| <= Work(s)
    ensures forall e <- events :: Internal(e)
  {
    ReachableInv(s);
    events, t := Drains(s);
  }

  // ----- What the files hold -----

  /** The step is an append that had a record of the path in hand and did not write it. */
  ghost predicate DropsGroup(s: State, e: Event, path: Path)
    requires Enabled(s, e)
  {
    e.Append? && path !in e.written && exists r :: r in s.writer.batch && r.path == path
  }

  /** Some append of the run dropped records of the path. */
  ghost predicate Drops(s: State, events: seq<Event>, path: Path)
    decreases |events|
  {
    events != [] && Enabled(s, events[0]) &&
    (DropsGroup(s, events[0], path) || Drops(Apply(s, events[0]), events[1..], path))
  }

  /** What the step writes to the path. */
  function WrittenNow(s: State, e: Event, path: Path): seq<Record>
    requires Enabled(s, e)
  {
    if e.Append? && path in e.written then OnPath(s.writer.batch, path) else []
  }

  /** What the appends of the run wrote to the path, append by append. */
  ghost function Written(s: State, events: seq<Event>, path: Path): seq<Record>
    decreases |events|
  {
    if events == [] || !Enabled(s, events[0]) then []
    else WrittenNow(s, events[0], path) + Written(Apply(s, events[0]), events[1..], path)
  }

  lemma LostStep(s: State, e: Event, path: Path)
    requires Enabled(s, e)
    ensures path in Apply(s, e).lost <==> path in s.lost || DropsGroup(s, e, path)
  {
  }

  lemma FileStep(s: State, e: Event, path: Path)
    requires Enabled(s, e)
    ensures FileOf(Apply(s, e).files, path) == FileOf(s.files, path) + WrittenNow(s, e, path)
  {
    if !e.Append? {
      assert FileOf(s.files, path) + [] == FileOf(s.files, path);
    }
  }

  /** Along every run a file is extended by exactly what its appends wrote, and a path counts as
      lost exactly when one of them had a record of it in hand and did not write it. */
  lemma {:induction false} FilesAreWhatWasWritten(s: State, events: seq<Event>, t: State, path: Path)
    requires Runs(s, events, t)
    ensures FileOf(t.files, path) == FileOf(s.files, path) + Written(s, events, path)
    ensures path in t.lost <==> path in s.lost || Drops(s, events, path)
    decreases |events|
  {
    if events == [] {
      assert FileOf(s.files, path) + [] == FileOf(s.files, path);
    } else {
      FileStep(s, events[0], path);
      LostStep(s, events[0], path);
      FilesAreWhatWasWritten(Apply(s, events[0]), events[1..], t, path);
      Assoc(FileOf(s.files, path), WrittenNow(s, events[0], path), Written(Apply(s, events[0]), events[1..], path));
    }
  }

  lemma Assoc(a: seq<Record>, b: seq<Record>, c: seq<Record>)
    ensures a + b + c == a + (b + c)
  {
  }

  /** Every append of the run writes all that it has in hand. */
  ghost predicate WritesAll(s: State, events: seq<Event>)
    decreases |events|
  {
    events != [] && Enabled(s, events[0]) ==>
      && (events[0].Append? ==> events[0].written == Paths(s.writer.batch))
      && WritesAll(Apply(s, events[0]), events[1..])
  }

  lemma {:induction false} WritesAllDropsNothing(s: State, events: seq<Event>, path: Path)
    requires WritesAll(s, events)
    ensures !Drops(s, events, path)
    decreases |events|
  {
    if events != [] && Enabled(s, events[0]) {
      WritesAllDropsNothing(Apply(s, events[0]), events[1..], path);
    }
  }

  /** When `join` returns, a file holds exactly the records put for it, in that order, unless an append
      dropped some of them; never, if every append wrote what it had in hand. */
  lemma FlushedIsWritten(s0: State, events: seq<Event>, t: State, path: Path)
    requires Initial(s0) && Runs(s0, events, t) && t.unfinished == 0
    ensures !Drops(s0, events, path) ==> FileOf(t.files, path) == OnPath(t.enqueued, path)
    ensures WritesAll(s0, events) ==> FileOf(t.files, path) == OnPath(t.enqueued, path)
  {
    FilesAreWhatWasWritten(s0, events, t, path);
    FirstInFirstOut(t, path);
    if WritesAll(s0, events) {
      WritesAllDropsNothing(s0, events, path);
    }
  }

  // ----- What becomes of a producer's record -----

  /** Who put what: each producer at most once, and those that ended `queued` exactly. */
  ghost predicate Owned(s: State) {
    && |s.putBy| == |s.enqueued|
    && (forall i, j :: 0 <= i < j < |s.putBy| ==> s.putBy[i] != s.putBy[j])
    && (forall i :: 0 <= i < |s.putBy| ==> PutIt(s, i))
    && (forall p :: p in s.producers && s.producers[p].Finished? && s.producers[p].queued ==> p in s.putBy)
  }

  ghost predicate PutIt(s: State, i: nat)
    requires i < |s.putBy| && i < |s.enqueued|
  {
    s.putBy[i] in s.producers && s.producers[s.putBy[i]] == Finished(s.enqueued[i], true)
  }

  lemma PutOwned(s: State, p: nat)
    requires Owned(s) && p in s.producers && !s.producers[p].Finished?
    ensures Owned(Queued(s, p, s.producers[p].record))
  {
    var t := Queued(s, p, s.producers[p].record);
    assert p !in s.putBy by {
      forall i | 0 <= i < |s.putBy| ensures s.putBy[i] != p {
        assert PutIt(s, i);
      }
    }
    forall i | 0 <= i < |t.putBy| ensures PutIt(t, i) {
      assert i < |s.putBy| ==> PutIt(s, i) && t.putBy[i] == s.putBy[i];
    }
    forall q | q in t.producers && t.producers[q].Finished? && t.producers[q].queued ensures q in t.putBy {
      assert t.putBy[|s.putBy|] == p;
      assert q != p ==> q in s.putBy;
    }
  }

  /** A step that puts nothing and moves at most one unfinished producer, not to `queued`. */
  lemma OthersOwned(s: State, t: State, p: nat)
    requires Owned(s) && t.putBy == s.putBy && t.enqueued == s.enqueued
    requires t.producers == s.producers ||
             (p in t.producers && t.producers == s.producers[p := t.producers[p]] &&
              (p in s.producers ==> !s.producers[p].Finished?) &&
              !(t.producers[p].Finished? && t.producers[p].queued))
    ensures Owned(t)
  {
    forall i | 0 <= i < |t.putBy| ensures PutIt(t, i) {
      assert PutIt(s, i);
    }
  }

  lemma OwnedStep(s: State, e: Event)
    requires Owned(s) && Enabled(s, e)
    ensures Owned(Apply(s, e))
  {
    if e.PutBlocking? || (e.Put? && |s.queue| < s.maxRecords) {
      PutOwned(s, e.p);
    } else {
      OthersOwned(s, Apply(s, e), if ByProducer(e) then e.p else 0);
    }
  }

  /** The step turns the record of `p` away: disk pressure on arrival, or no writer thread. */
  predicate TurnsAway(e: Event, p: nat) {
    (e.Arrive? && e.p == p && e.diskPressure) || (e.FailToStart? && e.p == p)
  }

  ghost predicate TurnedAway(events: seq<Event>, p: nat) {
    exists e :: e in events && TurnsAway(e, p)
  }

  predicate EndedOutside(s: State, p: nat) {
    p in s.producers && s.producers[p].Finished? && !s.producers[p].queued
  }

  lemma OutsideStep(s: State, e: Event, p: nat)
    requires Enabled(s, e)
    ensures EndedOutside(Apply(s, e), p) <==> EndedOutside(s, p) || TurnsAway(e, p)
    ensures p in s.producers ==> p in Apply(s, e).producers &&
                                 Apply(s, e).producers[p].record == s.producers[p].record
  {
  }

  lemma {:induction false} RecordsRun(s: State, events: seq<Event>, t: State, p: nat)
    requires Owned(s) && Runs(s, events, t)
    ensures Owned(t)
    ensures EndedOutside(t, p) <==> EndedOutside(s, p) || TurnedAway(events, p)
    ensures p in s.producers ==> p in t.producers && t.producers[p].record == s.producers[p].record
    decreases |events|
  {
    if events != [] {
      var e, rest := events[0], events[1..];
      OwnedStep(s, e);
      OutsideStep(s, e, p);
      RecordsRun(Apply(s, e), rest, t, p);
      assert events == [e] + rest;
      assert TurnedAway(events, p) <==> TurnsAway(e, p) || TurnedAway(rest, p);
    }
  }

  /** What became of a producer that has finished: it ended `queued` exactly when it stands in
      the put history, once and with its own record; and otherwise exactly when it was turned
      away, by disk pressure when it arrived or because no writer could be started. */
  lemma RecordIsPutOrTurnedAway(s0: State, events: seq<Event>, t: State, p: nat)
    requires Initial(s0) && Runs(s0, events, t) && p in t.producers && t.producers[p].Finished?
    ensures t.producers[p].queued <==> !TurnedAway(events, p)
    ensures t.producers[p].queued <==> exists i :: 0 <= i < |t.putBy| && t.putBy[i] == p
    ensures |t.putBy| == |t.enqueued|
    ensures forall i :: 0 <= i < |t.putBy| && t.putBy[i] == p ==>
                          && t.enqueued[i] == t.producers[p].record
                          && forall j :: 0 <= j < |t.putBy| && t.putBy[j] == p ==> j == i
  {
    RecordsRun(s0, events, t, p);
    forall i | 0 <= i < |t.putBy| && t.putBy[i] == p ensures t.producers[p] == Finished(t.enqueued[i], true) {
      assert PutIt(t, i);
    }
  }

  /** The record of a producer is the one it arrived with. */
  lemma RecordIsKept(s: State, p: nat, r: Record, diskPressure: bool, events: seq<Event>, t: State)
    requires Enabled(s, Arrive(p, r, diskPressure)) && Runs(Apply(s, Arrive(p, r, diskPressure)), events, t) && Owned(s)
    ensures p in t.producers && t.producers[p].record == r
  {
    OwnedStep(s, Arrive(p, r, diskPressure));
    RecordsRun(Apply(s, Arrive(p, r, diskPressure)), events, t, p);
  }

  /** Once the system has drained by itself, every record that was still on its way has been put
      and, if the appends wrote what they had in hand, all that was put is in the files. */
  lemma DrainedIsPut(s0: State, before: seq<Event>, s: State, events: seq<Event>, t: State, p: nat, path: Path)
    requires Initial(s0) && Runs(s0, before, s) && Runs(s, events, t) && Quiescent(t)
    requires forall e <- events :: Internal(e)
    ensures p in s.producers && !s.producers[p].Finished? ==>
              p in t.producers && t.producers[p] == Finished(s.producers[p].record, true)
    ensures t.processed == t.enqueued
    ensures WritesAll(s0, before) && WritesAll(s, events) ==> FileOf(t.files, path) == OnPath(t.enqueued, path)
  {
    RecordsRun(s0, before, s, p);
    RecordsRun(s, events, t, p);
    RunsConcat(s0, before, s, events, t);
    FirstInFirstOut(t, path);
    assert t.unfinished == 0 by {
      ReachableInv(t);
    }
    FilesAreWhatWasWritten(s0, before, s, path);
    FilesAreWhatWasWritten(s, events, t, path);
    if WritesAll(s0, before) && WritesAll(s, events) {
      WritesAllDropsNothing(s0, before, path);
      WritesAllDropsNothing(s, events, path);
    }
  }

  lemma {:induction false} RunsConcat(s: State, before: seq<Event>, m: State, after: seq<Event>, t: State)
    requires Runs(s, before, m) && Runs(m, after, t)
    ensures Runs(s, before + after, t)
    decreases |before|
  {
    if before == [] {
      assert before + after == after;
    } else {
      RunsConcat(Apply(s, before[0]), before[1..], m, after, t);
      assert (before + after)[1..] == before[1..] + after;
    }
  }

  // ----- When a step succeeds -----

  /** A reservation succeeds at once exactly within the budget, or for an oversize record when
      nothing is reserved; then its bytes are counted, and otherwise nothing changes but that the
      producer waits. */
  lemma ReservesIff(s: State, p: nat)
    requires Enabled(s, TryReserve(p))
    ensures var r, t := s.producers[p].record, Apply(s, TryReserve(p));
            if s.bytes + r.size <= s.maxBytes || (s.bytes == 0 && r.size > s.maxBytes)
            then t == s.(bytes := s.bytes + r.size, producers := s.producers[p := Reserved(r)])
            else t == s.(producers := s.producers[p := Waiting(r)])
  {
  }

  /** A put succeeds at once exactly when the queue has room; the record then stands last. */
  lemma PutsIff(s: State, p: nat)
    requires Enabled(s, Put(p))
    ensures var r, t := s.producers[p].record, Apply(s, Put(p));
            if |s.queue| < s.maxRecords
            then t.queue == s.queue + [Entry(r)] && t.producers == s.producers[p := Finished(r, true)]
            else t == s.(producers := s.producers[p := Blocked(r)])
  {
  }

  /** The writer goes on gathering exactly while it finds records, and remembers a stop mark. */
  lemma BatchEndsIff(s: State)
    requires s.writer.Gathering?
    ensures var batch, w := s.writer.batch, Apply(s, GetMore).writer;
            if s.queue == [] then w == Writing(batch, false)
            else if s.queue[0] == StopMark then w == Writing(batch, true)
            else w == Gathering(batch + [s.queue[0].record])
  {
  }

  /** Stop marks in the queue. */
  function Marks(queue: seq<Item>): nat {
    if queue == [] then 0 else (if queue[0].StopMark? then 1 else 0) + Marks(queue[1..])
  }

  /** One while a stop request that was taken from the queue is being carried out or in effect. */
  function Stopping(w: Writer): nat {
    if w.Stopped? || ((w.Writing? || w.Releasing?) && w.stop) then 1 else 0
  }

  function CountStops(events: seq<Event>): nat {
    if events == [] then 0 else (if events[0].PutStop? then 1 else 0) + CountStops(events[1..])
  }

  function CountRestarts(events: seq<Event>): nat {
    if events == [] then 0 else (if events[0].RestartWriter? then 1 else 0) + CountRestarts(events[1..])
  }

  lemma {:induction false} MarksSnoc(queue: seq<Item>, item: Item)
    ensures Marks(queue + [item]) == Marks(queue) + if item.StopMark? then 1 else 0
    decreases |queue|
  {
    if queue == [] {
      assert queue + [item] == [item] && [item][1..] == [];
    } else {
      assert (queue + [item])[1..] == queue[1..] + [item];
      MarksSnoc(queue[1..], item);
    }
  }

  lemma StopStep(s: State, e: Event)
    requires Enabled(s, e)
    ensures Marks(Apply(s, e).queue) + Stopping(Apply(s, e).writer) + CountRestarts([e]) ==
            Marks(s.queue) + Stopping(s.writer) + CountStops([e])
  {
    assert [e][1..] == [];
    if e.PutStop? {
      MarksSnoc(s.queue, StopMark);
    } else if e.PutBlocking? || (e.Put? && |s.queue| < s.maxRecords) {
      MarksSnoc(s.queue, Entry(s.producers[e.p].record));
    }
  }

  /** Every stop request stops the writer once: what was put is still queued, is being carried out,
      or the writer has been restarted since. */
  lemma {:induction false} StopsAreConserved(s: State, events: seq<Event>, t: State)
    requires Runs(s, events, t)
    ensures Marks(t.queue) + Stopping(t.writer) + CountRestarts(events) ==
            Marks(s.queue) + Stopping(s.writer) + CountStops(events)
    decreases |events|
  {
    if events != [] {
      StopStep(s, events[0]);
      StopsAreConserved(Apply(s, events[0]), events[1..], t);
      assert [events[0]][1..] == [];
    }
  }

  // ----- Grouping -----

  /** The grouping loop of `_append_records`. */
  method GroupByPath(items: seq<Record>) returns (grouped: map<Path, seq<Record>>)
    ensures grouped.Keys == Paths(items)
    ensures forall path :: path in grouped ==> grouped[path] == OnPath(items, path)
  {
    grouped := map[];
    for n := 0 to |items|
      invariant grouped.Keys == Paths(items[..n])
      invariant forall path :: path in grouped ==> grouped[path] == OnPath(items[..n], path)
    {
      var r := items[n];
      assert items[..n + 1] == items[..n] + [r];
      assert items[..n + 1][..n] == items[..n];
      if r.path !in grouped {
        OnPathOutside(items[..n], r.path);
        grouped := grouped[r.path := []];
      }
      grouped := grouped[r.path := grouped[r.path] + [r]];
    }
    assert items[..|items|] == items;
  }
}
