/** The batching consumer of CloudWatch metrics (cloudwatch/metric_producer.go). */
module Metrics {

  const OBSOLETE_COUNT_THRESHOLD := 200
  const OBSOLETE_TIMEOUT := 4_000_000_000
  const BUFFER_SIZE := 400
  const BATCH_TIMEOUT := 2_000_000_000
  const BATCH_SEND_SIZE := 20

  /** A metric with its time stamp in nanoseconds. */
  datatype Datum = Datum(name: string, timestamp: int)

  /** What comes out of the channel: a metric, or something of another type. */
  datatype Item = Metric(datum: Datum) | Other

  // ----- sending -----

  function Concat(batches: seq<seq<Datum>>): seq<Datum> {
    if batches == [] then [] else Concat(batches[..|batches| - 1]) + batches[|batches| - 1]
  }

  lemma ConcatSnoc(batches: seq<seq<Datum>>, batch: seq<Datum>)
    ensures Concat(batches + [batch]) == Concat(batches) + batch
  {
    assert (batches + [batch])[..|batches|] == batches;
  }

  lemma {:induction false} ConcatAppend(a: seq<seq<Datum>>, b: seq<seq<Datum>>)
    ensures Concat(a + b) == Concat(a) + Concat(b)
  {
    if b == [] {
      assert a + b == a;
    } else {
      var n := |b| - 1;
      ConcatAppend(a, b[..n]);
      assert (a + b)[..|a| + n] == a + b[..n];
      assert Concat(a) + (Concat(b[..n]) + b[n]) == (Concat(a) + Concat(b[..n])) + b[n];
    }
  }

  /** Every batch is one PutMetricData request the service accepts. */
  ghost predicate Sendable(batches: seq<seq<Datum>>) {
    forall b <- batches :: 1 <= |b| <= BATCH_SEND_SIZE
  }

  /** The batches are an initial part of the metrics, and all but a final short one are full. */
  ghost predicate Chunked(batches: seq<seq<Datum>>, datums: seq<Datum>) {
    && Sendable(batches)
    && Concat(batches) <= datums
    && (forall k :: 0 <= k < |batches| - 1 ==> |batches[k]| == BATCH_SEND_SIZE)
    && (batches != [] && Concat(batches) != datums ==> |batches[|batches| - 1]| == BATCH_SEND_SIZE)
  }

  lemma NextChunk(batches: seq<seq<Datum>>, datums: seq<Datum>, end: nat)
    requires Chunked(batches, datums)
    requires var n := |Concat(batches)|;
             && n < |datums|
             && end == if n + BATCH_SEND_SIZE > |datums| then |datums| else n + BATCH_SEND_SIZE
    ensures var n := |Concat(batches)|; var more := batches + [datums[n..end]];
            Chunked(more, datums) && Concat(more) == datums[..end]
  {
    hide Concat;
    var n := |Concat(batches)|;
    ConcatSnoc(batches, datums[n..end]);
    assert Concat(batches) == datums[..n];
    assert datums[..n] + datums[n..end] == datums[..end];
  }

  /** batchSendMetricData: consecutive chunks of twenty, the last one shorter. */
  method BatchSend(datums: seq<Datum>) returns (batches: seq<seq<Datum>>)
    ensures Concat(batches) == datums && Sendable(batches)
    ensures forall i :: 0 <= i < |batches| - 1 ==> |batches[i]| == BATCH_SEND_SIZE
    ensures forall b <- batches :: 1 <= |b| <= 20
  {
    hide Concat;
    batches := [];
    ConcatEmpty();
    var i := 0;
    while i * BATCH_SEND_SIZE < |datums|
      invariant Chunked(batches, datums)
      invariant |Concat(batches)| == if i * BATCH_SEND_SIZE <= |datums| then i * BATCH_SEND_SIZE else |datums|
      decreases |datums| - i * BATCH_SEND_SIZE
    {
      var endIndex := (i + 1) * BATCH_SEND_SIZE;
      if endIndex > |datums| {
        endIndex := |datums|;
      }
      NextChunk(batches, datums, endIndex);
      batches := batches + [datums[i * BATCH_SEND_SIZE..endIndex]];
      i := i + 1;
    }
  }

  lemma ConcatEmpty()
    ensures Concat([]) == []
  {
  }

  // ----- consuming -----

  predicate Obsolete(d: Datum, now: int) {
    now - d.timestamp > OBSOLETE_TIMEOUT
  }

  predicate TimedOut(d: Datum, start: int) {
    d.timestamp - start > BATCH_TIMEOUT
  }

  /** One metric taken from the channel, and whether it was obsolete at that moment. */
  datatype Taken = Taken(datum: Datum, obsolete: bool)

  function Kept(log: seq<Taken>): seq<Datum> {
    if log == [] then [] else
    Kept(log[..|log| - 1]) + (if log[|log| - 1].obsolete then [] else [log[|log| - 1].datum])
  }

  lemma KeptSnoc(log: seq<Taken>, entry: Taken)
    ensures Kept(log + [entry]) == if entry.obsolete then Kept(log) else Kept(log) + [entry.datum]
  {
    assert (log + [entry])[..|log|] == log;
  }

  function Dropped(log: seq<Taken>): seq<Datum> {
    if log == [] then [] else
    Dropped(log[..|log| - 1]) + (if log[|log| - 1].obsolete then [log[|log| - 1].datum] else [])
  }

  function Metrics(log: seq<Taken>): seq<Datum> {
    if log == [] then [] else Metrics(log[..|log| - 1]) + [log[|log| - 1].datum]
  }

  /** Every metric taken is kept or dropped, once. */
  lemma {:induction false} KeptOrDropped(log: seq<Taken>)
    ensures multiset(Metrics(log)) == multiset(Kept(log)) + multiset(Dropped(log))
  {
    if log != [] {
      KeptOrDropped(log[..|log| - 1]);
    }
  }

  class Consumer {
    var buffer: seq<Datum>
    var obsoleteCount: nat
    var bufferStart: int

    /** Ghost history: the metrics taken and the batches sent. */
    ghost var log: seq<Taken>
    ghost var sent: seq<seq<Datum>>

    /**
     Conservation: the batches sent, followed by the buffer, are exactly the metrics that were
     taken and not obsolete, in order; the buffer is never full and every batch is sendable.
     */
    ghost predicate Valid()
      reads this
    {
      && |buffer| < BUFFER_SIZE && obsoleteCount < OBSOLETE_COUNT_THRESHOLD
      && Sendable(sent)
      && Concat(sent) + buffer == Kept(log)
    }

    /** So every metric taken is dropped as obsolete, buffered, or in a batch, each exactly once. */
    lemma EveryMetricAccountedFor()
      requires Valid()
      ensures |buffer| < 400 && forall b <- sent :: 1 <= |b| <= 20
      ensures multiset(Metrics(log)) == multiset(Concat(sent)) + multiset(buffer) + multiset(Dropped(log))
    {
      KeptOrDropped(log);
    }

    constructor (now: int)
      ensures Valid() && log == [] && sent == [] && buffer == [] && bufferStart == now
    {
      buffer, obsoleteCount, bufferStart := [], 0, now;
      log, sent := [], [];
    }

    /** One round of the consumer loop of Initialize. */
    method Consume(item: Item, now: int)
      requires Valid()
      modifies this
      ensures Valid()
      ensures item.Other? ==>
        && log == old(log) && sent == old(sent) && buffer == old(buffer) && bufferStart == old(bufferStart)
        && obsoleteCount == old(obsoleteCount)
      ensures item.Metric? ==> log == old(log) + [Taken(item.datum, now - item.datum.timestamp > 4_000_000_000)]
      ensures old(sent) <= sent
      ensures item.Metric? ==>
        var obsolete := now - item.datum.timestamp > 4_000_000_000;
        obsoleteCount == if obsolete && old(obsoleteCount) < 199 then old(obsoleteCount) + 1 else 0
      ensures item.Metric? ==>
        var obsolete := now - item.datum.timestamp > 4_000_000_000;
        var full := if obsolete then old(buffer) else old(buffer) + [item.datum];
        var flush := (item.datum.timestamp - old(bufferStart) > 2_000_000_000 && full != []) || |full| >= 400;
        && buffer == (if flush then [] else full)
        && bufferStart == (if flush then item.datum.timestamp else old(bufferStart))
        && (flush <==> sent != old(sent))
        && Concat(sent) == (if flush then old(Concat(sent)) + full else old(Concat(sent)))
    {
      hide Concat, Kept;
      if item.Other? {
        return;
      }
      var datum := item.datum;
      ghost var entry := Taken(datum, Obsolete(datum, now));
      KeptSnoc(log, entry);
      if Obsolete(datum, now) {
        obsoleteCount := obsoleteCount + 1;
        if obsoleteCount >= OBSOLETE_COUNT_THRESHOLD {
          obsoleteCount := 0;
        }
      } else {
        assert Concat(sent) + (buffer + [datum]) == (Concat(sent) + buffer) + [datum];
        buffer := buffer + [datum];
        obsoleteCount := 0;
      }
      log := log + [entry];
      if (TimedOut(datum, bufferStart) && |buffer| > 0) || |buffer| >= BUFFER_SIZE {
        var batches := BatchSend(buffer);
        Flush(batches);
        bufferStart := datum.timestamp;
      }
    }

    /** The buffer has gone out in batches. */
    method Flush(ghost batches: seq<seq<Datum>>)
      requires buffer != [] && Concat(batches) == buffer && Sendable(batches) && Sendable(sent)
      modifies `buffer, `sent
      ensures buffer == [] && sent == old(sent) + batches && sent != old(sent) && Sendable(sent)
      ensures Concat(sent) == old(Concat(sent)) + old(buffer)
      ensures Concat(sent) + buffer == old(Concat(sent) + buffer)
    {
      ConcatAppend(sent, batches);
      assert batches != [];
      sent := sent + batches;
      buffer := [];
      assert |sent| > |old(sent)|;
      assert Concat(sent) + [] == Concat(sent);
    }
  }
}
