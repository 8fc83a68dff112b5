/** Tables made by `Table.queue` and `Table.stack` behave as a bounded FIFO queue
    and a bounded stack. */
module BoundedBuffers {

  import opened Status
  import opened Selector
  import opened RateLimiter
  import opened TableSpec

  /** A table built by Table.queue or Table.stack, after any number of inserts of
      unsampled items and samples. Its contents are the keys of the sampler. */
  ghost predicate BufferInv(t: Table, size: nat) {
    && TableInv(t)
    && size >= 1
    && !t.sampler.Ranked? && t.remover == t.sampler
    && t.maxSize == size && t.maxTimesSampled == 1
    && t.limiter.config == QueueConfig(size)
    && t.limiter.samples == t.limiter.deletes
    && AllBelow(t.data, 1)
  }

  function Contents(t: Table): seq<Key>
    requires !t.sampler.Ranked?
  {
    t.sampler.keys
  }

  lemma EmptyBuffer(kind: Selector, size: nat)
    requires !kind.Ranked? && size >= 1
    ensures var t := Empty(kind, kind, size, 1, QueueConfig(size));
      BufferInv(t, size) && Contents(t) == [] && t.sampler.Fifo? == kind.Fifo?
  {
  }

  lemma BufferSize(t: Table, size: nat)
    requires BufferInv(t, size)
    ensures |Contents(t)| == |t.data| == t.limiter.inserts - t.limiter.samples
    ensures |Contents(t)| <= size
  {
    assert t.sampler.Keys() == t.data.Keys;
  }

  /** Inserts are permitted exactly while there is room, and samples exactly while
      there is something to sample. */
  lemma BufferGuards(t: Table, size: nat)
    requires BufferInv(t, size)
    ensures t.limiter.CanInsert(1) <==> |Contents(t)| < size
    ensures t.limiter.CanSample(1) <==> Contents(t) != []
  {
    BufferSize(t, size);
  }

  /** One step: a fresh key is put at the end (queue) or on top (stack), nothing is
      evicted, and a sample takes the first key away. */
  lemma BufferInsert(t: Table, size: nat, item: Item, now: nat, evicted: Key, t': Table)
    requires BufferInv(t, size) && item.timesSampled == 0
    requires Step(t, Insert(item, now, evicted), t')
    ensures BufferInv(t', size) && t'.sampler.Fifo? == t.sampler.Fifo?
    ensures Contents(t') ==
      if item.key in t.data then Contents(t)
      else if t.sampler.Fifo? then Contents(t) + [item.key]
      else [item.key] + Contents(t)
  {
    BufferGuards(t, size);
    BufferSize(t, size);
    InsertKeepsInv(t, item, now, evicted);
    InsertKeepsBelowMaxIff(t, item, now, evicted);
    if item.key !in t.data {
      assert t'.sampler == t.sampler.Insert(item.key, item.priority);
    }
  }

  lemma BufferSample(t: Table, size: nat, key: Key, t': Table)
    requires BufferInv(t, size) && Step(t, Sample(key), t')
    ensures BufferInv(t', size) && t'.sampler.Fifo? == t.sampler.Fifo?
    ensures Contents(t) != [] && key == Contents(t)[0] && Contents(t') == Contents(t)[1..]
  {
    SampleKeepsInv(t, key);
    SampleKeepsBelowMax(t, key);
    CountSampleKeepsInStep(t, key);
    assert t.data[key].timesSampled == 0;
    assert t'.sampler == t.sampler.Delete(key);
  }

  /** The keys that were fresh when they were inserted, in order. */
  ghost function InsertedKeys(trace: seq<Table>, ops: seq<Op>, n: nat): seq<Key>
    requires n <= |ops| < |trace|
  {
    if n == 0 then []
    else
      var before := InsertedKeys(trace, ops, n - 1);
      if ops[n - 1].Insert? && ops[n - 1].item.key !in trace[n - 1].data
      then before + [ops[n - 1].item.key] else before
  }

  ghost function SampledKeys(ops: seq<Op>, n: nat): seq<Key>
    requires n <= |ops|
  {
    if n == 0 then []
    else
      var before := SampledKeys(ops, n - 1);
      if ops[n - 1].Sample? then before + [ops[n - 1].key] else before
  }

  /** The stack that results from pushing fresh keys and popping on samples. */
  ghost function StackAfter(trace: seq<Table>, ops: seq<Op>, n: nat): seq<Key>
    requires n <= |ops| < |trace|
  {
    if n == 0 then []
    else
      var before := StackAfter(trace, ops, n - 1);
      if ops[n - 1].Insert? && ops[n - 1].item.key !in trace[n - 1].data then [ops[n - 1].item.key] + before
      else if ops[n - 1].Sample? && before != [] then before[1..]
      else before
  }

  /** A run of inserts of unsampled items and samples on a queue or stack table. */
  ghost predicate IsBufferRun(trace: seq<Table>, ops: seq<Op>, size: nat, kind: Selector) {
    && TableSpec.IsRun(trace, ops) && InsertsUnsampled(ops)
    && !kind.Ranked? && size >= 1
    && trace[0] == Empty(kind, kind, size, 1, QueueConfig(size))
    && forall i :: 0 <= i < |ops| ==> ops[i].Insert? || ops[i].Sample?
  }

  lemma BufferStep(trace: seq<Table>, ops: seq<Op>, size: nat, kind: Selector, n: nat)
    requires IsBufferRun(trace, ops, size, kind) && 0 < n < |trace|
    requires BufferInv(trace[n - 1], size)
    ensures BufferInv(trace[n], size) && trace[n].sampler.Fifo? == trace[n - 1].sampler.Fifo?
    ensures var op, before, after := ops[n - 1], Contents(trace[n - 1]), Contents(trace[n]);
      match op
      case Insert(item, _, _) =>
        after == if item.key in trace[n - 1].data then before
                 else if trace[n].sampler.Fifo? then before + [item.key] else [item.key] + before
      case Sample(key) => before != [] && key == before[0] && after == before[1..]
      case _ => false
  {
    assert StepAt(trace, ops, n - 1);
    match ops[n - 1]
    case Insert(item, now, evicted) => BufferInsert(trace[n - 1], size, item, now, evicted, trace[n]);
    case Sample(key) => BufferSample(trace[n - 1], size, key, trace[n]);
    case _ =>
  }

  /** Queue refinement, on every run: what was inserted is what was sampled
      followed by what is still there, in this order; and the queue is bounded. */
  lemma {:induction false} QueueRefinement(trace: seq<Table>, ops: seq<Op>, size: nat, n: nat)
    requires IsBufferRun(trace, ops, size, Fifo([])) && n < |trace|
    ensures BufferInv(trace[n], size) && trace[n].sampler.Fifo?
    ensures InsertedKeys(trace, ops, n) == SampledKeys(ops, n) + Contents(trace[n])
    ensures |Contents(trace[n])| <= size
  {
    if n > 0 {
      QueueRefinement(trace, ops, size, n - 1);
      BufferStep(trace, ops, size, Fifo([]), n);
    } else {
      EmptyBuffer(Fifo([]), size);
    }
    BufferSize(trace[n], size);
  }

  /** Stack refinement: the contents are those of a bounded stack. */
  lemma {:induction false} StackRefinement(trace: seq<Table>, ops: seq<Op>, size: nat, n: nat)
    requires IsBufferRun(trace, ops, size, Lifo([])) && n < |trace|
    ensures BufferInv(trace[n], size) && trace[n].sampler.Lifo?
    ensures Contents(trace[n]) == StackAfter(trace, ops, n)
    ensures |Contents(trace[n])| <= size
  {
    if n > 0 {
      StackRefinement(trace, ops, size, n - 1);
      BufferStep(trace, ops, size, Lifo([]), n);
    } else {
      EmptyBuffer(Lifo([]), size);
    }
    BufferSize(trace[n], size);
  }

  lemma StackSampleIsTop(trace: seq<Table>, ops: seq<Op>, size: nat, n: nat)
    requires IsBufferRun(trace, ops, size, Lifo([])) && n < |ops| && ops[n].Sample?
    ensures StackAfter(trace, ops, n) != [] && ops[n].key == StackAfter(trace, ops, n)[0]
  {
    StackRefinement(trace, ops, size, n);
    BufferStep(trace, ops, size, Lifo([]), n + 1);
  }
}
