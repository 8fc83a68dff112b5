/** A queue table in the hands of its worker: the answers to sample requests, taken in
    order, are what was inserted. */
module ServedQueue {

  import opened Status
  import opened Selector
  import opened TableSpec
  import opened BoundedBuffers
  import W = TableWorker

  function KeysOf(handed: seq<Handed>): seq<Key> {
    seq(|handed|, i requires 0 <= i < |handed| => handed[i].item.key)
  }

  lemma HandedByKeys(t: Table, op: Op, t': Table)
    requires TableInv(t) && Step(t, op, t')
    ensures KeysOf(HandedBy(t, op)) == if op.Sample? then [op.key] else []
  {
  }

  lemma KeysConcat(a: seq<Handed>, b: seq<Handed>)
    ensures KeysOf(a + b) == KeysOf(a) + KeysOf(b)
  {
  }

  /** The keys that a path sampled are those of the items that it handed out. */
  lemma {:induction false} HandedKeys(trace: seq<Table>, ops: seq<Op>)
    requires IsPath(trace, ops)
    ensures KeysOf(HandedOut(trace, ops)) == SampledKeys(ops, |ops|)
    decreases |ops|
  {
    if ops != [] {
      var n := |ops| - 1;
      PathPrefix(trace, ops);
      HandedKeys(trace[..n + 1], ops[..n]);
      SampledPrefix(ops, n, n);
      LastHandedKeys(trace, ops);
      KeysConcat(HandedOut(trace[..n + 1], ops[..n]), HandedBy(trace[n], ops[n]));
    }
  }

  lemma LastHandedKeys(trace: seq<Table>, ops: seq<Op>)
    requires IsPath(trace, ops) && ops != []
    ensures var n := |ops| - 1;
      KeysOf(HandedBy(trace[n], ops[n])) == if ops[n].Sample? then [ops[n].key] else []
  {
    var n := |ops| - 1;
    RunKeepsInv(trace, ops, n);
    RunStep(trace, ops, n + 1);
    HandedByKeys(trace[n], ops[n], trace[n + 1]);
  }

  lemma PathPrefix(trace: seq<Table>, ops: seq<Op>)
    requires IsPath(trace, ops) && ops != []
    ensures IsPath(trace[..|ops|], ops[..|ops| - 1])
  {
    var trace', ops' := trace[..|ops|], ops[..|ops| - 1];
    forall i | 0 <= i < |ops'|
      ensures StepAt(trace', ops', i)
    {
      assert StepAt(trace, ops, i);
      SameStepAt(trace, ops, trace', ops', i);
    }
  }

  lemma {:induction false} SampledPrefix(ops: seq<Op>, n: nat, m: nat)
    requires n <= m < |ops|
    ensures SampledKeys(ops[..m], n) == SampledKeys(ops, n)
  {
    if n > 0 {
      SampledPrefix(ops, n - 1, m);
    }
  }

  /** On every run of a worker over a queue table, the inserted keys are the keys of
      the samples in the answers (and in the request at the cursor), in order, followed
      by what the table still holds. */
  lemma AnswersAreTheQueue(thread: W.WorkerThread, size: nat)
    requires thread.Valid() && !thread.finished
    requires IsBufferRun(thread.path.trace, thread.path.ops, size, Fifo([]))
    ensures !thread.table.contents.sampler.Ranked?
    ensures InsertedKeys(thread.path.trace, thread.path.ops, |thread.path.ops|) ==
      KeysOf(W.Drawn(thread.w)) + Contents(thread.table.contents)
    ensures |Contents(thread.table.contents)| <= size
  {
    var p := thread.path;
    QueueRefinement(p.trace, p.ops, size, |p.ops|);
    HandedKeys(p.trace, p.ops);
  }
}
