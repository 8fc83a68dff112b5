/** The table worker: serves queued inserts and sample requests as the limiter
    permits, answers partly filled batches, and times requests out. */
module TableWorker {

  import opened Status
  import opened RateLimiter
  import opened TableSpec
  import T = Table

  const MAX_RESPONSE_BYTES: nat := 1024 * 1024

  /** A sample request; `wanted` is the reserved capacity of its sample vector. */
  datatype Request = Request(id: nat, wanted: nat, deadline: nat, samples: seq<T.SampledItem>)
  {
    /** The first sample grows a vector without reserved capacity to one. */
    function Limit(): nat {
      if wanted == 0 then 1 else wanted
    }
  }

  /** What a client asked for, which no step of the worker changes. */
  datatype Ticket = Ticket(id: nat, wanted: nat, deadline: nat)

  function TicketOf(r: Request): Ticket {
    Ticket(r.id, r.wanted, r.deadline)
  }

  datatype Answer = Answer(request: Request, status: Status)

  datatype InsertRequest = InsertRequest(id: nat, item: Item)

  /** Requests that were moved out of a vector leave `None` behind. */
  type Slot = Option<Request>

  datatype Worker = Worker(
    currentInserts: seq<InsertRequest>,
    insertIdx: nat,
    pendingInserts: seq<InsertRequest>,
    currentSampling: seq<Slot>,
    sampleIdx: nat,
    pendingSampling: seq<Slot>,
    rateLimited: bool,
    responseBytes: nat,
    progress: nat,
    lastProgress: nat,
    answers: seq<Answer>,       // sample callbacks handed to the executor
    notified: seq<nat>)         // insert callbacks handed to the executor

  // ---------------------------------------------------------------------
  // Conservation
  // ---------------------------------------------------------------------

  ghost function Has(s: Slot, ticket: Ticket): nat {
    if s.Some? && TicketOf(s.value) == ticket then 1 else 0
  }

  /** How often the request with this ticket is still held in a vector. */
  ghost function Live(slots: seq<Slot>, ticket: Ticket): nat {
    if slots == [] then 0 else Has(slots[0], ticket) + Live(slots[1..], ticket)
  }

  /** How often the request with this ticket has been answered. */
  ghost function Answered(answers: seq<Answer>, ticket: Ticket): nat {
    if answers == [] then 0 else (if TicketOf(answers[0].request) == ticket then 1 else 0) + Answered(answers[1..], ticket)
  }

  /** How often the worker knows the request with this ticket, answered or not. */
  ghost function Known(w: Worker, ticket: Ticket): nat {
    Answered(w.answers, ticket) + Live(w.currentSampling, ticket) + Live(w.pendingSampling, ticket)
  }

  /** No request was lost or duplicated. */
  ghost predicate Conserved(w: Worker, w': Worker) {
    forall ticket: Ticket {:trigger Known(w', ticket)} :: Known(w', ticket) == Known(w, ticket)
  }

  /** The tickets in a vector, in order. */
  ghost function Tickets(slots: seq<Slot>): seq<Ticket> {
    if slots == [] then []
    else (if slots[0].Some? then [TicketOf(slots[0].value)] else []) + Tickets(slots[1..])
  }

  function AnswerTickets(answers: seq<Answer>): seq<Ticket> {
    seq(|answers|, i requires 0 <= i < |answers| => TicketOf(answers[i].request))
  }

  /** The tickets of the requests in the order in which they were or will be answered,
      as long as none times out. */
  ghost function Line(w: Worker): seq<Ticket> {
    AnswerTickets(w.answers) + Tickets(w.currentSampling) + Tickets(w.pendingSampling)
  }

  ghost predicate SameLine(w: Worker, w': Worker) {
    Line(w') == Line(w)
  }

  function InsertIds(rs: seq<InsertRequest>): seq<nat> {
    seq(|rs|, i requires 0 <= i < |rs| => rs[i].id)
  }

  /** Inserts are confirmed in the order in which they were enqueued. */
  ghost function KnownInserts(w: Worker): seq<nat>
    requires w.insertIdx <= |w.currentInserts|
  {
    w.notified + InsertIds(w.currentInserts[w.insertIdx..]) + InsertIds(w.pendingInserts)
  }

  lemma {:induction false} LiveConcat(a: seq<Slot>, b: seq<Slot>, ticket: Ticket)
    ensures Live(a + b, ticket) == Live(a, ticket) + Live(b, ticket)
  {
    if a == [] {
      assert a + b == b;
    } else {
      assert (a + b)[1..] == a[1..] + b;
      LiveConcat(a[1..], b, ticket);
    }
  }

  lemma {:induction false} AnsweredConcat(a: seq<Answer>, b: seq<Answer>, ticket: Ticket)
    ensures Answered(a + b, ticket) == Answered(a, ticket) + Answered(b, ticket)
  {
    if a == [] {
      assert a + b == b;
    } else {
      assert (a + b)[1..] == a[1..] + b;
      AnsweredConcat(a[1..], b, ticket);
    }
  }

  lemma {:induction false} AnsweredSnoc(answers: seq<Answer>, a: Answer, ticket: Ticket)
    ensures Answered(answers + [a], ticket) == Answered(answers, ticket) + if TicketOf(a.request) == ticket then 1 else 0
  {
    AnsweredConcat(answers, [a], ticket);
    assert [a][1..] == [];
  }

  lemma {:induction false} LiveSnoc(slots: seq<Slot>, s: Slot, ticket: Ticket)
    ensures Live(slots + [s], ticket) == Live(slots, ticket) + Has(s, ticket)
  {
    LiveConcat(slots, [s], ticket);
    assert [s][1..] == [];
  }

  /** Replacing one slot changes the count by that slot only. */
  lemma {:induction false} LiveUpdate(slots: seq<Slot>, i: nat, s: Slot, ticket: Ticket)
    requires i < |slots|
    ensures Live(slots[i := s], ticket) == Live(slots, ticket) - Has(slots[i], ticket) + Has(s, ticket)
  {
    if i == 0 {
      assert slots[0 := s][1..] == slots[1..];
    } else {
      assert slots[i := s][1..] == slots[1..][i - 1 := s];
      LiveUpdate(slots[1..], i - 1, s, ticket);
    }
  }

  /** A slot that gets one more sample keeps its ticket. */
  lemma {:induction false} TicketsUpdate(slots: seq<Slot>, i: nat, s: Slot)
    requires i < |slots| && slots[i].Some? && s.Some? && TicketOf(s.value) == TicketOf(slots[i].value)
    ensures Tickets(slots[i := s]) == Tickets(slots)
  {
    if i == 0 {
      assert slots[0 := s][1..] == slots[1..];
    } else {
      assert slots[i := s][1..] == slots[1..][i - 1 := s];
      TicketsUpdate(slots[1..], i - 1, s);
    }
  }

  /** The first slot that was not moved out holds the first ticket. */
  lemma {:induction false} TicketsMoveOut(slots: seq<Slot>, i: nat)
    requires i < |slots| && slots[i].Some? && forall j :: 0 <= j < i ==> slots[j].None?
    ensures Tickets(slots) == [TicketOf(slots[i].value)] + Tickets(slots[i := None])
  {
    if i == 0 {
      assert slots[0 := None][1..] == slots[1..];
    } else {
      assert slots[i := None][1..] == slots[1..][i - 1 := None];
      TicketsMoveOut(slots[1..], i - 1);
    }
  }

  // ---------------------------------------------------------------------
  // Invariant
  // ---------------------------------------------------------------------

  ghost predicate UntouchedFrom(slots: seq<Slot>, from: nat) {
    forall i :: from <= i < |slots| && slots[i].Some? ==> slots[i].value.samples == []
  }

  /** The bytes in the chunks of the sampled items. */
  function Bytes(samples: seq<T.SampledItem>): nat {
    if samples == [] then 0 else Bytes(samples[..|samples| - 1]) + samples[|samples| - 1].item.size
  }

  lemma BytesSnoc(samples: seq<T.SampledItem>, s: T.SampledItem)
    ensures Bytes(samples + [s]) == Bytes(samples) + s.item.size
  {
    assert (samples + [s])[..|samples|] == samples;
  }

  /** A request that was served to the end: it has all the samples that were asked for, or
      as many as fit into a response. */
  predicate Filled(a: Answer) {
    var r := a.request;
    a.status == Ok && r.samples != [] && (|r.samples| == r.Limit() || Bytes(r.samples) >= MAX_RESPONSE_BYTES)
  }

  /** Serving adds only answers that are filled. */
  ghost predicate Fills(w: Worker, w': Worker) {
    w.answers <= w'.answers && forall i :: |w.answers| <= i < |w'.answers| ==> Filled(w'.answers[i])
  }

  lemma FillsFurther(a: Worker, b: Worker, c: Worker)
    requires Fills(a, b) && Fills(b, c)
    ensures Fills(a, c)
  {
    forall i | |a.answers| <= i < |c.answers| ensures Filled(c.answers[i]) {
      if i < |b.answers| {
        assert c.answers[i] == b.answers[i];
      }
    }
  }

  /** As long as the worker runs, an answer is OK if it holds samples, and a timeout if it
      holds none; there is no other. */
  predicate Plainly(a: Answer) {
    && (a.status == Ok <==> a.request.samples != [])
    && (a.status == RateLimiterTimeout <==> a.request.samples == [])
  }

  ghost predicate AllPlainly(answers: seq<Answer>) {
    forall i :: 0 <= i < |answers| ==> Plainly(answers[i])
  }

  lemma FilledArePlain(w: Worker, w': Worker)
    requires AllPlainly(w.answers) && Fills(w, w')
    ensures AllPlainly(w'.answers)
  {
    forall i | 0 <= i < |w'.answers| ensures Plainly(w'.answers[i]) {
      if i < |w.answers| {
        assert w'.answers[i] == w.answers[i];
      }
    }
  }

  /** An OK answer holds at least one sample and no more than asked for; a timeout
      holds none. */
  predicate GoodAnswer(a: Answer) {
    && |a.request.samples| <= a.request.Limit()
    && (a.status == Ok || a.status == RateLimiterTimeout || a.status == Cancelled)
    && (a.status == Ok ==> a.request.samples != [])
    && (a.status == RateLimiterTimeout ==> a.request.samples == [])
  }

  ghost predicate AllGood(answers: seq<Answer>) {
    forall i :: 0 <= i < |answers| ==> GoodAnswer(answers[i])
  }

  /** Everything before the cursor was moved out, and nothing behind it has been
      served yet. */
  ghost predicate Shape(w: Worker) {
    && w.insertIdx <= |w.currentInserts|
    && w.sampleIdx <= |w.currentSampling|
    && (forall i :: 0 <= i < w.sampleIdx ==> w.currentSampling[i].None?)
    && UntouchedFrom(w.currentSampling, w.sampleIdx + 1)
    && UntouchedFrom(w.pendingSampling, 0)
    && AllGood(w.answers)
  }

  /** Only the request at the cursor can be partly filled, and it can take more. */
  ghost predicate WorkerInv(w: Worker) {
    && Shape(w)
    && (AtRequest(w) ==> TakesMore(w, w.currentSampling[w.sampleIdx].value))
  }

  ghost predicate TakesMore(w: Worker, r: Request) {
    && |r.samples| < r.Limit()
    && (r.samples != [] ==> w.responseBytes == Bytes(r.samples) < MAX_RESPONSE_BYTES)
  }

  // ---------------------------------------------------------------------
  // Termination measure
  // ---------------------------------------------------------------------

  function Unfilled(s: Slot): nat {
    if s.Some? && |s.value.samples| < s.value.Limit() then s.value.Limit() - |s.value.samples| else 0
  }

  ghost function UnfilledFrom(slots: seq<Slot>, i: nat): nat
    decreases |slots| - i
  {
    if i >= |slots| then 0 else Unfilled(slots[i]) + UnfilledFrom(slots, i + 1)
  }

  /** Inserts not yet processed plus samples still to be drawn. */
  ghost function Work(w: Worker): nat
    requires w.insertIdx <= |w.currentInserts|
  {
    |w.currentInserts| - w.insertIdx + UnfilledFrom(w.currentSampling, w.sampleIdx)
  }

  lemma {:induction false} UnfilledBelow(slots: seq<Slot>, i: nat, j: nat, s: Slot)
    requires j < i && j < |slots|
    ensures UnfilledFrom(slots[j := s], i) == UnfilledFrom(slots, i)
    decreases |slots| - i
  {
    if i < |slots| {
      UnfilledBelow(slots, i + 1, j, s);
    }
  }

  // ---------------------------------------------------------------------
  // Steps
  // ---------------------------------------------------------------------

  predicate AtRequest(w: Worker) {
    w.sampleIdx < |w.currentSampling| && w.currentSampling[w.sampleIdx].Some?
  }

  /** If the cursor is on a slot, its request has not been moved out. */
  predicate Ready(w: Worker) {
    w.sampleIdx == |w.currentSampling| || AtRequest(w)
  }

  /** FinalizeSampleRequest for the request at the cursor. */
  function FinalizeCurrent(w: Worker, status: Status): Worker
    requires AtRequest(w)
  {
    var r := w.currentSampling[w.sampleIdx].value;
    w.(answers := w.answers + [Answer(r, status)],
       currentSampling := w.currentSampling[w.sampleIdx := None],
       sampleIdx := w.sampleIdx + 1)
  }

  lemma {:induction false} FinalizeKeepsInv(w: Worker, status: Status)
    requires Shape(w) && AtRequest(w)
    requires GoodAnswer(Answer(w.currentSampling[w.sampleIdx].value, status))
    ensures WorkerInv(FinalizeCurrent(w, status))
  {
  }

  lemma {:induction false} FinalizeKeepsKnown(w: Worker, status: Status)
    requires AtRequest(w)
    ensures Conserved(w, FinalizeCurrent(w, status))
  {
    var r := w.currentSampling[w.sampleIdx].value;
    var w' := FinalizeCurrent(w, status);
    forall ticket: Ticket
      ensures Known(w', ticket) == Known(w, ticket)
    {
      LiveUpdate(w.currentSampling, w.sampleIdx, None, ticket);
      AnsweredSnoc(w.answers, Answer(r, status), ticket);
    }
  }

  /** Requests are answered in the order of the line. */
  lemma FinalizeKeepsLine(w: Worker, status: Status)
    requires Shape(w) && AtRequest(w)
    ensures SameLine(w, FinalizeCurrent(w, status))
  {
    var r, w' := w.currentSampling[w.sampleIdx].value, FinalizeCurrent(w, status);
    TicketsMoveOut(w.currentSampling, w.sampleIdx);
    assert AnswerTickets(w'.answers) == AnswerTickets(w.answers) + [TicketOf(r)];
    Regroup(AnswerTickets(w.answers), TicketOf(r), Tickets(w'.currentSampling));
  }

  lemma AddSampleKeepsLine(w: Worker, s: T.SampledItem)
    requires AtRequest(w)
    ensures SameLine(w, AddSample(w, s))
  {
    var r := w.currentSampling[w.sampleIdx].value;
    TicketsUpdate(w.currentSampling, w.sampleIdx, Some(r.(samples := r.samples + [s])));
  }

  lemma {:induction false} FinalizeLeavesWork(w: Worker, status: Status)
    requires AtRequest(w) && w.insertIdx <= |w.currentInserts|
    ensures Work(FinalizeCurrent(w, status)) + Unfilled(w.currentSampling[w.sampleIdx]) == Work(w)
  {
    UnfilledBelow(w.currentSampling, w.sampleIdx + 1, w.sampleIdx, None);
  }

  /** One more sample for the request at the cursor. */
  function AddSample(w: Worker, s: T.SampledItem): Worker
    requires AtRequest(w)
  {
    var r := w.currentSampling[w.sampleIdx].value;
    w.(progress := w.progress + 1,
       responseBytes := (if r.samples == [] then 0 else w.responseBytes) + s.item.size,
       currentSampling := w.currentSampling[w.sampleIdx := Some(r.(samples := r.samples + [s]))])
  }

  /** AddSample followed by FinalizeCurrent when the batch is full or too large. */
  function Sampled(w: Worker, s: T.SampledItem): Worker
    requires AtRequest(w)
  {
    var w1 := AddSample(w, s);
    var r := w1.currentSampling[w1.sampleIdx].value;
    if r.Limit() == |r.samples| || w1.responseBytes >= MAX_RESPONSE_BYTES
    then FinalizeCurrent(w1, Ok) else w1
  }

  lemma {:induction false} SampledKeeps(w: Worker, s: T.SampledItem)
    requires WorkerInv(w) && AtRequest(w)
    ensures WorkerInv(Sampled(w, s))
    ensures Conserved(w, Sampled(w, s)) && SameLine(w, Sampled(w, s)) && Fills(w, Sampled(w, s))
    ensures Work(Sampled(w, s)) < Work(w)
    ensures Sampled(w, s).progress == w.progress + 1
  {
    var w1 := AddSample(w, s);
    AddSampleKeeps(w, s);
    FinalizeKeepsInv(w1, Ok);
    FinalizeKeepsKnown(w1, Ok);
    FinalizeLeavesWork(w1, Ok);
    AddSampleKeepsLine(w, s);
    FinalizeKeepsLine(w1, Ok);
  }

  lemma {:induction false} AddSampleKeeps(w: Worker, s: T.SampledItem)
    requires WorkerInv(w) && AtRequest(w)
    ensures Shape(AddSample(w, s)) && AtRequest(AddSample(w, s))
    ensures Conserved(w, AddSample(w, s))
    ensures Work(AddSample(w, s)) == Work(w) - 1
    ensures var r := AddSample(w, s).currentSampling[w.sampleIdx].value;
      GoodAnswer(Answer(r, Ok)) && r.samples != [] && AddSample(w, s).responseBytes == Bytes(r.samples)
  {
    BytesSnoc(w.currentSampling[w.sampleIdx].value.samples, s);
    AddSampleConserves(w, s);
    AddSampleTakesWork(w, s);
  }

  lemma AddSampleConserves(w: Worker, s: T.SampledItem)
    requires AtRequest(w)
    ensures Conserved(w, AddSample(w, s))
  {
    var w' := AddSample(w, s);
    forall ticket: Ticket
      ensures Known(w', ticket) == Known(w, ticket)
    {
      LiveUpdate(w.currentSampling, w.sampleIdx, w'.currentSampling[w.sampleIdx], ticket);
    }
  }

  lemma AddSampleTakesWork(w: Worker, s: T.SampledItem)
    requires WorkerInv(w) && AtRequest(w)
    ensures Work(AddSample(w, s)) == Work(w) - 1
  {
    UnfilledBelow(w.currentSampling, w.sampleIdx + 1, w.sampleIdx, AddSample(w, s).currentSampling[w.sampleIdx]);
  }

  /** One insert was handed to the table. */
  function Inserted(w: Worker): Worker
    requires w.insertIdx < |w.currentInserts|
  {
    w.(notified := w.notified + [w.currentInserts[w.insertIdx].id],
       insertIdx := w.insertIdx + 1,
       progress := w.progress + 1)
  }

  lemma {:induction false} InsertedKeeps(w: Worker)
    requires WorkerInv(w) && w.insertIdx < |w.currentInserts|
    ensures WorkerInv(Inserted(w)) && Conserved(w, Inserted(w))
    ensures KnownInserts(Inserted(w)) == KnownInserts(w)
    ensures Work(Inserted(w)) == Work(w) - 1
  {
    var rest := w.currentInserts[w.insertIdx..];
    assert rest == [rest[0]] + w.currentInserts[w.insertIdx + 1..];
    assert InsertIds(rest) == [rest[0].id] + InsertIds(w.currentInserts[w.insertIdx + 1..]);
  }

  /** Inserts never change while samples are served. */
  ghost predicate SameInserts(w: Worker, w': Worker) {
    && w'.lastProgress == w.lastProgress
    && w'.currentInserts == w.currentInserts && w'.insertIdx == w.insertIdx
    && w'.pendingInserts == w.pendingInserts && w'.notified == w.notified
  }

  // ---------------------------------------------------------------------
  // What the worker does to the table
  // ---------------------------------------------------------------------

  function Plain(samples: seq<T.SampledItem>): seq<Handed> {
    seq(|samples|, i requires 0 <= i < |samples| => Handed(samples[i].item, samples[i].tableSize))
  }

  /** The samples in the answers, in order. */
  function SamplesOf(answers: seq<Answer>): seq<Handed> {
    if answers == [] then []
    else
      var n := |answers| - 1;
      SamplesOf(answers[..n]) + Plain(answers[n].request.samples)
  }

  /** The samples of the request at the cursor, the only one that can have any. */
  function AtCursor(w: Worker): seq<Handed> {
    if AtRequest(w) then Plain(w.currentSampling[w.sampleIdx].value.samples) else []
  }

  function Drawn(w: Worker): seq<Handed> {
    SamplesOf(w.answers) + AtCursor(w)
  }

  function ItemsIn(rs: seq<InsertRequest>): seq<Item> {
    seq(|rs|, i requires 0 <= i < |rs| => rs[i].item)
  }

  /** The items that went to the table, followed by those that wait. */
  ghost function KnownItems(w: Worker, p: Path): seq<Item>
    requires w.insertIdx <= |w.currentInserts|
  {
    InsertsOf(p.ops) + ItemsIn(w.currentInserts[w.insertIdx..]) + ItemsIn(w.pendingInserts)
  }

  /** The samples held by the worker are exactly those that the table handed out, in
      order; and the table received the enqueued items, in order. */
  ghost predicate Tied(w: Worker, p: Path, items: seq<Item>) {
    && |p.trace| == |p.ops| + 1 && w.insertIdx <= |w.currentInserts|
    && Drawn(w) == HandedOut(p.trace, p.ops)
    && KnownItems(w, p) == items
  }

  lemma SamplesSnoc(answers: seq<Answer>, a: Answer)
    ensures SamplesOf(answers + [a]) == SamplesOf(answers) + Plain(a.request.samples)
  {
    assert (answers + [a])[..|answers|] == answers;
  }

  lemma FinalizeKeepsDrawn(w: Worker, status: Status)
    requires Shape(w) && AtRequest(w)
    ensures Drawn(FinalizeCurrent(w, status)) == Drawn(w)
  {
    var r, w' := w.currentSampling[w.sampleIdx].value, FinalizeCurrent(w, status);
    SamplesSnoc(w.answers, Answer(r, status));
    assert AtCursor(w') == [];
  }

  lemma AddSampleDrawn(w: Worker, s: T.SampledItem)
    requires AtRequest(w)
    ensures Drawn(AddSample(w, s)) == Drawn(w) + [Handed(s.item, s.tableSize)]
  {
    var samples := w.currentSampling[w.sampleIdx].value.samples;
    assert Plain(samples + [s]) == Plain(samples) + [Handed(s.item, s.tableSize)];
  }

  lemma SampledDrawn(w: Worker, s: T.SampledItem)
    requires WorkerInv(w) && AtRequest(w)
    ensures Drawn(Sampled(w, s)) == Drawn(w) + [Handed(s.item, s.tableSize)]
  {
    var w1 := AddSample(w, s);
    AddSampleKeeps(w, s);
    FinalizeKeepsDrawn(w1, Ok);
    AddSampleDrawn(w, s);
  }

  lemma SampledTied(w: Worker, p: Path, items: seq<Item>, s: T.SampledItem, t: TableSpec.Table, op: Op, t': TableSpec.Table)
    requires WorkerInv(w) && AtRequest(w) && Tied(w, p, items) && LeadsTo(p, t)
    requires op.Sample? && HandedBy(t, op) == [Handed(s.item, s.tableSize)]
    ensures Tied(Sampled(w, s), Extended(p, op, t'), items)
  {
    SampledDrawn(w, s);
    ExtendedLogs(p, t, op, t');
    assert InsertsOf(p.ops) + [] == InsertsOf(p.ops);
  }

  lemma WaitingItems(rs: seq<InsertRequest>, i: nat)
    requires i < |rs|
    ensures ItemsIn(rs[i..]) == [rs[i].item] + ItemsIn(rs[i + 1..])
  {
  }

  lemma Regroup<X>(a: seq<X>, x: X, b: seq<X>)
    ensures a + ([x] + b) == (a + [x]) + b
  {
  }

  lemma InsertedTied(w: Worker, p: Path, items: seq<Item>, t: TableSpec.Table, op: Op, t': TableSpec.Table)
    requires WorkerInv(w) && w.insertIdx < |w.currentInserts| && Tied(w, p, items) && LeadsTo(p, t)
    requires op.Insert? && op.item == w.currentInserts[w.insertIdx].item
    ensures Tied(Inserted(w), Extended(p, op, t'), items)
  {
    ExtendedLogs(p, t, op, t');
    WaitingItems(w.currentInserts, w.insertIdx);
    Regroup(InsertsOf(p.ops), op.item, ItemsIn(w.currentInserts[w.insertIdx + 1..]));
    assert HandedOut(p.trace, p.ops) + [] == HandedOut(p.trace, p.ops);
  }

  lemma MovedCursorTied(w: Worker, w': Worker, p: Path, items: seq<Item>)
    requires Tied(w, p, items) && w'.answers == w.answers && AtCursor(w') == AtCursor(w)
    requires w'.currentInserts == w.currentInserts && w'.insertIdx == w.insertIdx && w'.pendingInserts == w.pendingInserts
    ensures Tied(w', p, items)
  {
  }

  /** The table is in order, and got where it is along the path. */
  ghost predicate Serviceable(table: T.Table, p: Path)
    reads table
  {
    table.Valid() && TableInv(table.contents) && LeadsTo(p, table.contents)
  }

  /** Whatever the worker serves stays in the corridor. */
  lemma ServedTableStaysInCorridor(table: T.Table, p: Path)
    requires Serviceable(table, p)
    ensures InCorridor(table.contents.limiter)
  {
    PathStaysInCorridor(p.trace, p.ops, |p.ops|);
  }

  /** What one sample does to the worker and to the path of the table. */
  lemma SampleStep(w: Worker, p: Path, items: seq<Item>, s: T.SampledItem, t: TableSpec.Table, t': TableSpec.Table)
    requires WorkerInv(w) && AtRequest(w) && Tied(w, p, items) && LeadsTo(p, t) && TableInv(t)
    requires Step(t, Sample(s.item.key), t') && HandedBy(t, Sample(s.item.key)) == [Handed(s.item, s.tableSize)]
    ensures var w', p' := Sampled(w, s), Extended(p, Sample(s.item.key), t');
      && WorkerInv(w') && Conserved(w, w') && SameLine(w, w') && Fills(w, w') && SameInserts(w, w') && Tied(w', p', items)
      && w'.progress == w.progress + 1 && Work(w') < Work(w)
      && (w'.sampleIdx == w.sampleIdx ==> AtRequest(w'))
      && LeadsTo(p', t') && TableInv(t')
  {
    ExtendPath(p, t, Sample(s.item.key), t');
    SampledKeeps(w, s);
    SampledTied(w, p, items, s, t, Sample(s.item.key), t');
  }

  /** What one insert does to the worker and to the path of the table. */
  lemma InsertStep(w: Worker, p: Path, items: seq<Item>, now: nat, evicted: Key, t: TableSpec.Table, t': TableSpec.Table)
    requires WorkerInv(w) && w.insertIdx < |w.currentInserts| && Tied(w, p, items) && LeadsTo(p, t) && TableInv(t)
    requires Step(t, Insert(w.currentInserts[w.insertIdx].item, now, evicted), t')
    ensures var w', p' := Inserted(w), Extended(p, Insert(w.currentInserts[w.insertIdx].item, now, evicted), t');
      && WorkerInv(w') && Conserved(w, w') && SameLine(w, w') && Fills(w, w')
      && KnownInserts(w') == KnownInserts(w) && Tied(w', p', items)
      && Work(w') < Work(w) && LeadsTo(p', t') && TableInv(t')
  {
    var op := Insert(w.currentInserts[w.insertIdx].item, now, evicted);
    ExtendPath(p, t, op, t');
    InsertedKeeps(w);
    InsertedTied(w, p, items, t, op, t');
  }

  ghost predicate Longer(p: Path, p': Path) {
    p.ops <= p'.ops && p.trace <= p'.trace
  }

  // ---------------------------------------------------------------------
  // The loops that run under the table's lock
  // ---------------------------------------------------------------------

  /** Skips the requests that have been moved out. */
  method SkipMovedOut(w: Worker, ghost p: Path, ghost items: seq<Item>) returns (w': Worker)
    requires WorkerInv(w) && Tied(w, p, items)
    ensures WorkerInv(w') && Conserved(w, w') && SameLine(w, w') && Fills(w, w') && Work(w') == Work(w) && Tied(w', p, items)
    ensures w' == w.(sampleIdx := w'.sampleIdx)
    ensures Ready(w')
  {
    w' := w;
    while w'.sampleIdx < |w'.currentSampling| && w'.currentSampling[w'.sampleIdx].None?
      invariant WorkerInv(w') && Work(w') == Work(w) && AtCursor(w') == AtCursor(w)
      invariant w' == w.(sampleIdx := w'.sampleIdx)
      decreases |w'.currentSampling| - w'.sampleIdx
    {
      w' := w'.(sampleIdx := w'.sampleIdx + 1);
    }
    MovedCursorTied(w, w', p, items);
  }

  /** Takes one sample out of a table whose limiter has committed it. */
  method DrawSample(table: T.Table, rateLimited: bool, ghost t: TableSpec.Table) returns (s: T.SampledItem)
    requires table.Valid() && table.contents == Committed(t) && TableInv(t) && t.limiter.CanSample(1)
    modifies table
    ensures table.Valid() && Step(t, Sample(s.item.key), table.contents)
    ensures HandedBy(t, Sample(s.item.key)) == [Handed(s.item, s.tableSize)] && s.rateLimited == rateLimited
  {
    assert |t.data| >= 1;
    var status;
    status, s := table.SampleInternal(rateLimited);
    SampleAfterCommit(t, s.item.key);
  }

  /** Draws one sample for the request at the cursor, if the limiter permits it.
      A permitted sample always finds an item, and it is what the request gets. */
  method SampleOnce(table: T.Table, w: Worker, ghost p: Path, ghost items: seq<Item>)
    returns (committed: bool, w': Worker, ghost p': Path)
    requires Serviceable(table, p) && WorkerInv(w) && AtRequest(w) && Tied(w, p, items)
    modifies table
    ensures Serviceable(table, p') && Tied(w', p', items)
    ensures committed == old(table.contents).limiter.CanSample(1)
    ensures !committed ==> w' == w && p' == p && table.contents == old(table.contents)
    ensures committed ==>
      && WorkerInv(w') && Conserved(w, w') && SameLine(w, w') && Fills(w, w') && SameInserts(w, w')
      && w'.progress == w.progress + 1 && Work(w') < Work(w)
      && (w'.sampleIdx == w.sampleIdx ==> AtRequest(w'))
      && Longer(p, p') && |p'.ops| == |p.ops| + 1 && p'.ops[|p.ops|].Sample?
  {
    ghost var t := table.contents;
    committed := table.MaybeCommitSample();
    w', p' := w, p;
    if committed {
      var s := DrawSample(table, w.rateLimited, t);
      SampleStep(w, p, items, s, t, table.contents);
      w', p' := Sampled(w, s), Extended(p, Sample(s.item.key), table.contents);
    }
  }

  /** Serves the request at the cursor until it is finalized or the limiter says
      no. Every turn makes progress. */
  method ServeRequest(table: T.Table, w: Worker, ghost p: Path, ghost items: seq<Item>)
    returns (w': Worker, ghost p': Path)
    requires Serviceable(table, p) && WorkerInv(w) && AtRequest(w) && Tied(w, p, items)
    modifies table
    ensures Serviceable(table, p') && Tied(w', p', items) && Longer(p, p')
    ensures WorkerInv(w') && Conserved(w, w') && SameLine(w, w') && Fills(w, w') && SameInserts(w, w')
    ensures w'.progress - w.progress == |p'.ops| - |p.ops| >= 0
    ensures w'.progress > w.progress ==> Work(w') < Work(w)
    ensures w'.progress == w.progress ==>
      w' == w && p' == p && table.contents == old(table.contents) && !table.contents.limiter.CanSample(1)
  {
    var committed;
    committed, w', p' := SampleOnce(table, w, p, items);
    while committed && w'.sampleIdx == w.sampleIdx
      invariant Serviceable(table, p') && Tied(w', p', items)
      invariant Served(w, p, w', p') && (w'.sampleIdx == w.sampleIdx ==> AtRequest(w'))
      invariant w' == w ==>
        !committed && p' == p && table.contents == old(table.contents) && !table.contents.limiter.CanSample(1)
      decreases Work(w'), committed
    {
      ghost var w1, p1 := w', p';
      committed, w', p' := SampleOnce(table, w', p', items);
      if committed {
        ServedFurther(w, p, w1, p1, w', p');
      }
    }
  }

  /** Samples were drawn for the request at the cursor, or nothing happened. */
  ghost predicate Served(w: Worker, p: Path, w': Worker, p': Path) {
    && w.insertIdx <= |w.currentInserts|
    && WorkerInv(w') && Conserved(w, w') && SameLine(w, w') && Fills(w, w') && SameInserts(w, w') && Longer(p, p')
    && w'.progress - w.progress == |p'.ops| - |p.ops|
    && (w' == w || (w'.progress > w.progress && Work(w') < Work(w)))
  }

  lemma ServedFurther(w: Worker, p: Path, w1: Worker, p1: Path, w2: Worker, p2: Path)
    requires Served(w, p, w1, p1) && Served(w1, p1, w2, p2)
    ensures Served(w, p, w2, p2)
  {
    forall ticket: Ticket
      ensures Known(w2, ticket) == Known(w, ticket)
    {
      assert Known(w1, ticket) == Known(w, ticket);
    }
    FillsFurther(w, w1, w2);
  }

  /** Hands the next insert to the table, if there is one and it is permitted. */
  method InsertOnce(table: T.Table, w: Worker, ghost p: Path, ghost items: seq<Item>)
    returns (w': Worker, ghost p': Path)
    requires Serviceable(table, p) && WorkerInv(w) && Tied(w, p, items)
    modifies table
    ensures Serviceable(table, p') && Tied(w', p', items) && Longer(p, p')
    ensures WorkerInv(w') && Conserved(w, w') && SameLine(w, w') && Fills(w, w') && KnownInserts(w') == KnownInserts(w)
    ensures w'.lastProgress == w.lastProgress && w'.progress - w.progress == |p'.ops| - |p.ops|
    ensures w' != w ==>
      && w.insertIdx < |w.currentInserts| && w' == Inserted(w) && Work(w') < Work(w)
      && |p'.ops| == |p.ops| + 1 && p'.ops[|p.ops|].Insert?
      && p'.ops[|p.ops|].item == w.currentInserts[w.insertIdx].item
    ensures w' == w ==>
      && p' == p && table.contents == old(table.contents)
      && (w.insertIdx == |w.currentInserts| || !table.contents.limiter.CanInsert(1))
  {
    w', p' := w, p;
    if w.insertIdx < |w.currentInserts| && table.contents.limiter.CanInsert(1) {
      var now: nat := *;
      ghost var t := table.contents;
      var item := w.currentInserts[w.insertIdx].item;
      var status, evicted := table.InsertOrAssignInternal(item, now);
      InsertStep(w, p, items, now, evicted, t, table.contents);
      w', p' := Inserted(w), Extended(p, Insert(item, now, evicted), table.contents);
    }
  }

  /** Nothing more can be done until the table or the queues change. */
  ghost predicate Blocked(w: Worker, l: Limiter) {
    && (w.insertIdx == |w.currentInserts| || !l.CanInsert(1))
    && Ready(w) && (AtRequest(w) ==> !l.CanSample(1))
  }

  /** The alternation of inserts and samples. It ends, since every pass that makes
      progress leaves less work; and it ends only when both sides are blocked, with
      the cursor on a request that has not been moved out. Progress is the number of
      steps that the table made. */
  method ProcessRequests(table: T.Table, w: Worker, ghost p: Path, ghost items: seq<Item>)
    returns (w': Worker, ghost p': Path)
    requires Serviceable(table, p) && WorkerInv(w) && Tied(w, p, items)
    modifies table
    ensures Serviceable(table, p') && Tied(w', p', items) && Longer(p, p')
    ensures WorkerInv(w') && Conserved(w, w') && SameLine(w, w') && Fills(w, w') && KnownInserts(w') == KnownInserts(w)
    ensures w'.progress - w.progress == |p'.ops| - |p.ops| >= 0 && w'.lastProgress == w.lastProgress
    ensures Blocked(w', table.contents.limiter)
  {
    w', p' := w, p;
    var previous := w.progress - 1;
    while previous < w'.progress
      invariant Serviceable(table, p') && Tied(w', p', items) && Longer(p, p')
      invariant WorkerInv(w') && Conserved(w, w') && SameLine(w, w') && Fills(w, w') && KnownInserts(w') == KnownInserts(w)
      invariant w'.progress - w.progress == |p'.ops| - |p.ops| && w'.lastProgress == w.lastProgress
      invariant previous <= w'.progress
      invariant previous == w'.progress ==> Blocked(w', table.contents.limiter)
      decreases Work(w'), if previous < w'.progress then 1 else 0
    {
      previous := w'.progress;
      w', p' := Pass(table, w', p', items);
    }
  }

  /** One pass: an insert, then the request at the cursor. */
  method Pass(table: T.Table, w: Worker, ghost p: Path, ghost items: seq<Item>) returns (w': Worker, ghost p': Path)
    requires Serviceable(table, p) && WorkerInv(w) && Tied(w, p, items)
    modifies table
    ensures Serviceable(table, p') && Tied(w', p', items) && Longer(p, p')
    ensures WorkerInv(w') && Conserved(w, w') && SameLine(w, w') && Fills(w, w') && KnownInserts(w') == KnownInserts(w)
    ensures w'.progress - w.progress == |p'.ops| - |p.ops| && w'.lastProgress == w.lastProgress
    ensures w'.progress >= w.progress && Work(w') <= Work(w)
    ensures w'.progress > w.progress ==> Work(w') < Work(w)
    ensures w'.progress == w.progress ==> Blocked(w', table.contents.limiter)
  {
    w', p' := InsertOnce(table, w, p, items);
    w' := SkipMovedOut(w', p', items);
    if w'.sampleIdx < |w'.currentSampling| {
      w', p' := ServeRequest(table, w', p', items);
    }
  }

  // ---------------------------------------------------------------------
  // Between two rounds: new batches, timeouts, shutdown
  // ---------------------------------------------------------------------

  /** Fetches a new batch of inserts once the previous one is done. */
  function TakeInserts(w: Worker): Worker {
    if w.insertIdx == |w.currentInserts| && w.pendingInserts != [] then
      w.(progress := w.progress + 1, insertIdx := 0, currentInserts := w.pendingInserts, pendingInserts := [])
    else w
  }

  /** Fetches a new batch of sample requests once the previous one is done. */
  function TakeSampling(w: Worker): Worker {
    if w.sampleIdx == |w.currentSampling| && w.pendingSampling != [] then
      w.(progress := w.progress + 1, sampleIdx := 0, currentSampling := w.pendingSampling, pendingSampling := [],
         rateLimited := false)
    else w
  }

  lemma {:induction false} NoneLive(slots: seq<Slot>, ticket: Ticket)
    requires forall i :: 0 <= i < |slots| ==> slots[i].None?
    ensures Live(slots, ticket) == 0
  {
    if slots != [] {
      NoneLive(slots[1..], ticket);
    }
  }

  lemma {:induction false} TakeInsertsKeeps(w: Worker, p: Path, items: seq<Item>)
    requires WorkerInv(w) && Tied(w, p, items)
    ensures WorkerInv(TakeInserts(w)) && Conserved(w, TakeInserts(w)) && Tied(TakeInserts(w), p, items)
    ensures KnownInserts(TakeInserts(w)) == KnownInserts(w)
  {
    if w.insertIdx == |w.currentInserts| {
      assert w.currentInserts[|w.currentInserts|..] == [];
      assert w.pendingInserts[0..] == w.pendingInserts;
      NothingMore(w.notified, InsertIds([]));
      NothingMore(InsertsOf(p.ops), ItemsIn([]));
    }
  }

  lemma {:induction false} TakeSamplingKeeps(w: Worker, p: Path, items: seq<Item>)
    requires WorkerInv(w) && Tied(w, p, items)
    ensures WorkerInv(TakeSampling(w)) && Conserved(w, TakeSampling(w)) && SameInserts(w, TakeSampling(w))
    ensures Tied(TakeSampling(w), p, items)
  {
    var w' := TakeSampling(w);
    if w.sampleIdx == |w.currentSampling| {
      forall ticket: Ticket
        ensures Known(w', ticket) == Known(w, ticket)
      {
        NoneLive(w.currentSampling, ticket);
      }
      assert AtCursor(w') == [] == AtCursor(w);
    }
    MovedCursorTied(w, w', p, items);
  }

  predicate Expired(s: Slot, now: nat) {
    s.Some? && s.value.deadline <= now
  }

  /** No request in the vector is overdue. */
  ghost predicate NoneExpired(slots: seq<Slot>, now: nat) {
    forall i :: 0 <= i < |slots| && slots[i].Some? ==> now < slots[i].value.deadline
  }

  /** What is left in the vector once the overdue requests were moved out. */
  function Kept(slots: seq<Slot>, now: nat): seq<Slot> {
    seq(|slots|, i requires 0 <= i < |slots| => if Expired(slots[i], now) then None else slots[i])
  }

  function Overdue(slots: seq<Slot>, now: nat): seq<Slot> {
    if slots == [] then []
    else
      var n := |slots| - 1;
      Overdue(slots[..n], now) + if Expired(slots[n], now) then [slots[n]] else []
  }

  /** GetExpiredRequests: moves the overdue requests out, leaving nothing in their
      place. */
  method GetExpiredRequests(now: nat, slots: seq<Slot>) returns (kept: seq<Slot>, expired: seq<Slot>)
    ensures kept == Kept(slots, now) && expired == Overdue(slots, now)
    ensures NoneExpired(kept, now)
  {
    kept, expired := [], [];
    for i := 0 to |slots|
      invariant kept == Kept(slots[..i], now)
      invariant expired == Overdue(slots[..i], now)
    {
      OneMore(slots, now, i);
      if Expired(slots[i], now) {
        expired := expired + [slots[i]];
        kept := kept + [None];
      } else {
        kept := kept + [slots[i]];
      }
    }
    assert slots[..|slots|] == slots;
  }

  lemma {:induction false} OneMore(slots: seq<Slot>, now: nat, i: nat)
    requires i < |slots|
    ensures var s := slots[i];
      && Kept(slots[..i + 1], now) == Kept(slots[..i], now) + [if Expired(s, now) then None else s]
      && Overdue(slots[..i + 1], now) == Overdue(slots[..i], now) + if Expired(s, now) then [s] else []
  {
    assert slots[..i + 1][..i] == slots[..i];
  }

  lemma {:induction false} OverdueConserves(slots: seq<Slot>, now: nat, ticket: Ticket)
    ensures Live(slots, ticket) == Live(Kept(slots, now), ticket) + Live(Overdue(slots, now), ticket)
  {
    if slots != [] {
      var n := |slots| - 1;
      var init, last := slots[..n], slots[n];
      OverdueConserves(init, now, ticket);
      OneMore(slots, now, n);
      assert slots[..n + 1] == slots == init + [last];
      LiveSnoc(init, last, ticket);
      LiveSnoc(Kept(init, now), if Expired(last, now) then None else last, ticket);
      if Expired(last, now) {
        LiveSnoc(Overdue(init, now), last, ticket);
      } else {
        assert Overdue(slots, now) == Overdue(init, now);
      }
    }
  }

  lemma {:induction false} OverdueMembers(slots: seq<Slot>, now: nat)
    ensures forall s :: s in Overdue(slots, now) ==> s in slots
    ensures Overdue(slots, now) == [] ==> NoneExpired(slots, now)
  {
    if slots != [] {
      var n := |slots| - 1;
      OverdueMembers(slots[..n], now);
      assert slots == slots[..n] + [slots[n]];
    }
  }

  // ---------------------------------------------------------------------
  // The samples of requests that are answered together
  // ---------------------------------------------------------------------

  /** The samples held in a vector, in order. */
  function SlotSamples(slots: seq<Slot>): seq<Handed> {
    if slots == [] then []
    else
      var n := |slots| - 1;
      SlotSamples(slots[..n]) + if slots[n].Some? then Plain(slots[n].value.samples) else []
  }

  lemma SlotSamplesSnoc(slots: seq<Slot>, s: Slot)
    ensures SlotSamples(slots + [s]) == SlotSamples(slots) + if s.Some? then Plain(s.value.samples) else []
  {
    assert (slots + [s])[..|slots|] == slots;
  }

  lemma {:induction false} SlotSamplesConcat(a: seq<Slot>, b: seq<Slot>)
    ensures SlotSamples(a + b) == SlotSamples(a) + SlotSamples(b)
  {
    if b == [] {
      assert a + b == a;
    } else {
      var n := |b| - 1;
      assert a + b == (a + b[..n]) + [b[n]] && b == b[..n] + [b[n]];
      SlotSamplesConcat(a, b[..n]);
      SlotSamplesSnoc(a + b[..n], b[n]);
    }
  }

  /** Only the slot `c` can hold samples. */
  ghost predicate OnlyAt(slots: seq<Slot>, c: nat) {
    forall i :: 0 <= i < |slots| && i != c && slots[i].Some? ==> slots[i].value.samples == []
  }

  /** What a vector holds is what that slot holds. */
  lemma {:induction false} SlotSamplesOnlyAt(slots: seq<Slot>, c: nat)
    requires OnlyAt(slots, c)
    ensures SlotSamples(slots) == if c < |slots| && slots[c].Some? then Plain(slots[c].value.samples) else []
  {
    if slots != [] {
      SlotSamplesOnlyAt(slots[..|slots| - 1], c);
    }
  }

  lemma {:induction false} OverdueSamples(slots: seq<Slot>, now: nat, c: nat)
    requires OnlyAt(slots, c)
    ensures SlotSamples(Overdue(slots, now)) ==
      if c < |slots| && Expired(slots[c], now) then Plain(slots[c].value.samples) else []
  {
    if slots != [] {
      var n := |slots| - 1;
      OverdueSamples(slots[..n], now, c);
      SlotSamplesSnoc(Overdue(slots[..n], now), slots[n]);
      if !Expired(slots[n], now) {
        assert Overdue(slots, now) == Overdue(slots[..n], now);
      } else if n == c {
        assert [] + Plain(slots[n].value.samples) == Plain(slots[n].value.samples);
      }
    }
  }

  /** Finalizes every request that is still there. Without a given status, a
      request without samples has timed out and any other one is answered. */
  function AnswerSlots(slots: seq<Slot>, status: Option<Status>): seq<Answer> {
    if slots == [] then []
    else
      var n := |slots| - 1;
      var before := AnswerSlots(slots[..n], status);
      match slots[n]
      case None => before
      case Some(r) =>
        before + [Answer(r, if status.Some? then status.value else if r.samples == [] then RateLimiterTimeout else Ok)]
  }

  lemma {:induction false} AnswerSlotsSamples(slots: seq<Slot>, status: Option<Status>)
    ensures SamplesOf(AnswerSlots(slots, status)) == SlotSamples(slots)
  {
    if slots != [] {
      var n := |slots| - 1;
      AnswerSlotsSamples(slots[..n], status);
      if slots[n].Some? {
        var answers := AnswerSlots(slots, status);
        SamplesSnoc(AnswerSlots(slots[..n], status), answers[|answers| - 1]);
      }
    }
  }

  lemma {:induction false} SamplesConcat(a: seq<Answer>, b: seq<Answer>)
    ensures SamplesOf(a + b) == SamplesOf(a) + SamplesOf(b)
  {
    if b == [] {
      assert a + b == a;
    } else {
      var n := |b| - 1;
      assert a + b == (a + b[..n]) + [b[n]] && b == b[..n] + [b[n]];
      SamplesConcat(a, b[..n]);
      SamplesSnoc(a + b[..n], b[n]);
      SamplesSnoc(b[..n], b[n]);
    }
  }

  ghost predicate WithinLimit(slots: seq<Slot>) {
    forall i :: 0 <= i < |slots| && slots[i].Some? ==> |slots[i].value.samples| <= slots[i].value.Limit()
  }

  lemma {:induction false} AnswerSlotsAnswersAll(slots: seq<Slot>, status: Option<Status>, ticket: Ticket)
    requires WithinLimit(slots) && (status == None || status == Some(Cancelled))
    ensures Answered(AnswerSlots(slots, status), ticket) == Live(slots, ticket)
    ensures AllGood(AnswerSlots(slots, status))
  {
    if slots != [] {
      var n := |slots| - 1;
      AnswerSlotsAnswersAll(slots[..n], status, ticket);
      assert slots == slots[..n] + [slots[n]];
      LiveSnoc(slots[..n], slots[n], ticket);
      if slots[n].Some? {
        var answers := AnswerSlots(slots, status);
        AnsweredSnoc(AnswerSlots(slots[..n], status), answers[|answers| - 1], ticket);
      }
    }
  }

  lemma MembersWithinLimit(part: seq<Slot>, slots: seq<Slot>)
    requires WithinLimit(slots) && forall s :: s in part ==> s in slots
    ensures WithinLimit(part)
  {
    forall i | 0 <= i < |part| && part[i].Some?
      ensures |part[i].value.samples| <= part[i].value.Limit()
    {
      assert part[i] in slots;
    }
  }

  /** No slot holds more samples than were asked for, and only the cursor has any. */
  lemma WithinLimits(w: Worker)
    requires WorkerInv(w)
    ensures WithinLimit(w.currentSampling) && OnlyAt(w.currentSampling, w.sampleIdx)
    ensures WithinLimit(w.pendingSampling) && OnlyAt(w.pendingSampling, |w.pendingSampling|)
  {
    forall i | 0 <= i < |w.currentSampling| && w.currentSampling[i].Some?
      ensures |w.currentSampling[i].value.samples| <= w.currentSampling[i].value.Limit()
    {
      assert i == w.sampleIdx || i > w.sampleIdx;
    }
  }

  // ---------------------------------------------------------------------
  // Timeouts
  // ---------------------------------------------------------------------

  /** The worker after every overdue request was answered. */
  function ExpireAll(w: Worker, now: nat): Worker {
    w.(currentSampling := Kept(w.currentSampling, now),
       pendingSampling := Kept(w.pendingSampling, now),
       answers := w.answers + AnswerSlots(AllOverdue(w, now), None))
  }

  function AllOverdue(w: Worker, now: nat): seq<Slot> {
    Overdue(w.currentSampling, now) + Overdue(w.pendingSampling, now)
  }

  lemma OverdueWithinLimit(w: Worker, now: nat)
    requires WorkerInv(w)
    ensures WithinLimit(AllOverdue(w, now))
  {
    WithinLimits(w);
    OverdueMembers(w.currentSampling, now);
    OverdueMembers(w.pendingSampling, now);
    MembersWithinLimit(Overdue(w.currentSampling, now), w.currentSampling);
    MembersWithinLimit(Overdue(w.pendingSampling, now), w.pendingSampling);
  }

  lemma ExpireConserves(w: Worker, now: nat)
    requires WorkerInv(w)
    ensures Conserved(w, ExpireAll(w, now))
  {
    var overdue, w' := AllOverdue(w, now), ExpireAll(w, now);
    OverdueWithinLimit(w, now);
    forall ticket: Ticket
      ensures Known(w', ticket) == Known(w, ticket)
    {
      OverdueConserves(w.currentSampling, now, ticket);
      OverdueConserves(w.pendingSampling, now, ticket);
      LiveConcat(Overdue(w.currentSampling, now), Overdue(w.pendingSampling, now), ticket);
      AnswerSlotsAnswersAll(overdue, None, ticket);
      AnsweredConcat(w.answers, AnswerSlots(overdue, None), ticket);
    }
  }

  lemma ExpireKeepsShape(w: Worker, now: nat)
    requires WorkerInv(w)
    ensures WorkerInv(ExpireAll(w, now))
  {
    OverdueWithinLimit(w, now);
    AnswerSlotsAnswersAll(AllOverdue(w, now), None, Ticket(0, 0, 0));
    GoodConcat(w.answers, AnswerSlots(AllOverdue(w, now), None));
  }

  lemma GoodConcat(a: seq<Answer>, b: seq<Answer>)
    requires AllGood(a) && AllGood(b)
    ensures AllGood(a + b)
  {
  }

  lemma ExpireKeepsInv(w: Worker, now: nat)
    requires WorkerInv(w)
    ensures WorkerInv(ExpireAll(w, now)) && Conserved(w, ExpireAll(w, now))
    ensures NoneExpired(ExpireAll(w, now).currentSampling, now) && NoneExpired(ExpireAll(w, now).pendingSampling, now)
  {
    ExpireConserves(w, now);
    ExpireKeepsShape(w, now);
  }

  /** The samples that the overdue requests hold are those of the cursor, if it is
      overdue itself. */
  lemma AllOverdueSamples(w: Worker, now: nat)
    requires WorkerInv(w)
    ensures SamplesOf(AnswerSlots(AllOverdue(w, now), None)) + AtCursor(ExpireAll(w, now)) == AtCursor(w)
  {
    WithinLimits(w);
    var current, pending := Overdue(w.currentSampling, now), Overdue(w.pendingSampling, now);
    OverdueSamples(w.currentSampling, now, w.sampleIdx);
    OverdueSamples(w.pendingSampling, now, |w.pendingSampling|);
    SlotSamplesConcat(current, pending);
    AnswerSlotsSamples(current + pending, None);
    NothingMore(SlotSamples(current), SlotSamples(pending));
    if AtRequest(w) && Expired(w.currentSampling[w.sampleIdx], now) {
      NothingMore(AtCursor(w), AtCursor(ExpireAll(w, now)));
    } else {
      NothingBefore(SlotSamples(current), AtCursor(w));
    }
  }

  lemma Associate<X>(a: seq<X>, b: seq<X>, c: seq<X>)
    ensures (a + b) + c == a + (b + c)
  {
  }

  lemma NothingMore<X>(a: seq<X>, b: seq<X>)
    requires b == []
    ensures a + b == a
  {
  }

  lemma NothingBefore<X>(a: seq<X>, b: seq<X>)
    requires a == []
    ensures a + b == b
  {
  }

  lemma ExpireKeepsDrawn(w: Worker, now: nat)
    requires WorkerInv(w)
    ensures Drawn(ExpireAll(w, now)) == Drawn(w)
  {
    var answers, w' := AnswerSlots(AllOverdue(w, now), None), ExpireAll(w, now);
    AllOverdueSamples(w, now);
    SamplesConcat(w.answers, answers);
    Associate(SamplesOf(w.answers), SamplesOf(answers), AtCursor(w'));
  }

  lemma ExpireKeepsTied(w: Worker, now: nat, p: Path, items: seq<Item>)
    requires WorkerInv(w) && Tied(w, p, items)
    ensures Tied(ExpireAll(w, now), p, items)
  {
    ExpireKeepsDrawn(w, now);
  }

  // ---------------------------------------------------------------------
  // Shutdown
  // ---------------------------------------------------------------------

  /** Moves everything still queued into the answers, as cancelled, and confirms
      the remaining inserts. */
  function Shutdown(w: Worker): Worker
    requires w.insertIdx <= |w.currentInserts|
  {
    w.(currentSampling := [], pendingSampling := [], sampleIdx := 0,
       answers := w.answers + AnswerSlots(w.currentSampling + w.pendingSampling, Some(Cancelled)),
       currentInserts := [], pendingInserts := [], insertIdx := 0,
       notified := w.notified + InsertIds(w.currentInserts[w.insertIdx..] + w.pendingInserts))
  }

  lemma ShutdownConserves(w: Worker)
    requires WorkerInv(w)
    ensures forall ticket: Ticket :: Answered(Shutdown(w).answers, ticket) == Known(w, ticket) == Known(Shutdown(w), ticket)
    ensures AllGood(Shutdown(w).answers)
  {
    var slots, w' := w.currentSampling + w.pendingSampling, Shutdown(w);
    WithinLimits(w);
    assert WithinLimit(slots);
    forall ticket: Ticket
      ensures Answered(w'.answers, ticket) == Known(w, ticket) == Known(w', ticket)
    {
      LiveConcat(w.currentSampling, w.pendingSampling, ticket);
      AnswerSlotsAnswersAll(slots, Some(Cancelled), ticket);
      AnsweredConcat(w.answers, AnswerSlots(slots, Some(Cancelled)), ticket);
    }
    AnswerSlotsAnswersAll(slots, Some(Cancelled), Ticket(0, 0, 0));
  }

  lemma {:induction false} AnswerSlotsCancelled(slots: seq<Slot>)
    ensures forall a :: a in AnswerSlots(slots, Some(Cancelled)) ==> a.status == Cancelled
  {
    if slots != [] {
      AnswerSlotsCancelled(slots[..|slots| - 1]);
    }
  }

  /** The end cancels what is left, and changes no earlier answer. */
  lemma ShutdownCancels(w: Worker)
    requires WorkerInv(w)
    ensures var w' := Shutdown(w);
      && w.answers <= w'.answers
      && forall i :: |w.answers| <= i < |w'.answers| ==> w'.answers[i].status == Cancelled
  {
    var w', n := Shutdown(w), |w.answers|;
    var more := AnswerSlots(w.currentSampling + w.pendingSampling, Some(Cancelled));
    AnswerSlotsCancelled(w.currentSampling + w.pendingSampling);
    forall i | n <= i < |w'.answers| ensures w'.answers[i].status == Cancelled {
      assert w'.answers[i] == more[i - n];
    }
  }

  lemma ShutdownAnswersAll(w: Worker)
    requires WorkerInv(w)
    ensures WorkerInv(Shutdown(w)) && Conserved(w, Shutdown(w))
    ensures forall ticket: Ticket :: Answered(Shutdown(w).answers, ticket) == Known(w, ticket)
    ensures Shutdown(w).notified == KnownInserts(w) == KnownInserts(Shutdown(w))
  {
    ShutdownConserves(w);
    var a, b := w.currentInserts[w.insertIdx..], w.pendingInserts;
    assert InsertIds(a + b) == InsertIds(a) + InsertIds(b);
  }

  lemma QueuedSamples(w: Worker)
    requires WorkerInv(w)
    ensures SlotSamples(w.currentSampling + w.pendingSampling) == AtCursor(w)
  {
    WithinLimits(w);
    SlotSamplesOnlyAt(w.currentSampling, w.sampleIdx);
    SlotSamplesOnlyAt(w.pendingSampling, |w.pendingSampling|);
    SlotSamplesConcat(w.currentSampling, w.pendingSampling);
    NothingMore(AtCursor(w), SlotSamples(w.pendingSampling));
  }

  /** The samples of a request that is cancelled are not lost either. */
  lemma ShutdownKeepsDrawn(w: Worker)
    requires WorkerInv(w)
    ensures Drawn(Shutdown(w)) == Drawn(w)
  {
    var slots := w.currentSampling + w.pendingSampling;
    QueuedSamples(w);
    AnswerSlotsSamples(slots, Some(Cancelled));
    SamplesConcat(w.answers, AnswerSlots(slots, Some(Cancelled)));
    NothingMore(Drawn(w), AtCursor(Shutdown(w)));
  }

  // ---------------------------------------------------------------------
  // The end of a round
  // ---------------------------------------------------------------------

  /** What a round does after it found nothing to serve and nothing overdue: a
      partly filled request is answered as it is. */
  function AnswerPartial(w: Worker): Worker
    requires Ready(w)
  {
    if w.sampleIdx < |w.currentSampling| && w.currentSampling[w.sampleIdx].value.samples != []
    then FinalizeCurrent(w, Ok) else w
  }

  lemma {:induction false} AnswerPartialKeeps(w: Worker)
    requires WorkerInv(w) && Ready(w)
    ensures WorkerInv(AnswerPartial(w)) && Conserved(w, AnswerPartial(w)) && SameInserts(w, AnswerPartial(w))
    ensures Drawn(AnswerPartial(w)) == Drawn(w) && AtCursor(AnswerPartial(w)) == []
  {
    if w.sampleIdx < |w.currentSampling| && w.currentSampling[w.sampleIdx].value.samples != [] {
      FinalizeKeepsInv(w, Ok);
      FinalizeKeepsKnown(w, Ok);
      FinalizeKeepsDrawn(w, Ok);
    }
  }

  function Taken(w: Worker): Worker {
    TakeSampling(TakeInserts(w))
  }

  /** Neither the table nor the queues moved in this round. */
  predicate Quiet(w: Worker) {
    Taken(w).progress == w.lastProgress
  }

  /** A round is quiet exactly if nothing was done since the last one and nothing can be
      fetched. */
  lemma QuietIff(w: Worker)
    requires w.lastProgress <= w.progress
    ensures Quiet(w) <==>
      && w.progress == w.lastProgress
      && (w.insertIdx == |w.currentInserts| ==> w.pendingInserts == [])
      && (w.sampleIdx == |w.currentSampling| ==> w.pendingSampling == [])
  {
  }

  lemma QuietTakesNothing(w: Worker)
    requires Quiet(w) && w.lastProgress <= w.progress
    ensures Taken(w) == w
  {
  }

  /** The part of a round that follows the served requests: fetch new batches;
      without any progress, time requests out; without any timeout, answer the
      partly filled request. */
  function Settled(w: Worker, now: nat): Worker
    requires Ready(w) && w.lastProgress <= w.progress
  {
    if !Quiet(w) then Taken(w).(lastProgress := Taken(w).progress)
    else if AllOverdue(w, now) == [] then
      AnswerPartial(w).(rateLimited := AnswerPartial(w).sampleIdx != |w.currentSampling|)
    else ExpireAll(w, now)
  }

  /** What a quiet round leaves: no request is overdue; and if none was, no sample
      waits in a request that is only partly filled. */
  lemma QuietRoundAnswers(w: Worker, now: nat)
    requires WorkerInv(w) && Ready(w) && w.lastProgress <= w.progress && Quiet(w)
    ensures Rested(w, Settled(w, now), now)
  {
    if AllOverdue(w, now) == [] {
      OverdueMembers(w.currentSampling, now);
      OverdueMembers(w.pendingSampling, now);
      AnswerPartialKeeps(w);
    } else {
      ExpireKeepsInv(w, now);
    }
  }

  /** What a round answers after serving: requests whose deadline has passed; or, if there
      are none, the one that is partly filled. */
  ghost predicate SettlesRightly(w: Worker, w': Worker, now: nat) {
    && w.answers <= w'.answers
    && forall i :: |w.answers| <= i < |w'.answers| ==>
         || TimedOut(w'.answers[i], now)
         || (AtRequest(w) && Plainly(w'.answers[i]) && w'.answers[i] == Answer(w.currentSampling[w.sampleIdx].value, Ok))
  }

  /** The answer to a request that has timed out. */
  ghost predicate TimedOut(a: Answer, now: nat) {
    Plainly(a) && a.request.deadline <= now
  }

  lemma {:induction false} AnswerSlotsTimedOut(slots: seq<Slot>, now: nat)
    requires forall i :: 0 <= i < |slots| ==> Expired(slots[i], now)
    ensures forall a :: a in AnswerSlots(slots, None) ==> TimedOut(a, now)
  {
    if slots != [] {
      var n := |slots| - 1;
      AnswerSlotsTimedOut(slots[..n], now);
      assert Expired(slots[n], now);
      var r := slots[n].value;
      var last := Answer(r, if r.samples == [] then RateLimiterTimeout else Ok);
      assert AnswerSlots(slots, None) == AnswerSlots(slots[..n], None) + [last] && TimedOut(last, now);
    }
  }

  lemma {:induction false} OverdueAreExpired(slots: seq<Slot>, now: nat)
    ensures forall i :: 0 <= i < |Overdue(slots, now)| ==> Expired(Overdue(slots, now)[i], now)
  {
    if slots != [] {
      OverdueAreExpired(slots[..|slots| - 1], now);
    }
  }

  lemma SettledAnswers(w: Worker, now: nat)
    requires Ready(w) && w.lastProgress <= w.progress
    ensures SettlesRightly(w, Settled(w, now), now)
  {
    if Quiet(w) && AllOverdue(w, now) != [] {
      OverdueAreExpired(w.currentSampling, now);
      OverdueAreExpired(w.pendingSampling, now);
      AnswerSlotsTimedOut(AllOverdue(w, now), now);
      var w', n := Settled(w, now), |w.answers|;
      forall i | n <= i < |w'.answers|
        ensures TimedOut(w'.answers[i], now)
      {
        assert w'.answers[i] == AnswerSlots(AllOverdue(w, now), None)[i - n];
      }
    }
  }

  lemma SettledPlainly(w: Worker, w': Worker, now: nat)
    requires AllPlainly(w.answers) && SettlesRightly(w, w', now)
    ensures AllPlainly(w'.answers)
  {
    forall i | 0 <= i < |w'.answers| ensures Plainly(w'.answers[i]) {
      if i < |w.answers| {
        assert w'.answers[i] == w.answers[i];
      }
    }
  }

  /** A side that has run out takes over what was queued for it, as one batch; the samples
      of a new batch do not count as rate limited. */
  ghost predicate Fetches(w: Worker, w': Worker) {
    && (if w.insertIdx == |w.currentInserts| && w.pendingInserts != [] then
          w'.currentInserts == w.pendingInserts && w'.pendingInserts == [] && w'.insertIdx == 0
        else SameInserts(w.(lastProgress := w'.lastProgress), w'))
    && (if w.sampleIdx == |w.currentSampling| && w.pendingSampling != [] then
          && w'.currentSampling == w.pendingSampling && w'.pendingSampling == []
          && w'.sampleIdx == 0 && !w'.rateLimited
        else
          && w'.currentSampling == w.currentSampling && w'.pendingSampling == w.pendingSampling
          && w'.sampleIdx == w.sampleIdx && w'.rateLimited == w.rateLimited)
    && w'.notified == w.notified && w'.answers == w.answers
  }

  /** What a round finds and leaves behind. If it is quiet, no batch could be fetched,
      nothing is overdue, and no sample waits unless others timed out; the next samples
      count as rate limited if requests of the batch are left. */
  ghost predicate Rested(w: Worker, w': Worker, now: nat) {
    if !Quiet(w) then Fetches(w, w') && w'.lastProgress == w'.progress
    else
      && (w.insertIdx == |w.currentInserts| ==> w.pendingInserts == [])
      && (w.sampleIdx == |w.currentSampling| ==> w.pendingSampling == [])
      && (AllOverdue(w, now) == [] ==> (w'.rateLimited <==> w'.sampleIdx != |w'.currentSampling|))
      && NoneExpired(w'.currentSampling, now) && NoneExpired(w'.pendingSampling, now)
      && (AllOverdue(w, now) == [] ==> AtCursor(w') == [])
  }

  lemma SameRequests(w: Worker, w': Worker)
    requires w'.answers == w.answers && w'.currentSampling == w.currentSampling
    requires w'.pendingSampling == w.pendingSampling
    ensures Conserved(w, w')
  {
  }

  method Settle(w: Worker, now: nat, ghost p: Path, ghost items: seq<Item>) returns (w': Worker)
    requires WorkerInv(w) && Ready(w) && w.lastProgress <= w.progress && Tied(w, p, items)
    ensures w' == Settled(w, now)
    ensures WorkerInv(w') && Conserved(w, w') && KnownInserts(w') == KnownInserts(w) && Tied(w', p, items)
    ensures w'.lastProgress <= w'.progress
    ensures Rested(w, w', now)
  {
    TakeInsertsKeeps(w, p, items);
    TakeSamplingKeeps(TakeInserts(w), p, items);
    w' := Taken(w);
    if w'.progress != w'.lastProgress {
      SameRequests(w', w'.(lastProgress := w'.progress));
      MovedCursorTied(w', w'.(lastProgress := w'.progress), p, items);
      return w'.(lastProgress := w'.progress);
    }
    QuietTakesNothing(w);
    QuietRoundAnswers(w, now);
    w' := ExpireOrAnswer(w, now, p, items);
  }

  /** Answers every overdue request; if there is none, the partly filled one. */
  method ExpireOrAnswer(w: Worker, now: nat, ghost p: Path, ghost items: seq<Item>) returns (w': Worker)
    requires WorkerInv(w) && Ready(w) && w.lastProgress <= w.progress && Quiet(w) && Tied(w, p, items)
    ensures w' == Settled(w, now)
    ensures WorkerInv(w') && Conserved(w, w') && SameInserts(w, w') && w'.progress == w.progress && Tied(w', p, items)
  {
    var current, expired := GetExpiredRequests(now, w.currentSampling);
    var pending, more := GetExpiredRequests(now, w.pendingSampling);
    if expired + more == [] {
      w' := AnswerNow(w, p, items);
    } else {
      ExpireKeepsInv(w, now);
      ExpireKeepsTied(w, now, p, items);
      w' := w.(currentSampling := current, pendingSampling := pending,
               answers := w.answers + AnswerSlots(expired + more, None));
    }
  }

  method AnswerNow(w: Worker, ghost p: Path, ghost items: seq<Item>) returns (w': Worker)
    requires WorkerInv(w) && Ready(w) && Tied(w, p, items)
    ensures w' == AnswerPartial(w).(rateLimited := AnswerPartial(w).sampleIdx != |w.currentSampling|)
    ensures WorkerInv(w') && Conserved(w, w') && SameInserts(w, w') && w'.progress == w.progress && Tied(w', p, items)
  {
    AnswerPartialKeeps(w);
    w' := w;
    if w.sampleIdx < |w.currentSampling| && w.currentSampling[w.sampleIdx].value.samples != [] {
      w' := FinalizeCurrent(w, Ok);
    }
    SameRequests(w', w'.(rateLimited := w'.sampleIdx != |w'.currentSampling|));
    w' := w'.(rateLimited := w'.sampleIdx != |w'.currentSampling|);
  }

  // ---------------------------------------------------------------------
  // Other operations on the table
  // ---------------------------------------------------------------------

  /** Both paths inserted and handed out the same. */
  ghost predicate SameLogs(p: Path, p': Path) {
    && |p.trace| == |p.ops| + 1 && |p'.trace| == |p'.ops| + 1
    && InsertsOf(p'.ops) == InsertsOf(p.ops) && HandedOut(p'.trace, p'.ops) == HandedOut(p.trace, p.ops)
  }

  /** A delete, an update or a reset moves along the path, and neither hands out nor
      inserts. */
  lemma QuietStep(p: Path, t: TableSpec.Table, op: Op, t': TableSpec.Table)
    requires LeadsTo(p, t) && TableInv(t) && Step(t, op, t') && !op.Insert? && !op.Sample?
    ensures var p' := Extended(p, op, t'); LeadsTo(p', t') && TableInv(t') && Longer(p, p') && SameLogs(p, p')
  {
    ExtendPath(p, t, op, t');
    ExtendedLogs(p, t, op, t');
    NothingMore(InsertsOf(p.ops), []);
    NothingMore(HandedOut(p.trace, p.ops), []);
  }

  lemma {:induction false} DeletesExtend(p: Path, t: TableSpec.Table, keys: seq<Key>) returns (p': Path)
    requires LeadsTo(p, t) && TableInv(t)
    ensures LeadsTo(p', DeleteAll(t, keys)) && TableInv(DeleteAll(t, keys)) && Longer(p, p') && SameLogs(p, p')
    decreases keys
  {
    p' := p;
    if keys != [] {
      var t' := TableSpec.DeleteItem(t, keys[0]);
      QuietStep(p, t, Delete(keys[0]), t');
      p' := DeletesExtend(Extended(p, Delete(keys[0]), t'), t', keys[1..]);
    }
  }

  lemma {:induction false} UpdatesExtend(p: Path, t: TableSpec.Table, updates: seq<(Key, real)>) returns (p': Path)
    requires LeadsTo(p, t) && TableInv(t)
    ensures LeadsTo(p', UpdateAll(t, updates)) && TableInv(UpdateAll(t, updates)) && Longer(p, p') && SameLogs(p, p')
    decreases updates
  {
    p' := p;
    if updates != [] {
      var op := Update(updates[0].0, updates[0].1);
      var t' := TableSpec.UpdateItem(t, updates[0].0, updates[0].1);
      QuietStep(p, t, op, t');
      p' := UpdatesExtend(Extended(p, op, t'), t', updates[1..]);
    }
  }

  /** A mutation moves along the path without handing out or inserting anything. */
  lemma MutationExtends(p: Path, t: TableSpec.Table, updates: seq<(Key, real)>, deletes: seq<Key>) returns (p': Path)
    requires LeadsTo(p, t) && TableInv(t)
    ensures InStep(DeleteAll(t, deletes))
    ensures var t' := UpdateAll(DeleteAll(t, deletes), updates); LeadsTo(p', t') && TableInv(t')
    ensures Longer(p, p') && SameLogs(p, p')
  {
    p' := DeletesExtend(p, t, deletes);
    p' := UpdatesExtend(p', DeleteAll(t, deletes), updates);
  }

  lemma ResetExtends(p: Path, t: TableSpec.Table)
    requires LeadsTo(p, t) && TableInv(t)
    ensures var p', t' := Extended(p, TableSpec.Reset, ResetTable(t)), ResetTable(t);
      LeadsTo(p', t') && TableInv(t') && Longer(p, p') && SameLogs(p, p')
  {
    QuietStep(p, t, TableSpec.Reset, ResetTable(t));
  }

  lemma QuietPathTied(w: Worker, p: Path, p': Path, items: seq<Item>)
    requires Tied(w, p, items) && SameLogs(p, p')
    ensures Tied(w, p', items)
  {
  }

  // ---------------------------------------------------------------------
  // The worker thread
  // ---------------------------------------------------------------------

  /** What was ever enqueued: sample requests, and inserts with their items. */
  datatype Enqueued = Enqueued(requests: multiset<Ticket>, inserts: seq<nat>, items: seq<Item>)

  /** Nothing enqueued is lost or answered twice, and the answers hold what the table
      handed out. */
  ghost predicate Accounted(w: Worker, p: Path, e: Enqueued) {
    && WorkerInv(w) && w.lastProgress <= w.progress
    && (forall ticket: Ticket :: Known(w, ticket) == e.requests[ticket])
    && KnownInserts(w) == e.inserts && |e.inserts| == |e.items|
    && Tied(w, p, e.items)
  }

  /** After the end: every request is answered, and every insert confirmed, although
      the last items never reached the table. */
  ghost predicate Closed(w: Worker, p: Path, e: Enqueued) {
    && WorkerInv(w) && w.currentSampling == [] && w.pendingSampling == []
    && w.currentInserts == [] && w.pendingInserts == []
    && w.lastProgress <= w.progress
    && (forall ticket: Ticket :: Answered(w.answers, ticket) == e.requests[ticket])
    && w.notified == e.inserts && |e.inserts| == |e.items|
    && |p.trace| == |p.ops| + 1 && SamplesOf(w.answers) == HandedOut(p.trace, p.ops)
    && InsertsOf(p.ops) <= e.items
  }

  ghost predicate Books(w: Worker, p: Path, e: Enqueued, finished: bool) {
    if finished then Closed(w, p, e) else Accounted(w, p, e)
  }

  lemma QuietPathKeepsBooks(w: Worker, p: Path, p': Path, e: Enqueued, finished: bool)
    requires Books(w, p, e, finished) && SameLogs(p, p')
    ensures Books(w, p', e, finished)
  {
    if !finished {
      QuietPathTied(w, p, p', e.items);
    }
  }

  /** Answers everything that is left. */
  method End(w: Worker, ghost p: Path, ghost e: Enqueued) returns (w': Worker)
    requires Books(w, p, e, false)
    ensures w.insertIdx <= |w.currentInserts| && w' == Shutdown(w) && Books(w', p, e, true)
  {
    ShutdownCloses(w, p, e);
    w' := Shutdown(w);
  }

  lemma ShutdownCloses(w: Worker, p: Path, e: Enqueued)
    requires Accounted(w, p, e)
    ensures Closed(Shutdown(w), p, e)
  {
    ShutdownAnswersAll(w);
    ShutdownKeepsDrawn(w);
    assert SamplesOf(Shutdown(w).answers) + [] == SamplesOf(Shutdown(w).answers);
    var rest := ItemsIn(w.currentInserts[w.insertIdx..]) + ItemsIn(w.pendingInserts);
    assert e.items == InsertsOf(p.ops) + rest;
  }

  /** The new request is queued, or answered at once by a stopped worker. */
  function WithRequest(w: Worker, r: Request, stopped: bool): Worker {
    if stopped then w.(answers := w.answers + [Answer(r, Cancelled)])
    else w.(pendingSampling := w.pendingSampling + [Some(r)])
  }

  lemma RequestIsKnown(w: Worker, r: Request, stopped: bool, ticket: Ticket)
    ensures Known(WithRequest(w, r, stopped), ticket) == Known(w, ticket) + if ticket == TicketOf(r) then 1 else 0
  {
    AnsweredSnoc(w.answers, Answer(r, Cancelled), ticket);
    LiveSnoc(w.pendingSampling, Some(r), ticket);
  }

  lemma RequestIsTied(w: Worker, p: Path, items: seq<Item>, r: Request, stopped: bool)
    requires WorkerInv(w) && Tied(w, p, items) && r.samples == []
    ensures WorkerInv(WithRequest(w, r, stopped)) && Tied(WithRequest(w, r, stopped), p, items)
  {
    if stopped {
      EmptyAnswer(w.answers, Answer(r, Cancelled));
    }
  }

  lemma EmptyAnswer(answers: seq<Answer>, a: Answer)
    requires a.request.samples == []
    ensures SamplesOf(answers + [a]) == SamplesOf(answers)
  {
    SamplesSnoc(answers, a);
    NothingMore(SamplesOf(answers), Plain(a.request.samples));
  }

  lemma RequestIsAccounted(w: Worker, p: Path, e: Enqueued, r: Request, stopped: bool)
    requires Accounted(w, p, e) && r.samples == []
    ensures Accounted(WithRequest(w, r, stopped), p, e.(requests := e.requests + multiset{TicketOf(r)}))
  {
    var w' := WithRequest(w, r, stopped);
    forall ticket: Ticket
      ensures Known(w', ticket) == (e.requests + multiset{TicketOf(r)})[ticket]
    {
      RequestIsKnown(w, r, stopped, ticket);
    }
    RequestIsTied(w, p, e.items, r, stopped);
  }

  lemma RequestAfterEnd(w: Worker, p: Path, e: Enqueued, r: Request)
    requires Closed(w, p, e) && r.samples == []
    ensures Closed(WithRequest(w, r, true), p, e.(requests := e.requests + multiset{TicketOf(r)}))
  {
    forall ticket: Ticket
      ensures Answered(w.answers + [Answer(r, Cancelled)], ticket) == (e.requests + multiset{TicketOf(r)})[ticket]
    {
      AnsweredSnoc(w.answers, Answer(r, Cancelled), ticket);
    }
    EmptyAnswer(w.answers, Answer(r, Cancelled));
  }

  lemma InsertIsAccounted(w: Worker, p: Path, e: Enqueued, r: InsertRequest)
    requires Accounted(w, p, e)
    ensures Accounted(w.(pendingInserts := w.pendingInserts + [r]), p,
                      e.(inserts := e.inserts + [r.id], items := e.items + [r.item]))
  {
    var w' := w.(pendingInserts := w.pendingInserts + [r]);
    SameRequests(w, w');
    assert InsertIds(w.pendingInserts + [r]) == InsertIds(w.pendingInserts) + [r.id];
    assert ItemsIn(w.pendingInserts + [r]) == ItemsIn(w.pendingInserts) + [r.item];
  }

  // ---------------------------------------------------------------------
  // What the clients get
  // ---------------------------------------------------------------------

  /** As long as the worker runs, the inserts that it confirmed are those whose items
      went to the table, in order. */
  lemma ConfirmedAreInTable(w: Worker, p: Path, e: Enqueued)
    requires Accounted(w, p, e)
    ensures var n := |w.notified|;
      n <= |e.inserts| == |e.items| && w.notified == e.inserts[..n] && InsertsOf(p.ops) == e.items[..n]
  {
    var n := |w.notified|;
    assert |InsertsOf(p.ops)| == n;
    assert (w.notified + InsertIds(w.currentInserts[w.insertIdx..]) + InsertIds(w.pendingInserts))[..n] == w.notified;
    assert KnownItems(w, p)[..n] == InsertsOf(p.ops);
  }

  /** A worker that has ended confirmed every insert: the item of one went to the table
      if and only if it was among those confirmed before the end. */
  lemma ConfirmedAtEnd(w: Worker, p: Path, e: Enqueued)
    requires Accounted(w, p, e)
    ensures var n := |w.notified|;
      && Shutdown(w).notified == e.inserts && n <= |e.items|
      && InsertsOf(p.ops) == e.items[..n]
      && (InsertsOf(p.ops) == e.items <==> w.insertIdx == |w.currentInserts| && w.pendingInserts == [])
  {
    ConfirmedAreInTable(w, p, e);
    ShutdownAnswersAll(w);
    assert e.items[..|e.items|] == e.items;
    assert |KnownInserts(w)| == |w.notified| + (|w.currentInserts| - w.insertIdx) + |w.pendingInserts|;
  }

  lemma {:induction false} AnsweredIsCount(answers: seq<Answer>, ticket: Ticket)
    ensures Answered(answers, ticket) == multiset(AnswerTickets(answers))[ticket]
  {
    if answers != [] {
      AnsweredIsCount(answers[1..], ticket);
      assert AnswerTickets(answers) == [TicketOf(answers[0].request)] + AnswerTickets(answers[1..]);
    }
  }

  /** Nobody is answered who did not ask for just that, and no request is answered more
      often than it was made. */
  lemma AnswersWereAskedFor(w: Worker, p: Path, e: Enqueued, finished: bool)
    requires Books(w, p, e, finished)
    ensures multiset(AnswerTickets(w.answers)) <= e.requests
    ensures finished ==> multiset(AnswerTickets(w.answers)) == e.requests
  {
    forall ticket: Ticket
      ensures multiset(AnswerTickets(w.answers))[ticket] <= e.requests[ticket]
      ensures finished ==> multiset(AnswerTickets(w.answers))[ticket] == e.requests[ticket]
    {
      AnsweredIsCount(w.answers, ticket);
      assert !finished ==> Known(w, ticket) == e.requests[ticket];
    }
  }

  /** The answer belongs to a request that was made. If it is OK it holds at least one
      sample, and at most as many as were asked for, or one if that was zero. */
  ghost predicate Fits(a: Answer, requests: multiset<Ticket>) {
    var ticket, samples := TicketOf(a.request), a.request.samples;
    && ticket in requests
    && (a.status == Ok ==> 1 <= |samples| <= if ticket.wanted == 0 then 1 else ticket.wanted)
    && (a.status == RateLimiterTimeout ==> samples == [])
  }

  /** Every answer fits its request, so that an OK answer keeps to the number asked for
      exactly when that was not zero. */
  lemma AnswerFitsRequest(w: Worker, p: Path, e: Enqueued, finished: bool, i: nat)
    requires Books(w, p, e, finished) && i < |w.answers|
    ensures Fits(w.answers[i], e.requests)
    ensures w.answers[i].status == Ok ==>
      (|w.answers[i].request.samples| <= w.answers[i].request.wanted <==> w.answers[i].request.wanted >= 1)
  {
    AnswersWereAskedFor(w, p, e, finished);
    assert AnswerTickets(w.answers)[i] in AnswerTickets(w.answers);
    assert GoodAnswer(w.answers[i]);
  }

  const IDLE_WORKER := Worker([], 0, [], [], 0, [], false, 0, 0, 0, [], [])

  lemma IdleIsAccounted(t: TableSpec.Table)
    ensures Accounted(IDLE_WORKER, Path([t], []), Enqueued(multiset{}, [], []))
  {
    forall ticket: Ticket
      ensures Known(IDLE_WORKER, ticket) == 0
    {
    }
    assert KnownInserts(IDLE_WORKER) == [];
    assert Drawn(IDLE_WORKER) == [];
  }

  /** Serving and settling lose nothing of what is accounted for. */
  lemma StaysAccounted(w: Worker, p: Path, w': Worker, p': Path, e: Enqueued)
    requires Accounted(w, p, e) && WorkerInv(w') && Conserved(w, w') && KnownInserts(w') == KnownInserts(w)
    requires Tied(w', p', e.items) && w'.lastProgress <= w'.progress
    ensures Accounted(w', p', e)
  {
    forall ticket: Ticket
      ensures Known(w', ticket) == e.requests[ticket]
    {
      assert Known(w', ticket) == Known(w, ticket);
    }
  }

  /** The worker after all that was permitted has been served. */
  ghost predicate ServedFrom(w: Worker, served: Worker, l: Limiter) {
    && WorkerInv(served) && Blocked(served, l) && Conserved(w, served) && SameLine(w, served) && Fills(w, served)
    && served.lastProgress == w.lastProgress && served.lastProgress <= served.progress
  }

  /** Serves what is permitted, and keeps the books. */
  method ServeAll(table: T.Table, w: Worker, ghost p: Path, ghost e: Enqueued) returns (w': Worker, ghost p': Path)
    requires Serviceable(table, p) && Books(w, p, e, false)
    modifies table
    ensures Serviceable(table, p') && Books(w', p', e, false) && (AllPlainly(w.answers) ==> AllPlainly(w'.answers))
    ensures Longer(p, p') && ServedFrom(w, w', table.contents.limiter)
    ensures w'.progress - w.progress == |p'.ops| - |p.ops|
  {
    w', p' := ProcessRequests(table, w, p, e.items);
    StaysAccounted(w, p, w', p', e);
    if AllPlainly(w.answers) {
      FilledArePlain(w, w');
    }
  }

  /** Deletes and updates items of a table in use. */
  method MutateTable(table: T.Table, ghost p: Path, updates: seq<(Key, real)>, deletes: seq<Key>)
    returns (status: Status, ghost p': Path)
    requires Serviceable(table, p)
    modifies table
    ensures status == Ok && Serviceable(table, p') && Longer(p, p') && SameLogs(p, p')
    ensures InStep(DeleteAll(old(table.contents), deletes))
    ensures table.contents == UpdateAll(DeleteAll(old(table.contents), deletes), updates)
  {
    p' := MutationExtends(p, table.contents, updates, deletes);
    status := table.MutateItems(updates, deletes);
  }

  /** The worker with its queues, and the table that it serves. */
  class WorkerThread {
    const table: T.Table
    var w: Worker
    var stopWorker: bool
    var finished: bool
    ghost var path: Path
    ghost var enqueued: Enqueued

    ghost predicate Valid()
      reads this, table
    {
      // Compared with `true`, so that proofs take each part as a whole.
      Serviceable(table, path) == true && Books(w, path, enqueued, finished) == true && (finished ==> stopWorker)
      && (!stopWorker ==> AllPlainly(w.answers) == true)
    }

    constructor (table: T.Table)
      requires table.Valid() && TableInv(table.contents) && InCorridor(table.contents.limiter)
      ensures Valid() && !stopWorker && !finished && this.table == table
      ensures enqueued == Enqueued(multiset{}, [], []) && path == Path([table.contents], [])
    {
      this.table := table;
      w := IDLE_WORKER;
      stopWorker, finished := false, false;
      enqueued, path := Enqueued(multiset{}, [], []), Path([table.contents], []);
      IdleIsAccounted(table.contents);
    }

    /** At any time, every answer given so far fits a request that was enqueued. Until
        the worker is told to stop none is cancelled. */
    lemma EveryAnswerFits()
      requires Valid()
      ensures forall i :: 0 <= i < |w.answers| ==> Fits(w.answers[i], enqueued.requests)
      ensures finished ==> multiset(AnswerTickets(w.answers)) == enqueued.requests
      ensures !stopWorker ==> forall i :: 0 <= i < |w.answers| ==> Plainly(w.answers[i])
    {
      AnswersWereAskedFor(w, path, enqueued, finished);
      forall i | 0 <= i < |w.answers| ensures Fits(w.answers[i], enqueued.requests) {
        AnswerFitsRequest(w, path, enqueued, finished, i);
      }
    }

    /** EnqueSampleRequest: a stopped worker answers at once. */
    method EnqueueSampleRequest(id: nat, wanted: nat, deadline: nat)
      requires Valid()
      modifies `w, `enqueued
      ensures Valid()
      ensures enqueued == old(enqueued).(requests := old(enqueued).requests + multiset{Ticket(id, wanted, deadline)})
      ensures w == WithRequest(old(w), Request(id, wanted, deadline, []), stopWorker)
      ensures var r := Request(id, wanted, deadline, []);
        if stopWorker then w == old(w).(answers := old(w).answers + [Answer(r, Cancelled)])
        else w == old(w).(pendingSampling := old(w).pendingSampling + [Some(r)])
    {
      var r := Request(id, wanted, deadline, []);
      if finished {
        RequestAfterEnd(w, path, enqueued, r);
      } else {
        RequestIsAccounted(w, path, enqueued, r, stopWorker);
      }
      w := if stopWorker then w.(answers := w.answers + [Answer(r, Cancelled)])
           else w.(pendingSampling := w.pendingSampling + [Some(r)]);
      enqueued := enqueued.(requests := enqueued.requests + multiset{Ticket(id, wanted, deadline)});
    }

    /** InsertOrAssignAsync: a stopped worker refuses. */
    method InsertOrAssignAsync(id: nat, item: Item) returns (status: Status)
      requires Valid()
      modifies `w, `enqueued
      ensures Valid() && status == if stopWorker then Cancelled else Ok
      ensures status != Ok ==> w == old(w) && enqueued == old(enqueued)
      ensures status == Ok ==>
        && w == old(w).(pendingInserts := old(w).pendingInserts + [InsertRequest(id, item)])
        && enqueued == old(enqueued).(inserts := old(enqueued).inserts + [id], items := old(enqueued).items + [item])
    {
      if stopWorker {
        return Cancelled;
      }
      var r := InsertRequest(id, item);
      InsertIsAccounted(w, path, enqueued, r);
      w := w.(pendingInserts := w.pendingInserts + [r]);
      enqueued := enqueued.(inserts := enqueued.inserts + [id], items := enqueued.items + [item]);
      return Ok;
    }

    method Close()
      requires Valid()
      modifies `stopWorker
      ensures Valid() && stopWorker
    {
      stopWorker := true;
    }

    /** One turn of the worker's outer loop. It serves until nothing more is permitted;
        a turn without progress leaves nothing overdue, and a partly filled request
        only if others timed out. */
    method Iterate(now: nat) returns (ghost served: Worker)
      requires Valid() && !stopWorker
      modifies `w, `path, table
      ensures Valid() && Longer(old(path), path)
      ensures ServedFrom(old(w), served, table.contents.limiter)
      ensures served.progress - old(w).progress == |path.ops| - |old(path).ops|
      ensures w == Settled(served, now) && Rested(served, w, now) && SettlesRightly(served, w, now)
    {
      Serve();
      served := w;
      Rest(now);
    }

    /** The turn that finds the worker stopped: it still serves what is permitted, then
        answers everything and ends. */
    method LastTurn() returns (ghost served: Worker)
      requires Valid() && stopWorker && !finished
      modifies `w, `finished, `path, table
      ensures Valid() == true && finished && Longer(old(path), path)
      ensures ServedFrom(old(w), served, table.contents.limiter)
      ensures served.progress - old(w).progress == |path.ops| - |old(path).ops|
      ensures w == Shutdown(served)
    {
      Serve();
      served := w;
      Finish();
    }

    /** Answers everything that is left. */
    method Finish()
      requires Valid() && !finished && stopWorker
      modifies `w, `finished
      ensures Valid() && finished && old(w).insertIdx <= |old(w).currentInserts| && w == Shutdown(old(w))
    {
      var ended := End(w, path, enqueued);
      w, finished := ended, true;
    }

    /** The part of a turn that follows the served requests. */
    method Rest(now: nat)
      requires Valid() && !finished && Ready(w)
      modifies `w
      ensures Valid() && old(w).lastProgress <= old(w).progress
      ensures w == Settled(old(w), now) && Rested(old(w), w, now) && SettlesRightly(old(w), w, now)
    {
      var settled := Settle(w, now, path, enqueued.items);
      StaysAccounted(w, path, settled, path, enqueued);
      SettledAnswers(w, now);
      if !stopWorker {
        SettledPlainly(w, settled, now);
      }
      w := settled;
    }

    /** The part of a turn that runs under the table's lock. */
    method Serve()
      requires Valid() && !finished
      modifies `w, `path, table
      ensures Valid() && Longer(old(path), path) && ServedFrom(old(w), w, table.contents.limiter)
      ensures w.progress - old(w).progress == |path.ops| - |old(path).ops|
    {
      w, path := ServeAll(table, w, path, enqueued);
    }

    /** Deletes and updates on behalf of clients. */
    method MutateItems(updates: seq<(Key, real)>, deletes: seq<Key>) returns (status: Status)
      requires Valid()
      modifies `path, table
      ensures Valid() && status == Ok && Longer(old(path), path)
      ensures InStep(DeleteAll(old(table.contents), deletes))
      ensures table.contents == UpdateAll(DeleteAll(old(table.contents), deletes), updates)
    {
      ghost var p;
      status, p := MutateTable(table, path, updates, deletes);
      QuietPathKeepsBooks(w, path, p, enqueued, finished);
      path := p;
    }

    method Reset()
      requires Valid()
      modifies `path, table
      ensures Valid() && Longer(old(path), path) && table.contents == ResetTable(old(table.contents))
    {
      ghost var p := Extended(path, TableSpec.Reset, ResetTable(table.contents));
      ResetExtends(path, table.contents);
      table.Reset();
      QuietPathKeepsBooks(w, path, p, enqueued, finished);
      path := p;
    }
  }
}
