/** How samples travel over a SampleStream: the server splits them into entries of
    size-limited responses, and the client glues the entries together again. */
module SampleCodec {

  import opened Status

  /** A chunk of rows with its serialised size. */
  datatype Chunk = Chunk(key: nat, size: nat, rows: seq<nat>)

  datatype Slice = Slice(chunkKey: nat, offset: int, length: nat)

  datatype Info = Info(itemKey: Key, columns: seq<seq<Slice>>)

  datatype Sample = Sample(info: Info, chunks: seq<Chunk>)

  datatype Entry = Entry(info: Option<Info>, chunks: seq<Chunk>, endOfSequence: bool)

  type Response = seq<Entry>

  const EMPTY_ENTRY := Entry(None, [], false)
  const MAX_RESPONSE_SIZE: nat := 2 * 1024 * 1024

  function Flatten(responses: seq<Response>): seq<Entry> {
    if responses == [] then [] else responses[0] + Flatten(responses[1..])
  }

  function ChunksOf(entries: seq<Entry>): seq<Chunk> {
    if entries == [] then [] else entries[0].chunks + ChunksOf(entries[1..])
  }

  lemma {:induction false} FlattenSnoc(responses: seq<Response>, r: Response)
    ensures Flatten(responses + [r]) == Flatten(responses) + r
  {
    if responses == [] {
      assert [r][1..] == [];
    } else {
      assert (responses + [r])[1..] == responses[1..] + [r];
      FlattenSnoc(responses[1..], r);
    }
  }

  lemma {:induction false} ChunksSnoc(entries: seq<Entry>, e: Entry)
    ensures ChunksOf(entries + [e]) == ChunksOf(entries) + e.chunks
  {
    if entries == [] {
      assert [e][1..] == [];
    } else {
      assert (entries + [e])[1..] == entries[1..] + [e];
      ChunksSnoc(entries[1..], e);
    }
  }

  /** The entries carry the first `n` chunks of the sample: the info travels with
      the first entry, and only the entry with the last chunk ends the sequence. */
  ghost predicate Carries(entries: seq<Entry>, s: Sample, n: nat)
    requires n <= |s.chunks|
  {
    && entries != []
    && ChunksOf(entries) == s.chunks[..n]
    && (n > 0 ==> entries[0].info == Some(s.info))
    && (forall i :: 0 < i < |entries| ==> entries[i].info == None)
    && (forall i :: 0 <= i < |entries| - 1 ==> !entries[i].endOfSequence)
    && (n > 0 ==> (entries[|entries| - 1].endOfSequence <==> n == |s.chunks|))
  }

  ghost predicate Encodes(entries: seq<Entry>, s: Sample) {
    s.chunks != [] && Carries(entries, s, |s.chunks|)
  }

  // ---------------------------------------------------------------------
  // Server: splitting
  // ---------------------------------------------------------------------

  /** The entry after it received chunk `i` of the sample. */
  function Extend(e: Entry, s: Sample, i: nat): Entry
    requires i < |s.chunks|
  {
    Entry(if i == 0 then Some(s.info) else e.info, e.chunks + [s.chunks[i]], i + 1 == |s.chunks|)
  }

  lemma ExtendCarries(entries: seq<Entry>, e: Entry, s: Sample, i: nat)
    requires i < |s.chunks|
    requires if i == 0 then entries == [] && e == EMPTY_ENTRY else Carries(entries + [e], s, i)
    ensures Carries(entries + [Extend(e, s, i)], s, i + 1)
  {
    ChunksSnoc(entries, e);
    ChunksSnoc(entries, Extend(e, s, i));
    assert s.chunks[..i + 1] == s.chunks[..i] + [s.chunks[i]];
    var before, after := entries + [e], entries + [Extend(e, s, i)];
    assert forall j :: 0 <= j < |entries| ==> after[j] == before[j];
    if i == 0 {
      assert s.chunks[..0] == [];
    }
  }

  /** Opens a fresh entry after the ones that carry `n` chunks. */
  lemma OpenEntryCarries(entries: seq<Entry>, s: Sample, n: nat)
    requires 0 < n < |s.chunks| && Carries(entries, s, n)
    ensures ChunksOf(entries + [EMPTY_ENTRY]) == s.chunks[..n]
    ensures Carries(entries + [EMPTY_ENTRY], s, n)
  {
    ChunksSnoc(entries, EMPTY_ENTRY);
  }

  /** The queue of responses, seen as finished responses, the complete entries of
      the last response, and the entry under construction. */
  function Queue(done: seq<Response>, last: Response, e: Entry): seq<Response> {
    done + [last + [e]]
  }

  lemma {:induction false} FlattenQueue(done: seq<Response>, last: Response, e: Entry)
    ensures Flatten(Queue(done, last, e)) == Flatten(done) + last + [e]
  {
    FlattenSnoc(done, last + [e]);
    assert Flatten(done) + (last + [e]) == Flatten(done) + last + [e];
  }

  // ---------------------------------------------------------------------
  // Server: the size of responses
  // ---------------------------------------------------------------------

  function SizeOf(chunks: seq<Chunk>): nat {
    if chunks == [] then 0 else SizeOf(chunks[..|chunks| - 1]) + chunks[|chunks| - 1].size
  }

  function ResponseSize(r: Response): nat {
    SizeOf(ChunksOf(r))
  }

  /** The response was within the limit until it received its last chunk. */
  ghost predicate WithinLimit(r: Response) {
    var chunks := ChunksOf(r);
    chunks != [] && SizeOf(chunks[..|chunks| - 1]) <= MAX_RESPONSE_SIZE
  }

  ghost predicate AllWithinLimit(responses: seq<Response>) {
    forall i :: 0 <= i < |responses| ==> WithinLimit(responses[i])
  }

  /** The responses before the `n`-th, but for the very first, have been filled up to the
      limit. */
  ghost predicate FullBefore(responses: seq<Response>, n: int) {
    forall i :: 0 < i < n <= |responses| ==> ResponseSize(responses[i]) > MAX_RESPONSE_SIZE
  }

  /** No response is larger than it has to be, and only the first and the last may be
      smaller; `size` is the size of the last one. */
  ghost predicate Packed(responses: seq<Response>, size: nat) {
    && AllWithinLimit(responses) && FullBefore(responses, |responses| - 1)
    && (responses != [] ==> size == ResponseSize(responses[|responses| - 1]))
  }

  /** The next chunk goes to a response that is still within the limit. */
  ghost predicate Room(done: seq<Response>, last: Response, e: Entry, size: nat) {
    && AllWithinLimit(done) && FullBefore(done, |done|)
    && size == ResponseSize(last + [e]) <= MAX_RESPONSE_SIZE
  }

  lemma ChunkGoesIn(last: Response, e: Entry, s: Sample, i: nat)
    requires i < |s.chunks| && ResponseSize(last + [e]) <= MAX_RESPONSE_SIZE
    ensures ResponseSize(last + [Extend(e, s, i)]) == ResponseSize(last + [e]) + s.chunks[i].size
    ensures WithinLimit(last + [Extend(e, s, i)])
  {
    ChunksSnoc(last, e);
    ChunksSnoc(last, Extend(e, s, i));
    var before, after := ChunksOf(last + [e]), ChunksOf(last + [Extend(e, s, i)]);
    assert after == before + [s.chunks[i]];
    assert after[..|after| - 1] == before;
  }

  lemma FreshRoom(last: Response)
    ensures ResponseSize(last + [EMPTY_ENTRY]) == ResponseSize(last) && ResponseSize([]) == 0
  {
    ChunksSnoc(last, EMPTY_ENTRY);
    assert ChunksOf(last) + [] == ChunksOf(last);
  }

  lemma QueueIsPacked(done: seq<Response>, last: Response, e: Entry)
    requires AllWithinLimit(done) && FullBefore(done, |done|) && WithinLimit(last + [e])
    ensures Packed(Queue(done, last, e), ResponseSize(last + [e]))
    ensures ResponseSize(last + [e]) > MAX_RESPONSE_SIZE ==> FullBefore(Queue(done, last, e), |done| + 1)
  {
  }

  /** Picks the response that the next entry goes to: a new one when there is none
      that may be changed, or when the last one has grown too big. */
  method OpenResponse(responses: seq<Response>, size: nat, writing: bool)
    returns (done: seq<Response>, last: Response, size': nat)
    requires Packed(responses, size)
    ensures Flatten(done) + last == Flatten(responses)
    ensures writing && responses != [] ==> done != [] && done[0] == responses[0]
    ensures Room(done, last, EMPTY_ENTRY, size')
    ensures last == [] <==>
      responses == [] || (|responses| == 1 && writing) || ResponseSize(responses[|responses| - 1]) > MAX_RESPONSE_SIZE
  {
    FreshRoom([]);
    if responses == [] || (|responses| == 1 && writing) || size > MAX_RESPONSE_SIZE {
      done, last, size' := responses, [], 0;
    } else {
      var n := |responses| - 1;
      done, last, size' := responses[..n], responses[n], size;
      LastIsOpen(responses, size);
      FlattenLast(responses);
    }
  }

  /** The last response can go on if it is within the limit. */
  lemma LastIsOpen(responses: seq<Response>, size: nat)
    requires responses != [] && Packed(responses, size) && size <= MAX_RESPONSE_SIZE
    ensures var n := |responses| - 1; Room(responses[..n], responses[n], EMPTY_ENTRY, size) && responses[n] != []
  {
    assert WithinLimit(responses[|responses| - 1]);
    FreshRoom(responses[|responses| - 1]);
  }

  lemma FlattenLast(responses: seq<Response>)
    requires responses != []
    ensures var n := |responses| - 1; Flatten(responses[..n]) + responses[n] == Flatten(responses)
  {
    var n := |responses| - 1;
    FlattenSnoc(responses[..n], responses[n]);
    assert responses == responses[..n] + [responses[n]];
  }

  /** ProcessSample: appends the sample to the queued responses. The response being
      written is left alone. */
  method ProcessSample(responses: seq<Response>, size: nat, s: Sample, writing: bool)
    returns (responses': seq<Response>, size': nat, ghost entries: seq<Entry>)
    requires s.chunks != [] && Packed(responses, size)
    ensures Encodes(entries, s)
    ensures Flatten(responses') == Flatten(responses) + entries
    ensures writing && responses != [] ==> |responses'| > 1 && responses'[0] == responses[0]
    ensures responses' != [] && Packed(responses', size')
  {
    var done, last;
    done, last, size' := OpenResponse(responses, size, writing);
    ghost var before := Flatten(responses);
    var e := EMPTY_ENTRY;
    ghost var sent: seq<Entry> := [];
    StartsBuilding(done, last, size', before, s);
    for i := 0 to |s.chunks|
      invariant Building(done, last, e, size', before, sent, s, i)
      invariant writing && responses != [] ==> done != [] && done[0] == responses[0]
    {
      ChunkIsBuilt(done, last, e, size', before, sent, s, i);
      e := Extend(e, s, i);
      size' := size' + s.chunks[i].size;
      if i < |s.chunks| - 1 && size' > MAX_RESPONSE_SIZE {
        done, last, size' := Queue(done, last, e), [], 0;
        sent := sent + [e];
        e := EMPTY_ENTRY;
      }
    }
    SampleIsPlaced(done, last, e, size', before, sent, s);
    responses' := Queue(done, last, e);
    entries := sent + [e];
  }

  /** The entry under construction follows entries that carry the first chunks. */
  ghost predicate SentUpTo(sent: seq<Entry>, e: Entry, s: Sample, n: nat)
    requires n <= |s.chunks|
  {
    if n == 0 then sent == [] && e == EMPTY_ENTRY else Carries(sent + [e], s, n)
  }

  /** The responses hold what was there before and the entries sent so far. */
  ghost predicate Placed(done: seq<Response>, last: Response, before: seq<Entry>, sent: seq<Entry>) {
    Flatten(done) + last == before + sent
  }

  /** The first `i` chunks of the sample have been placed. */
  ghost predicate Building(done: seq<Response>, last: Response, e: Entry, size: nat, before: seq<Entry>, sent: seq<Entry>,
                           s: Sample, i: nat)
    requires i <= |s.chunks|
  {
    && Placed(done, last, before, sent) && SentUpTo(sent, e, s, i)
    && if i < |s.chunks| then Room(done, last, e, size) else Packed(Queue(done, last, e), size)
  }

  lemma StartsBuilding(done: seq<Response>, last: Response, size: nat, before: seq<Entry>, s: Sample)
    requires s.chunks != [] && Flatten(done) + last == before && Room(done, last, EMPTY_ENTRY, size)
    ensures Building(done, last, EMPTY_ENTRY, size, before, [], s, 0)
  {
    assert before + [] == before;
  }

  /** One more chunk goes into the response; if that is then too large and there are more
      chunks, the next response is opened. */
  lemma ChunkIsBuilt(done: seq<Response>, last: Response, e: Entry, size: nat, before: seq<Entry>, sent: seq<Entry>,
                     s: Sample, i: nat)
    requires i < |s.chunks| && Building(done, last, e, size, before, sent, s, i)
    ensures var e', size' := Extend(e, s, i), size + s.chunks[i].size;
      if i < |s.chunks| - 1 && size' > MAX_RESPONSE_SIZE
      then Building(Queue(done, last, e'), [], EMPTY_ENTRY, 0, before, sent + [e'], s, i + 1)
      else Building(done, last, e', size', before, sent, s, i + 1)
  {
    var e' := Extend(e, s, i);
    ExtendCarries(sent, e, s, i);
    ChunkGoesIn(last, e, s, i);
    QueueIsPacked(done, last, e');
    if i < |s.chunks| - 1 {
      OpenEntryCarries(sent + [e'], s, i + 1);
      CloseResponse(done, last, before, sent, e');
      FreshRoom([]);
    }
  }

  lemma SampleIsPlaced(done: seq<Response>, last: Response, e: Entry, size: nat, before: seq<Entry>, sent: seq<Entry>,
                       s: Sample)
    requires s.chunks != [] && Building(done, last, e, size, before, sent, s, |s.chunks|)
    ensures Encodes(sent + [e], s) && Packed(Queue(done, last, e), size)
    ensures Flatten(Queue(done, last, e)) == before + (sent + [e])
  {
    CloseResponse(done, last, before, sent, e);
  }

  lemma CloseResponse(done: seq<Response>, last: Response, before: seq<Entry>, sent: seq<Entry>, e: Entry)
    requires Placed(done, last, before, sent)
    ensures Placed(Queue(done, last, e), [], before, sent + [e]) && Flatten(Queue(done, last, e)) == before + (sent + [e])
  {
    FlattenQueue(done, last, e);
    assert before + sent + [e] == before + (sent + [e]);
  }

  // ---------------------------------------------------------------------
  // Client: collecting entries
  // ---------------------------------------------------------------------

  /** Complete groups of entries, and the entries of a group not yet complete. */
  datatype Groups = Groups(complete: seq<seq<Entry>>, open: seq<Entry>)

  /** Collects entries up to each end-of-sequence flag. */
  function Collect(open: seq<Entry>, entries: seq<Entry>): Groups
    decreases entries
  {
    if entries == [] then Groups([], open)
    else
      var parts := open + [entries[0]];
      if entries[0].endOfSequence then
        var rest := Collect([], entries[1..]);
        Groups([parts] + rest.complete, rest.open)
      else Collect(parts, entries[1..])
  }

  /** The loop over the entries of received responses in FetchSamples. */
  method CollectEntries(responses: seq<Response>) returns (groups: Groups)
    ensures groups == Collect([], Flatten(responses))
  {
    groups := Groups([], []);
    ghost var all := Flatten(responses);
    for i := 0 to |responses|
      invariant Finish(groups, Flatten(responses[i..])) == Collect([], all)
    {
      var r := responses[i];
      assert responses[i..][1..] == responses[i + 1..];
      ghost var later := Flatten(responses[i + 1..]);
      for j := 0 to |r|
        invariant Finish(groups, r[j..] + later) == Collect([], all)
      {
        assert (r[j..] + later)[1..] == r[j + 1..] + later;
        FinishOne(groups, r[j], r[j + 1..] + later);
        groups := Take(groups, r[j]);
      }
      assert r[|r|..] + later == later;
    }
  }

  function Take(g: Groups, e: Entry): Groups {
    var parts := g.open + [e];
    if e.endOfSequence then Groups(g.complete + [parts], []) else Groups(g.complete, parts)
  }

  /** What the groups become once the remaining entries are in. */
  ghost function Finish(g: Groups, entries: seq<Entry>): Groups {
    var rest := Collect(g.open, entries);
    Groups(g.complete + rest.complete, rest.open)
  }

  lemma FinishOne(g: Groups, e: Entry, rest: seq<Entry>)
    ensures Finish(g, [e] + rest) == Finish(Take(g, e), rest)
  {
    assert ([e] + rest)[1..] == rest;
    if e.endOfSequence {
      var later := Collect([], rest);
      assert g.complete + ([g.open + [e]] + later.complete) == g.complete + [g.open + [e]] + later.complete;
    }
  }

  /** A group that ends with its only end-of-sequence flag is collected whole. */
  lemma {:induction false} CollectGroup(open: seq<Entry>, group: seq<Entry>, rest: seq<Entry>)
    requires group != [] && group[|group| - 1].endOfSequence
    requires forall i :: 0 <= i < |group| - 1 ==> !group[i].endOfSequence
    ensures var later := Collect([], rest);
      Collect(open, group + rest) == Groups([open + group] + later.complete, later.open)
    decreases group
  {
    var tail := group[1..];
    assert (group + rest)[1..] == tail + rest;
    assert group == [group[0]] + tail;
    if tail == [] {
      assert tail + rest == rest && group == [group[0]];
      assert open + [group[0]] == open + group;
    } else {
      assert open + [group[0]] + tail == open + group;
      CollectGroup(open + [group[0]], tail, rest);
    }
  }

  ghost predicate EncodesAll(groups: seq<seq<Entry>>, samples: seq<Sample>) {
    |groups| == |samples| && forall i :: 0 <= i < |samples| ==> Encodes(groups[i], samples[i])
  }

  /** Collecting gives back exactly the groups that were emitted, in order. */
  lemma {:induction false} CollectInvertsEmit(groups: seq<seq<Entry>>, samples: seq<Sample>)
    requires EncodesAll(groups, samples)
    ensures Collect([], Flatten(groups)) == Groups(groups, [])
  {
    if groups != [] {
      CollectInvertsEmit(groups[1..], samples[1..]);
      assert Encodes(groups[0], samples[0]);
      CollectGroup([], groups[0], Flatten(groups[1..]));
      assert [] + groups[0] == groups[0];
      assert groups == [groups[0]] + groups[1..];
    }
  }

  /** What has been collected so far is never revised. */
  lemma {:induction false} CollectIsMonotone(open: seq<Entry>, a: seq<Entry>, b: seq<Entry>)
    ensures Collect(open, a).complete <= Collect(open, a + b).complete
    decreases a
  {
    if a != [] {
      assert (a + b)[1..] == a[1..] + b;
      CollectIsMonotone(if a[0].endOfSequence then [] else open + [a[0]], a[1..], b);
    }
  }

  // ---------------------------------------------------------------------
  // Client: unpacking
  // ---------------------------------------------------------------------

  datatype Unpacked<T> = Good(value: T) | Bad(status: Status)

  type Rows = seq<nat>

  function UnpackSlice(m: map<nat, Chunk>, slice: Slice): Unpacked<Rows> {
    if slice.chunkKey !in m then Bad(Internal)
    else
      var rows := m[slice.chunkKey].rows;
      if slice.offset < 0 || slice.offset + slice.length > |rows| then Bad(InvalidArgument)
      else Good(rows[slice.offset..slice.offset + slice.length])
  }

  /** Puts the values in front of those still to come. */
  function After<T>(done: seq<T>, rest: Unpacked<seq<T>>): Unpacked<seq<T>> {
    if rest.Bad? then rest else Good(done + rest.value)
  }

  /** Unpacks the slices of one column, keeping every chunk: the simple form. */
  function UnpackColumn(m: map<nat, Chunk>, column: seq<Slice>): Unpacked<seq<Rows>> {
    if column == [] then Good([])
    else match UnpackSlice(m, column[0])
      case Bad(status) => Bad(status)
      case Good(rows) => After([rows], UnpackColumn(m, column[1..]))
  }

  function UnpackColumns(m: map<nat, Chunk>, columns: seq<seq<Slice>>): Unpacked<seq<seq<Rows>>> {
    if columns == [] then Good([])
    else match UnpackColumn(m, columns[0])
      case Bad(status) => Bad(status)
      case Good(rows) => After([rows], UnpackColumns(m, columns[1..]))
  }

  function Count(slices: seq<Slice>, key: nat): nat {
    if slices == [] then 0 else (if slices[0].chunkKey == key then 1 else 0) + Count(slices[1..], key)
  }

  function AllSlices(columns: seq<seq<Slice>>): seq<Slice> {
    if columns == [] then [] else columns[0] + AllSlices(columns[1..])
  }

  /** For every chunk still to be read, the counter is right and the chunk is in
      the map exactly if it was received. */
  ghost predicate Retained(m: map<nat, Chunk>, chunks: map<nat, Chunk>, counts: map<nat, nat>, todo: seq<Slice>) {
    forall k :: Count(todo, k) > 0 ==>
      && k in counts && counts[k] == Count(todo, k)
      && (k in chunks <==> k in m)
      && (k in m ==> chunks[k] == m[k])
  }

  /** Counts down one use, and frees the chunk after its last use. */
  lemma ReleaseKeepsRetained(m: map<nat, Chunk>, chunks: map<nat, Chunk>, counts: map<nat, nat>,
                             slice: Slice, rest: seq<Slice>)
    requires Retained(m, chunks, counts, [slice] + rest)
    ensures var k := slice.chunkKey;
      && k in counts && counts[k] > 0
      && (k in chunks <==> k in m) && (k in m ==> chunks[k] == m[k])
      && Retained(m, if counts[k] == 1 then chunks - {k} else chunks, counts[k := counts[k] - 1], rest)
  {
    var todo := [slice] + rest;
    assert todo[1..] == rest;
    assert Count(todo, slice.chunkKey) > 0;
    forall k ensures Count(todo, k) == Count(rest, k) + if k == slice.chunkKey then 1 else 0 { }
  }

  method UnpackAndRelease(m: map<nat, Chunk>, chunks: map<nat, Chunk>, counts: map<nat, nat>,
                          column: seq<Slice>, ghost later: seq<Slice>)
    returns (r: Unpacked<seq<Rows>>, chunks': map<nat, Chunk>, counts': map<nat, nat>)
    requires Retained(m, chunks, counts, column + later)
    ensures r == UnpackColumn(m, column)
    ensures r.Good? ==> Retained(m, chunks', counts', later)
  {
    chunks', counts' := chunks, counts;
    var out: seq<Rows> := [];
    assert column[0..] == column;
    AfterNothing([], UnpackColumn(m, column));
    for j := 0 to |column|
      invariant Retained(m, chunks', counts', column[j..] + later)
      invariant UnpackColumn(m, column) == After(out, UnpackColumn(m, column[j..]))
    {
      var slice, k := column[j], column[j].chunkKey;
      assert column[j..] + later == [slice] + (column[j + 1..] + later);
      assert column[j..][1..] == column[j + 1..];
      ReleaseKeepsRetained(m, chunks', counts', slice, column[j + 1..] + later);
      var rows := UnpackSlice(chunks', slice);
      if rows.Bad? {
        return Bad(rows.status), chunks', counts';
      }
      AfterAfter(out, rows.value, UnpackColumn(m, column[j + 1..]));
      out := out + [rows.value];
      if counts'[k] == 1 {
        chunks' := chunks' - {k};
      }
      counts' := counts'[k := counts'[k] - 1];
    }
    assert column[|column|..] + later == later;
    AfterNothing(out, Good([]));
    r := Good(out);
  }

  lemma AfterNothing<T>(done: seq<T>, rest: Unpacked<seq<T>>)
    ensures After([], rest) == rest && After(done, Good([])) == Good(done)
  {
    assert done + [] == done;
    if rest.Good? {
      assert [] + rest.value == rest.value;
    }
  }

  lemma AfterAfter<T>(done: seq<T>, x: T, rest: Unpacked<seq<T>>)
    ensures After(done, After([x], rest)) == After(done + [x], rest)
  {
    if rest.Good? {
      assert done + ([x] + rest.value) == done + [x] + rest.value;
    }
  }

  lemma {:induction false} CountConcat(a: seq<Slice>, b: seq<Slice>, k: nat)
    ensures Count(a + b, k) == Count(a, k) + Count(b, k)
  {
    if a == [] {
      assert a + b == b;
    } else {
      assert (a + b)[1..] == a[1..] + b;
      CountConcat(a[1..], b, k);
    }
  }

  /** Counts the uses of every chunk. */
  method CountUses(columns: seq<seq<Slice>>) returns (counts: map<nat, nat>)
    ensures forall k :: Count(AllSlices(columns), k) == if k in counts then counts[k] else 0
  {
    counts := map[];
    ghost var all := AllSlices(columns);
    for i := 0 to |columns|
      invariant forall k :: Count(all, k) == Count(AllSlices(columns[i..]), k) + if k in counts then counts[k] else 0
    {
      var column := columns[i];
      assert columns[i..][1..] == columns[i + 1..];
      ghost var later := AllSlices(columns[i + 1..]);
      for j := 0 to |column|
        invariant forall k :: Count(all, k) == Count(column[j..] + later, k) + if k in counts then counts[k] else 0
      {
        var key := column[j].chunkKey;
        assert (column[j..] + later)[1..] == column[j + 1..] + later;
        counts := counts[key := 1 + if key in counts then counts[key] else 0];
      }
      assert column[|column|..] + later == later;
    }
  }

  function MapOf(chunks: seq<Chunk>): map<nat, Chunk> {
    if chunks == [] then map[]
    else
      var n := |chunks| - 1;
      MapOf(chunks[..n])[chunks[n].key := chunks[n]]
  }

  /** The chunks of an entry are taken from the back, so the first of several with
      one key stays. */
  function TakeFromBack(m: map<nat, Chunk>, chunks: seq<Chunk>): map<nat, Chunk>
    decreases |chunks|
  {
    if chunks == [] then m
    else
      var n := |chunks| - 1;
      TakeFromBack(m[chunks[n].key := chunks[n]], chunks[..n])
  }

  function ReceivedMap(m: map<nat, Chunk>, parts: seq<Entry>): map<nat, Chunk>
    decreases |parts|
  {
    if parts == [] then m else ReceivedMap(TakeFromBack(m, parts[0].chunks), parts[1..])
  }

  /** A key names one chunk. */
  ghost predicate KeyedByChunk(chunks: seq<Chunk>) {
    forall a, b :: a in chunks && b in chunks && a.key == b.key ==> a == b
  }

  /** The map holds exactly the given chunks by key. */
  ghost predicate Holds(m: map<nat, Chunk>, chunks: seq<Chunk>) {
    && (forall c :: c in chunks ==> c.key in m && m[c.key] == c)
    && (forall k :: k in m ==> m[k] in chunks && m[k].key == k)
  }

  lemma HoldsIsUnique(a: map<nat, Chunk>, b: map<nat, Chunk>, chunks: seq<Chunk>)
    requires Holds(a, chunks) && Holds(b, chunks)
    ensures a == b
  {
    assert forall k :: k in a ==> k in b && a[k] == b[k];
    assert forall k :: k in b ==> k in a;
  }

  lemma {:induction false} MapOfHolds(chunks: seq<Chunk>)
    requires KeyedByChunk(chunks)
    ensures Holds(MapOf(chunks), chunks)
  {
    if chunks != [] {
      var n := |chunks| - 1;
      assert chunks == chunks[..n] + [chunks[n]];
      MapOfHolds(chunks[..n]);
    }
  }

  lemma {:induction false} TakeFromBackHolds(m: map<nat, Chunk>, before: seq<Chunk>, chunks: seq<Chunk>)
    requires Holds(m, before) && KeyedByChunk(before + chunks)
    ensures Holds(TakeFromBack(m, chunks), before + chunks)
    decreases chunks
  {
    if chunks == [] {
      assert before + chunks == before;
    } else {
      var n := |chunks| - 1;
      var last, init := chunks[n], chunks[..n];
      assert chunks == init + [last];
      SameChunks(before, init, last);
      assert Holds(m[last.key := last], before + [last]);
      TakeFromBackHolds(m[last.key := last], before + [last], init);
      HoldsSame(TakeFromBack(m, chunks), before + [last] + init, before + chunks);
    }
  }

  lemma SameChunks(before: seq<Chunk>, init: seq<Chunk>, last: Chunk)
    ensures forall c :: c in before + [last] + init <==> c in before + (init + [last])
  {
  }

  lemma HoldsSame(m: map<nat, Chunk>, a: seq<Chunk>, b: seq<Chunk>)
    requires Holds(m, a) && forall c :: c in a <==> c in b
    ensures Holds(m, b)
  {
  }

  lemma {:induction false} ReceivedMapHolds(m: map<nat, Chunk>, before: seq<Chunk>, parts: seq<Entry>)
    requires Holds(m, before) && KeyedByChunk(before + ChunksOf(parts))
    ensures Holds(ReceivedMap(m, parts), before + ChunksOf(parts))
    decreases parts
  {
    if parts == [] {
      assert before + ChunksOf(parts) == before;
    } else {
      var first, rest := parts[0].chunks, ChunksOf(parts[1..]);
      assert before + ChunksOf(parts) == before + first + rest;
      TakeFromBackHolds(m, before, first);
      ReceivedMapHolds(TakeFromBack(m, first), before + first, parts[1..]);
    }
  }

  /** The loop over the received entries. */
  method GatherChunks(parts: seq<Entry>) returns (chunks: map<nat, Chunk>)
    ensures chunks == ReceivedMap(map[], parts)
  {
    chunks := map[];
    for i := 0 to |parts|
      invariant ReceivedMap(chunks, parts[i..]) == ReceivedMap(map[], parts)
    {
      assert parts[i..][1..] == parts[i + 1..];
      ghost var before := chunks;
      var data := parts[i].chunks;
      while data != []
        invariant TakeFromBack(chunks, data) == TakeFromBack(before, parts[i].chunks)
        decreases |data|
      {
        var chunk := data[|data| - 1];
        chunks := chunks[chunk.key := chunk];
        data := data[..|data| - 1];
      }
    }
  }

  /** AsSample: unpacks all columns, freeing each chunk after its last use. The
      result is that of the simple form that frees nothing. */
  method AsSample(parts: seq<Entry>) returns (r: Unpacked<seq<seq<Rows>>>)
    requires parts != [] && parts[0].info.Some?
    ensures r == UnpackColumns(ReceivedMap(map[], parts), parts[0].info.value.columns)
  {
    var columns := parts[0].info.value.columns;
    var m := GatherChunks(parts);
    var counts := CountUses(columns);
    var chunks := m;
    var out: seq<seq<Rows>> := [];
    assert columns[0..] == columns;
    AfterNothing([], UnpackColumns(m, columns));
    for i := 0 to |columns|
      invariant Retained(m, chunks, counts, AllSlices(columns[i..]))
      invariant UnpackColumns(m, columns) == After(out, UnpackColumns(m, columns[i..]))
    {
      assert columns[i..][1..] == columns[i + 1..];
      var rows;
      rows, chunks, counts := UnpackAndRelease(m, chunks, counts, columns[i], AllSlices(columns[i + 1..]));
      if rows.Bad? {
        return Bad(rows.status);
      }
      AfterAfter(out, rows.value, UnpackColumns(m, columns[i + 1..]));
      out := out + [rows.value];
    }
    AfterNothing(out, Good([]));
    r := Good(out);
  }

  // ---------------------------------------------------------------------
  // What the client gets
  // ---------------------------------------------------------------------

  ghost predicate Named(slice: Slice, chunks: seq<Chunk>) {
    exists c :: c in chunks && c.key == slice.chunkKey
  }

  /** The rows are those of the chunk with the slice's key, from the slice's offset on and
      as many as the slice is long. */
  ghost predicate AreRowsOf(rows: Rows, slice: Slice, c: Chunk) {
    && c.key == slice.chunkKey && slice.offset >= 0
    && |rows| == slice.length && slice.offset + slice.length <= |c.rows|
    && forall r :: 0 <= r < |rows| ==> rows[r] == c.rows[slice.offset + r]
  }

  ghost predicate Fits(slice: Slice, chunks: seq<Chunk>) {
    exists c :: c in chunks && c.key == slice.chunkKey && slice.offset >= 0 && slice.offset + slice.length <= |c.rows|
  }

  ghost predicate SliceArrives(slice: Slice, chunks: seq<Chunk>, rows: Rows) {
    exists c :: c in chunks && AreRowsOf(rows, slice, c)
  }

  /** One entry for each slice, in order. */
  ghost predicate ColumnArrives(column: seq<Slice>, chunks: seq<Chunk>, out: seq<Rows>) {
    |out| == |column| && forall j :: 0 <= j < |column| ==> SliceArrives(column[j], chunks, out[j])
  }

  /** Slice `j` is the first that names a missing chunk, or else leaves its chunk. */
  ghost predicate ColumnFails(column: seq<Slice>, chunks: seq<Chunk>, j: nat, status: Status) {
    && j < |column| && !Fits(column[j], chunks) && (forall k :: 0 <= k < j ==> Fits(column[k], chunks))
    && status == if Named(column[j], chunks) then InvalidArgument else Internal
  }

  ghost predicate Arrives(columns: seq<seq<Slice>>, chunks: seq<Chunk>, out: seq<seq<Rows>>) {
    |out| == |columns| && forall i :: 0 <= i < |columns| ==> ColumnArrives(columns[i], chunks, out[i])
  }

  ghost predicate AllFit(column: seq<Slice>, chunks: seq<Chunk>) {
    forall j :: 0 <= j < |column| ==> Fits(column[j], chunks)
  }

  ghost predicate Fails(columns: seq<seq<Slice>>, chunks: seq<Chunk>, i: nat, j: nat, status: Status) {
    && i < |columns| && ColumnFails(columns[i], chunks, j, status)
    && forall k :: 0 <= k < i ==> AllFit(columns[k], chunks)
  }

  lemma SliceMeans(m: map<nat, Chunk>, chunks: seq<Chunk>, slice: Slice)
    requires Holds(m, chunks)
    ensures match UnpackSlice(m, slice)
      case Good(rows) => SliceArrives(slice, chunks, rows)
      case Bad(status) => ColumnFails([slice], chunks, 0, status)
  {
    if slice.chunkKey in m {
      var c := m[slice.chunkKey];
      assert c in chunks && c.key == slice.chunkKey;
      assert forall d :: d in chunks && d.key == slice.chunkKey ==> d == c;
      if UnpackSlice(m, slice).Good? {
        assert AreRowsOf(UnpackSlice(m, slice).value, slice, c);
      }
    }
  }

  /** Either every slice arrives, or the error is that of the first that fails. */
  ghost predicate ColumnResult(column: seq<Slice>, chunks: seq<Chunk>, r: Unpacked<seq<Rows>>) {
    match r
    case Good(out) => ColumnArrives(column, chunks, out)
    case Bad(status) => exists j: nat :: ColumnFails(column, chunks, j, status)
  }

  lemma {:induction false} ColumnMeans(m: map<nat, Chunk>, chunks: seq<Chunk>, column: seq<Slice>)
    requires Holds(m, chunks)
    ensures ColumnResult(column, chunks, UnpackColumn(m, column))
  {
    if column != [] {
      var slice, rest := column[0], column[1..];
      assert column == [slice] + rest;
      SliceMeans(m, chunks, slice);
      ColumnMeans(m, chunks, rest);
      match UnpackSlice(m, slice) {
        case Bad(status) =>
          FirstFails(chunks, slice, rest, status);
        case Good(rows) =>
          FirstArrived(chunks, slice, rows, rest, UnpackColumn(m, rest));
      }
    }
  }

  lemma FirstFails(chunks: seq<Chunk>, slice: Slice, rest: seq<Slice>, status: Status)
    requires ColumnFails([slice], chunks, 0, status)
    ensures ColumnResult([slice] + rest, chunks, Bad(status))
  {
    assert ([slice] + rest)[0] == [slice][0];
    assert ColumnFails([slice] + rest, chunks, 0, status);
  }

  lemma FirstArrived(chunks: seq<Chunk>, slice: Slice, rows: Rows, rest: seq<Slice>, later: Unpacked<seq<Rows>>)
    requires SliceArrives(slice, chunks, rows)
    requires ColumnResult(rest, chunks, later)
    ensures ColumnResult([slice] + rest, chunks, After([rows], later))
  {
    var column := [slice] + rest;
    match later {
      case Good(out) =>
        forall j | 0 <= j < |column|
          ensures SliceArrives(column[j], chunks, ([rows] + out)[j])
        {
          if j > 0 {
            assert column[j] == rest[j - 1] && ([rows] + out)[j] == out[j - 1];
          }
        }
      case Bad(status) =>
        var j: nat :| ColumnFails(rest, chunks, j, status);
        forall k | 0 <= k < j + 1 ensures Fits(column[k], chunks) {
          assert k > 0 ==> column[k] == rest[k - 1];
        }
        assert column[j + 1] == rest[j];
        assert ColumnFails(column, chunks, j + 1, status);
    }
  }

  ghost predicate Result(columns: seq<seq<Slice>>, chunks: seq<Chunk>, r: Unpacked<seq<seq<Rows>>>) {
    match r
    case Good(out) => Arrives(columns, chunks, out)
    case Bad(status) => exists i: nat, j: nat :: Fails(columns, chunks, i, j, status)
  }

  lemma {:induction false} ColumnsMean(m: map<nat, Chunk>, chunks: seq<Chunk>, columns: seq<seq<Slice>>)
    requires Holds(m, chunks)
    ensures Result(columns, chunks, UnpackColumns(m, columns))
  {
    if columns != [] {
      var column, rest := columns[0], columns[1..];
      assert columns == [column] + rest;
      ColumnMeans(m, chunks, column);
      ColumnsMean(m, chunks, rest);
      match UnpackColumn(m, column) {
        case Bad(status) =>
          FirstColumnFails(chunks, column, rest, status);
        case Good(out) =>
          FirstColumnArrived(chunks, column, out, rest, UnpackColumns(m, rest));
      }
    }
  }

  lemma FirstColumnFails(chunks: seq<Chunk>, column: seq<Slice>, rest: seq<seq<Slice>>, status: Status)
    requires ColumnResult(column, chunks, Bad(status))
    ensures Result([column] + rest, chunks, Bad(status))
  {
    var j: nat :| ColumnFails(column, chunks, j, status);
    assert ([column] + rest)[0] == column;
    assert Fails([column] + rest, chunks, 0, j, status);
  }

  lemma ArrivedFits(column: seq<Slice>, chunks: seq<Chunk>, out: seq<Rows>)
    requires ColumnArrives(column, chunks, out)
    ensures AllFit(column, chunks)
  {
    forall j | 0 <= j < |column| ensures Fits(column[j], chunks) {
      assert SliceArrives(column[j], chunks, out[j]);
    }
  }

  lemma FirstColumnArrived(chunks: seq<Chunk>, column: seq<Slice>, first: seq<Rows>, rest: seq<seq<Slice>>,
                           later: Unpacked<seq<seq<Rows>>>)
    requires ColumnArrives(column, chunks, first)
    requires Result(rest, chunks, later)
    ensures Result([column] + rest, chunks, After([first], later))
  {
    var columns := [column] + rest;
    match later {
      case Good(out) =>
        forall i | 0 <= i < |columns| ensures ColumnArrives(columns[i], chunks, ([first] + out)[i]) {
          if i > 0 {
            assert columns[i] == rest[i - 1] && ([first] + out)[i] == out[i - 1];
          }
        }
      case Bad(status) =>
        var i: nat, j: nat :| Fails(rest, chunks, i, j, status);
        ArrivedFits(column, chunks, first);
        forall k | 0 <= k < i + 1 ensures AllFit(columns[k], chunks) {
          assert k > 0 ==> columns[k] == rest[k - 1];
        }
        assert columns[i + 1] == rest[i];
        assert Fails(columns, chunks, i + 1, j, status);
    }
  }

  /** The round trip of one sample: whatever entries carry it, the client unpacks
      from them what it would unpack from the item itself. That is, for each slice of
      each column the rows of its chunk that it names; or the error of the first slice
      that names a missing chunk or leaves its chunk, if there is one. */
  method ReceiveSample(entries: seq<Entry>, ghost s: Sample) returns (r: Unpacked<seq<seq<Rows>>>)
    requires Encodes(entries, s) && KeyedByChunk(s.chunks)
    ensures r == UnpackColumns(MapOf(s.chunks), s.info.columns)
    ensures r.Good? <==> forall i :: 0 <= i < |s.info.columns| ==> AllFit(s.info.columns[i], s.chunks)
    ensures Result(s.info.columns, s.chunks, r)
  {
    MapOfHolds(s.chunks);
    ColumnsMean(MapOf(s.chunks), s.chunks, s.info.columns);
    GoodMeansAllFit(MapOf(s.chunks), s.chunks, s.info.columns);
    r := ReceiveEntries(entries, s);
  }

  lemma GoodMeansAllFit(m: map<nat, Chunk>, chunks: seq<Chunk>, columns: seq<seq<Slice>>)
    requires Holds(m, chunks)
    ensures UnpackColumns(m, columns).Good? <==> forall i :: 0 <= i < |columns| ==> AllFit(columns[i], chunks)
  {
    ColumnsMean(m, chunks, columns);
    var r := UnpackColumns(m, columns);
    if r.Good? {
      forall i | 0 <= i < |columns| ensures AllFit(columns[i], chunks) {
        ArrivedFits(columns[i], chunks, r.value[i]);
      }
    }
  }

  method ReceiveEntries(entries: seq<Entry>, ghost s: Sample) returns (r: Unpacked<seq<seq<Rows>>>)
    requires Encodes(entries, s) && KeyedByChunk(s.chunks)
    ensures r == UnpackColumns(MapOf(s.chunks), s.info.columns)
  {
    assert s.chunks[..|s.chunks|] == s.chunks;
    assert [] + ChunksOf(entries) == s.chunks;
    ReceivedMapHolds(map[], [], entries);
    MapOfHolds(s.chunks);
    HoldsIsUnique(ReceivedMap(map[], entries), MapOf(s.chunks), s.chunks);
    r := AsSample(entries);
  }
}

/** The server's reactor for one SampleStream. */
module SampleReactor {

  import opened Status
  import opened SampleCodec

  const MAX_QUEUED_RESPONSES: nat := 3
  const INITIAL_BATCH_SIZE: nat := 64

  lemma FlattenMove(output: seq<Response>, responses: seq<Response>)
    requires responses != []
    ensures Flatten(output + [responses[0]]) + Flatten(responses[1..]) == Flatten(output) + Flatten(responses)
  {
    FlattenSnoc(output, responses[0]);
    assert Flatten(output) + responses[0] + Flatten(responses[1..])
        == Flatten(output) + (responses[0] + Flatten(responses[1..]));
  }

  /** The response queue, and what has been written. */
  ghost predicate Delivers(output: seq<Response>, responses: seq<Response>, groups: seq<seq<Entry>>, samples: seq<Sample>) {
    EncodesAll(groups, samples) && Flatten(output) + Flatten(responses) == Flatten(groups)
  }

  /** When nothing is queued any more, the client collects exactly the entries of all
      samples, in order, with nothing left over; before that, it has collected the
      first of them. */
  lemma DeliveredInOrder(output: seq<Response>, responses: seq<Response>, groups: seq<seq<Entry>>, samples: seq<Sample>)
    requires Delivers(output, responses, groups, samples)
    ensures Collect([], Flatten(output)).complete <= groups
    ensures responses == [] ==> Collect([], Flatten(output)) == Groups(groups, [])
  {
    CollectInvertsEmit(groups, samples);
    CollectIsMonotone([], Flatten(output), Flatten(responses));
    assert Flatten(output) + [] == Flatten(output);
  }

  lemma PopKeepsPacked(responses: seq<Response>, size: nat)
    requires Packed(responses, size) && responses != []
    ensures Packed(responses[1..], size) && WithinLimit(responses[0])
  {
    var rest := responses[1..];
    forall i | 0 <= i < |rest| ensures WithinLimit(rest[i]) {
      assert WithinLimit(responses[i + 1]);
    }
    forall i | 0 < i < |rest| - 1 ensures ResponseSize(rest[i]) > MAX_RESPONSE_SIZE {
      assert ResponseSize(responses[i + 1]) > MAX_RESPONSE_SIZE;
    }
  }

  /** How far the current request is. */
  datatype Task = Task(
    requested: nat,
    fetched: nat,
    lastBatch: nat,
    waiting: bool,     // waiting_for_enqueued_sample_
    batch: nat)        // size of the request the table is serving

  /** At most one batch is being sampled, and never more than is still wanted. */
  predicate TaskOk(task: Task) {
    && task.fetched <= task.requested && task.lastBatch >= 1
    && (task.waiting ==> 1 <= task.batch <= task.requested - task.fetched)
  }

  predicate Done(task: Task) {
    task.fetched == task.requested && !task.waiting
  }

  class SampleReactor {
    var responses: seq<Response>   // responses_to_send_
    var size: nat                  // current_response_size_bytes_
    var stillReading: bool
    var isFinished: bool
    var finalStatus: Status        // what Finish was called with
    var readInFlight: bool
    var writing: bool              // a write of the front response is under way
    var output: seq<Response>      // responses that have been written
    var task: Task

    ghost var asked: nat                    // number of samples asked for by all requests
    ghost var samples: seq<Sample>          // all samples received from the table
    ghost var groups: seq<seq<Entry>>       // the entries that carry them

    /** While the stream is open, a write is under way exactly when something is
        queued; after a successful end everything has been written. */
    ghost predicate StreamOk()
      reads this
    {
      && (!isFinished ==> writing == (responses != []))
      // Compared with `true`, so that proofs take each part as a whole.
      && (!isFinished || finalStatus == Ok ==> Delivers(output, responses, groups, samples) == true)
      && (isFinished && finalStatus == Ok ==> responses == [])
      && (Packed(responses, size) && AllWithinLimit(output)) == true
    }

    /** A read is under way only between two requests, and then always unless the
        client has closed its side. A closed side means that nothing is wanted. */
    ghost predicate ReadingOk()
      reads this
    {
      && (readInFlight ==> Done(task))
      && (readInFlight && !isFinished ==> stillReading)
      && (!isFinished && stillReading && task.fetched == task.requested ==> readInFlight)
      && (!isFinished && !stillReading ==> Done(task))
      && (isFinished && finalStatus == Ok ==> Done(task))
    }

    /** Sampling only rests when nothing is wanted or the queue is full. */
    ghost predicate NeverStalls()
      reads this
    {
      !isFinished && task.fetched < task.requested ==> task.waiting || |responses| >= MAX_QUEUED_RESPONSES
    }

    /** Every sample asked for has arrived or is still to come. */
    ghost predicate Counted()
      reads this
    {
      |samples| + (task.requested - task.fetched) == asked
    }

    ghost predicate Valid()
      reads this
    {
      StreamOk() && TaskOk(task) && ReadingOk() && NeverStalls() && Counted()
    }

    constructor ()
      ensures Valid() && samples == [] && output == [] && !isFinished
      ensures readInFlight && stillReading && asked == 0
    {
      responses, output, size := [], [], 0;
      stillReading, isFinished, finalStatus, writing := true, false, Ok, false;
      task := Task(0, 0, INITIAL_BATCH_SIZE, false, 0);
      samples, groups, asked := [], [], 0;
      readInFlight := true;
    }

    /** Fails the process if the reactor is finished twice, or successfully while
        responses are queued; no caller does. */
    method SetReactorAsFinished(status: Status)
      requires !isFinished && (responses == [] || status != Ok)
      modifies `responses, `isFinished, `finalStatus
      ensures isFinished && responses == [] && finalStatus == status
    {
      responses := [];
      isFinished := true;
      finalStatus := status;
    }

    /** Starts a read unless one is under way or there is nothing more to read. */
    method MaybeStartRead()
      requires StreamOk() && TaskOk(task) && Done(task) && Counted()
      requires readInFlight && !isFinished ==> stillReading
      modifies `readInFlight
      ensures Valid()
      ensures !isFinished && stillReading ==> readInFlight
      ensures isFinished || !stillReading ==> readInFlight == old(readInFlight)
    {
      if !readInFlight && stillReading && !isFinished {
        readInFlight := true;
      }
    }

    /** Asks the table for the next batch, unless there is nothing left to ask for,
        a batch is under way, or too many responses are queued. */
    method MaybeStartSampling()
      requires StreamOk() && TaskOk(task) && ReadingOk() && Counted()
      modifies `task
      ensures Valid()
      ensures task == old(task) || (task.waiting && task == old(task).(waiting := true, batch := task.batch))
      ensures task != old(task) ==>
        && (task.batch == 2 * task.lastBatch || task.batch == task.requested - task.fetched)
        && task.batch <= 2 * task.lastBatch && task.batch <= task.requested - task.fetched
    {
      var wanted := task.requested - task.fetched;
      var next := if 2 * task.lastBatch < wanted then 2 * task.lastBatch else wanted;
      if next == 0 || task.waiting || |responses| >= MAX_QUEUED_RESPONSES {
        return;
      }
      task := task.(waiting := true, batch := next);
    }

    /** OnReadDone with ProcessIncomingRequest. A half-close ends the stream at once if
        nothing is queued, and then everything asked for has been delivered; a bad
        request ends it with an error; a good one is sampled. */
    method OnReadDone(ok: bool, numSamples: int, tableFound: bool)
      requires Valid() && readInFlight
      modifies this
      ensures Valid() && !readInFlight && samples == old(samples) && output == old(output)
      ensures old(isFinished) ==> isFinished && finalStatus == old(finalStatus) && !stillReading
      ensures !ok && !old(isFinished) ==>
        !stillReading && asked == old(asked) && (isFinished <==> old(responses) == []) && (isFinished ==> finalStatus == Ok)
      ensures ok && !old(isFinished) && numSamples <= 0 ==> isFinished && finalStatus == InvalidArgument
      ensures ok && !old(isFinished) && numSamples > 0 && !tableFound ==> isFinished && finalStatus == NotFound
      ensures ok && !old(isFinished) && numSamples > 0 && tableFound ==>
        !isFinished && task.requested == numSamples && task.fetched == 0 && asked == old(asked) + numSamples
    {
      readInFlight := false;
      if !ok || isFinished {
        stillReading := false;
        if responses == [] && !isFinished {
          SetReactorAsFinished(Ok);
        }
        return;
      }
      if numSamples <= 0 {
        SetReactorAsFinished(InvalidArgument);
        return;
      }
      if !tableFound {
        SetReactorAsFinished(NotFound);
        return;
      }
      AcceptRequest(numSamples);
    }

    /** Sampling starts for a request that names an existing table. */
    method AcceptRequest(numSamples: nat)
      requires StreamOk() && TaskOk(task) && Done(task) && Counted()
      requires !readInFlight && !isFinished && stillReading && numSamples > 0
      modifies `asked, `task
      ensures Valid() && asked == old(asked) + numSamples
      ensures task.requested == numSamples && task.fetched == 0
    {
      asked := asked + numSamples;
      task := task.(fetched := 0, requested := numSamples);
      MaybeStartSampling();
    }

    /** Queues one sample behind the responses that are already there. */
    method Enqueue(s: Sample, alreadyWriting: bool)
      requires s.chunks != [] && Packed(responses, size)
      modifies `responses, `size, `samples, `groups
      ensures samples == old(samples) + [s] && responses != [] && Packed(responses, size)
      ensures old(Delivers(output, responses, groups, samples)) ==> Delivers(output, responses, groups, samples)
      ensures alreadyWriting && old(responses) != [] ==> responses[0] == old(responses)[0]
    {
      ghost var before, entries;
      before := responses;
      responses, size, entries := ProcessSample(responses, size, s, alreadyWriting);
      DeliversOneMore(output, before, responses, groups, samples, s, entries);
      groups, samples := groups + [entries], samples + [s];
    }

    method EnqueueAll(more: seq<Sample>, alreadyWriting: bool)
      requires Packed(responses, size) && forall i :: 0 <= i < |more| ==> more[i].chunks != []
      modifies `responses, `size, `samples, `groups
      ensures samples == old(samples) + more && Packed(responses, size)
      ensures more != [] ==> responses != []
      ensures old(Delivers(output, responses, groups, samples)) ==> Delivers(output, responses, groups, samples)
      ensures alreadyWriting && old(responses) != [] ==> responses != [] && responses[0] == old(responses)[0]
    {
      for i := 0 to |more|
        invariant samples == old(samples) + more[..i] && Packed(responses, size)
        invariant i > 0 ==> responses != []
        invariant old(Delivers(output, responses, groups, samples)) ==> Delivers(output, responses, groups, samples)
        invariant alreadyWriting && old(responses) != [] ==> responses != [] && responses[0] == old(responses)[0]
      {
        Enqueue(more[i], alreadyWriting);
        assert more[..i + 1] == more[..i] + [more[i]];
      }
      assert more[..|more|] == more;
    }

    /** The callback of the table. By the promise of the table worker, an OK answer
        holds between one sample and as many as were asked for. The response that
        is being written is not changed. */
    method SamplingDone(status: Status, more: seq<Sample>)
      requires Valid() && task.waiting
      requires status == Ok ==> 1 <= |more| <= task.batch
      requires forall i :: 0 <= i < |more| ==> more[i].chunks != []
      modifies this
      ensures Valid() && output == old(output) && asked == old(asked)
      ensures samples == old(samples) + if status == Ok then more else []
      ensures status == Ok ==>
        && task.fetched == old(task).fetched + |more|
        && task.lastBatch == if task.requested == task.fetched then old(task).lastBatch else |more|
      ensures !isFinished && old(writing) ==> responses != [] && old(responses) != [] && responses[0] == old(responses)[0]
      ensures status != Ok && !old(isFinished) ==> isFinished && finalStatus == status
      ensures status == Ok || old(isFinished) ==> isFinished == old(isFinished) && finalStatus == old(finalStatus)
    {
      task := task.(waiting := false);
      if status != Ok {
        if !isFinished {
          SetReactorAsFinished(status);
        }
        return;
      }
      QueueSamples(more);
      Continue(|more|);
    }

    /** Once a request is complete the next one is read, else its next batch is asked
        for. */
    method Continue(batch: nat)
      requires StreamOk() && TaskOk(task) && Counted() && !task.waiting && batch >= 1
      requires !readInFlight && (!isFinished ==> stillReading) && (isFinished ==> finalStatus != Ok)
      modifies `readInFlight, `task
      ensures Valid() && task.requested == old(task).requested && task.fetched == old(task).fetched
      ensures task.lastBatch == if task.requested == task.fetched then old(task).lastBatch else batch
    {
      if task.requested == task.fetched {
        MaybeStartRead();
      } else {
        task := task.(lastBatch := batch);
        MaybeStartSampling();
      }
    }

    /** Queues the samples of one batch, and starts to write if nothing was queued. */
    method QueueSamples(more: seq<Sample>)
      requires StreamOk() && TaskOk(task) && Counted() && 1 <= |more| <= task.requested - task.fetched
      requires forall i :: 0 <= i < |more| ==> more[i].chunks != []
      requires isFinished ==> finalStatus != Ok
      modifies `responses, `size, `samples, `groups, `task, `writing
      ensures StreamOk() && Counted() && task == old(task).(fetched := old(task).fetched + |more|)
      ensures samples == old(samples) + more
      ensures old(responses) != [] ==> responses != [] && responses[0] == old(responses)[0]
    {
      task := task.(fetched := task.fetched + |more|);
      var alreadyWriting := responses != [];
      EnqueueAll(more, alreadyWriting);
      if !alreadyWriting && !isFinished {
        writing := true;
      }
    }

    /** The front response has been written; the next write starts. The last write
        after a half-close ends the stream. */
    method OnWriteDone(ok: bool)
      requires Valid() && writing
      modifies this
      ensures Valid() && samples == old(samples) && asked == old(asked)
      ensures old(isFinished) ==> isFinished && finalStatus == old(finalStatus) && output == old(output)
      ensures !old(isFinished) && !ok ==> isFinished && finalStatus == Internal && output == old(output)
      ensures !old(isFinished) && ok ==>
        && old(responses) != [] && output == old(output) + [old(responses)[0]]
        && (isFinished <==> !old(stillReading) && |old(responses)| == 1) && (isFinished ==> finalStatus == Ok)
    {
      if !isFinished {
        if !ok {
          SetReactorAsFinished(Internal);
        } else {
          PopWritten();
          if !stillReading && responses == [] {
            SetReactorAsFinished(Ok);
          }
        }
      }
      MaybeStartSampling();
    }

    method PopWritten()
      requires StreamOk() && !isFinished && responses != []
      modifies `output, `responses, `writing
      ensures StreamOk() && responses == old(responses)[1..] && output == old(output) + [old(responses)[0]]
    {
      FlattenMove(output, responses);
      PopKeepsPacked(responses, size);
      output, responses := output + [responses[0]], responses[1..];
      writing := responses != [];
    }

    method OnCancel()
      requires Valid()
      modifies this
      ensures Valid() && isFinished && !stillReading && output == old(output)
      ensures finalStatus == if old(isFinished) then old(finalStatus) else Internal
    {
      stillReading := false;
      if !isFinished {
        SetReactorAsFinished(Internal);
      }
    }

    /** While the stream is open the client has collected the entries of the first
        samples, in order; once all is written, of all samples. */
    lemma DeliversSamples()
      requires Valid() && !isFinished
      ensures EncodesAll(groups, samples)
      ensures Collect([], Flatten(output)).complete <= groups
      ensures responses == [] ==> Collect([], Flatten(output)) == Groups(groups, [])
    {
      DeliveredInOrder(output, responses, groups, samples);
    }

    /** A stream that ended successfully delivered exactly the samples that were asked
        for: no batch is outstanding, and the client collects all their entries, in
        order, with nothing left over. */
    lemma SuccessMeansAllDelivered()
      requires Valid() && isFinished && finalStatus == Ok
      ensures !task.waiting && responses == [] && |samples| == asked
      ensures EncodesAll(groups, samples) && Collect([], Flatten(output)) == Groups(groups, [])
      ensures AllWithinLimit(output)
    {
      DeliveredInOrder(output, responses, groups, samples);
    }
  }

  lemma DeliversOneMore(output: seq<Response>, before: seq<Response>, responses: seq<Response>,
                        groups: seq<seq<Entry>>, samples: seq<Sample>, s: Sample, entries: seq<Entry>)
    requires Encodes(entries, s) && Flatten(responses) == Flatten(before) + entries
    ensures Delivers(output, before, groups, samples) ==> Delivers(output, responses, groups + [entries], samples + [s])
  {
    FlattenSnoc(groups, entries);
    assert Flatten(output) + (Flatten(before) + entries) == Flatten(output) + Flatten(before) + entries;
  }
}
