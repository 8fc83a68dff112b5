/** `Chunker`: buffers the cells of one column, turns them into chunks, and keeps
    the references to the most recent cells alive. */
module ChunkerSpec {

  import opened Status
  import opened DeltaEncoding
  import opened Suffixes

  /** The column: every tensor has this type and shape, so its content is a row of
      `width` words below `modulus`. */
  datatype Spec = Spec(dtype: nat, shape: seq<nat>, width: nat, modulus: nat, integral: bool)

  datatype Tensor = Tensor(dtype: nat, shape: seq<nat>, data: Row)

  /** A batch of one row. */
  function Batched(spec: Spec, row: Row): Tensor {
    Tensor(spec.dtype, [1] + spec.shape, row)
  }

  /** A cell reference; `id` stands for its identity. */
  datatype Ref = Ref(id: nat, chunkKey: nat, offset: nat, episode: nat, step: int)

  datatype Range = Range(episode: nat, start: int, end: int, sparse: bool)

  datatype Chunk = Chunk(key: nat, rows: seq<Row>, deltaEncoded: bool, range: Range)

  datatype Options = Options(maxChunkLength: int, numKeepAliveRefs: int, deltaEncode: bool, compressionDisabled: bool)

  predicate ValidOptions(o: Options) {
    && o.numKeepAliveRefs > 0
    && (!o.compressionDisabled ==> 0 < o.maxChunkLength <= o.numKeepAliveRefs)
  }

  /** `ConstantChunkerOptions::Clone`: the flag for delta encoding is not passed on,
      so the clone has its default. */
  function CloneConstant(o: Options): Options
    requires !o.compressionDisabled
  {
    Options(o.maxChunkLength, o.numKeepAliveRefs, false, false)
  }

  /** A clone is the same options exactly when they do not delta encode. */
  lemma CloneIsExactIff(o: Options)
    requires !o.compressionDisabled
    ensures CloneConstant(o) == o <==> !o.deltaEncode
    ensures ValidOptions(CloneConstant(o)) <==> ValidOptions(o)
  {
  }

  datatype State = State(
    options: Options,
    buffer: seq<Row>,
    uncompressed: seq<Row>,
    offset: nat,
    nextKey: nat,
    activeRefs: seq<Ref>,
    chunkOf: map<nat, Chunk>,   // the chunk that each cell reference points to
    created: nat)

  /** All references ever handed out and their contents, by id. `unstored` are the
      cells that never get a chunk: dropped by Reset or appended uncompressed. */
  datatype History = History(refs: seq<Ref>, data: seq<Row>, unstored: set<nat>)

  // ---------------------------------------------------------------------
  // Chunk contents
  // ---------------------------------------------------------------------

  /** Delta coding leaves batches of scalars and other types alone. */
  predicate Coded(spec: Spec) {
    spec.shape != [] && spec.integral
  }

  ghost function EncodeBatch(spec: Spec, rows: seq<Row>, delta: bool): seq<Row>
    requires Fits(rows, spec.width, spec.modulus)
  {
    if delta && Coded(spec) then Encode(rows, spec.width, spec.modulus) else rows
  }

  ghost function DecodeBatch(spec: Spec, rows: seq<Row>, delta: bool): seq<Row>
    requires Fits(rows, spec.width, spec.modulus)
  {
    if delta && Coded(spec) then Decode(rows, spec.width, spec.modulus) else rows
  }

  /** Unpacking row `offset` of the chunk gives `row`. */
  ghost predicate Reads(spec: Spec, chunk: Chunk, offset: nat, row: Row) {
    && Fits(chunk.rows, spec.width, spec.modulus)
    && offset < |chunk.rows|
    && |DecodeBatch(spec, chunk.rows, chunk.deltaEncoded)| == |chunk.rows|
    && DecodeBatch(spec, chunk.rows, chunk.deltaEncoded)[offset] == row
  }

  lemma EncodedReads(spec: Spec, rows: seq<Row>, delta: bool, chunk: Chunk)
    requires Fits(rows, spec.width, spec.modulus)
    requires chunk.rows == EncodeBatch(spec, rows, delta) && chunk.deltaEncoded == delta
    ensures forall i :: 0 <= i < |rows| ==> Reads(spec, chunk, i, rows[i])
  {
    if delta && Coded(spec) {
      DecodeEncode(rows, spec.width, spec.modulus);
    }
  }

  // ---------------------------------------------------------------------
  // Invariant
  // ---------------------------------------------------------------------

  /** The first cell that still waits for its chunk. */
  function FirstOpen(s: State): int {
    s.created - |s.buffer|
  }

  /** References are numbered, and the active ones are the most recent. */
  ghost predicate WindowOk(spec: Spec, activeRefs: seq<Ref>, h: History) {
    && |h.refs| == |h.data|
    && (forall i :: 0 <= i < |h.refs| ==> h.refs[i].id == i)
    && Fits(h.data, spec.width, spec.modulus)
    && (forall i :: i in h.unstored ==> i < |h.refs|)
    && Suffix(activeRefs, h.refs)
  }

  /** Cell `i` waits for the chunk `key`, which starts with the cell `first`. */
  ghost predicate Waits(h: History, i: nat, key: nat, first: int)
    requires i < |h.refs|
  {
    h.refs[i].chunkKey == key && h.refs[i].offset == i - first && i !in h.unstored
  }

  /** The buffer holds the last cells, all of one episode with increasing steps,
      which will make up the next chunk. */
  ghost predicate BufferOk(buffer: seq<Row>, key: nat, h: History)
    requires |h.refs| == |h.data|
  {
    && Suffix(buffer, h.data)
    && var first := |h.refs| - |buffer|;
    && (forall i :: first <= i < |h.refs| ==> Waits(h, i, key, first))
    && IncreasingFrom(h.refs, first)
  }

  /** The cell follows its predecessor within the same episode. */
  predicate StepsUp(refs: seq<Ref>, i: nat)
    requires 0 < i < |refs|
  {
    refs[i - 1].episode == refs[i].episode && refs[i - 1].step < refs[i].step
  }

  ghost predicate IncreasingFrom(refs: seq<Ref>, first: int) {
    forall i {:trigger StepsUp(refs, i)} :: 0 <= first < i < |refs| ==> StepsUp(refs, i)
  }

  ghost predicate Increasing(refs: seq<Ref>) {
    IncreasingFrom(refs, 0)
  }

  lemma IncreasingSuffix(refs: seq<Ref>, first: nat)
    requires IncreasingFrom(refs, first) && first <= |refs|
    ensures Increasing(refs[first..])
  {
    forall i | 0 < i < |refs| - first
      ensures StepsUp(refs[first..], i)
    {
      assert StepsUp(refs, first + i);
    }
  }

  /** Cell `i` has its chunk, which reads back its content. */
  ghost predicate Stored(spec: Spec, chunkOf: map<nat, Chunk>, h: History, i: nat)
    requires i < |h.refs| == |h.data|
  {
    i in chunkOf && Reads(spec, chunkOf[i], h.refs[i].offset, h.data[i])
  }

  /** Every cell before the buffer has its chunk, and no other cell. */
  ghost predicate StoredOk(spec: Spec, chunkOf: map<nat, Chunk>, first: int, h: History)
    requires first <= |h.refs| == |h.data|
  {
    && (forall i :: i in chunkOf ==> i < first && i !in h.unstored)
    && forall i :: 0 <= i < first && i !in h.unstored ==> Stored(spec, chunkOf, h, i)
  }

  /** With compression the uncompressed queue is empty; without it the buffer is. */
  ghost predicate ModeOk(s: State) {
    && ValidOptions(s.options)
    && (if s.options.compressionDisabled then s.buffer == [] else s.uncompressed == [])
    && |s.buffer| <= |s.activeRefs| && |s.buffer| <= s.options.numKeepAliveRefs
    && |s.uncompressed| <= |s.activeRefs|
  }

  /** No earlier cell has the key of the next chunk. */
  ghost predicate KeyUnused(refs: seq<Ref>, first: int, key: nat)
    requires first <= |refs|
  {
    forall i :: 0 <= i < first ==> refs[i].chunkKey != key
  }

  /** Of the live cells, those in the uncompressed queue are the ones without a chunk
      now and later. */
  ghost predicate LiveOk(active: nat, queued: nat, h: History) {
    forall i :: |h.refs| - active <= i < |h.refs| ==> (i in h.unstored <==> i >= |h.refs| - queued)
  }

  ghost predicate Inv(spec: Spec, s: State, h: History) {
    && s.created == |h.refs|
    && WindowOk(spec, s.activeRefs, h)
    && BufferOk(s.buffer, s.nextKey, h)
    && StoredOk(spec, s.chunkOf, FirstOpen(s), h)
    && ModeOk(s)
    && Suffix(s.uncompressed, h.data)
    && LiveOk(|s.activeRefs|, |s.uncompressed|, h)
    && (s.uncompressed == [] ==> s.offset == |s.buffer| && KeyUnused(h.refs, FirstOpen(s), s.nextKey))
  }

  /** Cells of one chunk have offsets in the order in which they were appended, and the
      next cell continues the chunk that is being filled. */
  ghost predicate OffsetsOk(refs: seq<Ref>, nextKey: nat, offset: nat) {
    && (forall i, k :: 0 <= i < k < |refs| && refs[i].chunkKey == refs[k].chunkKey ==>
          refs[k].offset - refs[i].offset == k - i)
    && (forall i :: 0 <= i < |refs| && refs[i].chunkKey == nextKey ==> refs[i].offset + (|refs| - i) == offset)
  }

  function Initial(options: Options, firstKey: nat): State {
    State(options, [], [], 0, firstKey, [], map[], 0)
  }

  lemma InitialInv(spec: Spec, options: Options, firstKey: nat)
    requires ValidOptions(options)
    ensures Inv(spec, Initial(options, firstKey), History([], [], {})) && OffsetsOk([], firstKey, 0)
  {
    var s, h := Initial(options, firstKey), History([], [], {});
    EmptyWindowOk(spec, h);
    EmptyBufferOk(firstKey, h);
    assert StoredOk(spec, s.chunkOf, 0, h);
  }

  lemma EmptyWindowOk(spec: Spec, h: History)
    requires h.refs == [] && h.data == [] && h.unstored == {}
    ensures WindowOk(spec, [], h)
  {
  }

  lemma EmptyBufferOk(key: nat, h: History)
    requires |h.refs| == |h.data|
    ensures BufferOk([], key, h)
  {
    EmptySuffix(h.data);
  }

  /** A key the generator has not produced before. */
  ghost predicate FreshKey(s: State, h: History, key: nat) {
    key != s.nextKey && forall r :: r in h.refs ==> r.chunkKey != key
  }

  // ---------------------------------------------------------------------
  // Finalizing a chunk
  // ---------------------------------------------------------------------

  function Matching(refs: seq<Ref>, key: nat): seq<Ref> {
    if refs == [] then []
    else
      var n := |refs| - 1;
      Matching(refs[..n], key) + if refs[n].chunkKey == key then [refs[n]] else []
  }

  lemma {:induction false} MatchingNone(refs: seq<Ref>, key: nat)
    requires forall r :: r in refs ==> r.chunkKey != key
    ensures Matching(refs, key) == []
  {
    if refs != [] {
      MatchingNone(refs[..|refs| - 1], key);
    }
  }

  lemma {:induction false} MatchingAll(a: seq<Ref>, b: seq<Ref>, key: nat)
    requires forall r :: r in a ==> r.chunkKey != key
    requires forall r :: r in b ==> r.chunkKey == key
    ensures Matching(a + b, key) == b
  {
    if b == [] {
      assert a + b == a;
      MatchingNone(a, key);
    } else {
      var n := |b| - 1;
      assert (a + b)[..|a + b| - 1] == a + b[..n];
      MatchingAll(a, b[..n], key);
      assert b == b[..n] + [b[n]];
    }
  }

  /** The sequence range of a chunk; the sanity check fails only for cells of
      different episodes or steps that do not increase. */
  method BuildRange(refs: seq<Ref>, key: nat) returns (status: Status, range: Range)
    ensures var cells := Matching(refs, key);
      Increasing(cells) && cells != [] ==>
        && status == Ok
        && range.episode == cells[0].episode
        && range.start == cells[0].step && range.end == cells[|cells| - 1].step
        && (range.sparse <==> range.end - range.start + 1 != |cells|)
  {
    range := Range(0, 0, 0, false);
    var found := false;
    for i := 0 to |refs|
      invariant var cells := Matching(refs[..i], key);
        && (found <==> cells != [])
        && (found ==>
              && range.episode == cells[0].episode == cells[|cells| - 1].episode
              && range.start == cells[0].step && range.end == cells[|cells| - 1].step
              && range.end - range.start + 1 >= |cells|
              && (range.sparse <==> range.end - range.start + 1 != |cells|))
    {
      var ref := refs[i];
      assert refs[..i + 1][..i] == refs[..i];
      if ref.chunkKey != key {
        continue;
      }
      ghost var before, after := Matching(refs[..i], key), Matching(refs[..i + 1], key);
      assert after == before + [ref];
      if !found {
        range := Range(ref.episode, ref.step, ref.step, false);
        found := true;
      } else {
        if range.episode != ref.episode || range.end >= ref.step {
          MatchingPrefix(refs, i + 1, key);
          ghost var cells, n := Matching(refs, key), |before|;
          assert cells[..n + 1] == before + [ref];
          assert cells[n - 1] == before[n - 1] && cells[n] == ref;
          assert Increasing(cells) ==> StepsUp(cells, n);
          return Internal, range;
        }
        range := range.(sparse := range.sparse || ref.step != range.end + 1, end := ref.step);
      }
    }
    assert refs[..|refs|] == refs;
    status := Ok;
  }

  lemma {:induction false} MatchingPrefix(refs: seq<Ref>, n: nat, key: nat)
    requires n <= |refs|
    ensures Matching(refs[..n], key) <= Matching(refs, key)
    decreases |refs|
  {
    if n == |refs| {
      assert refs[..n] == refs;
    } else {
      var init := refs[..|refs| - 1];
      MatchingPrefix(init, n, key);
      assert init[..n] == refs[..n];
    }
  }

  /** Hands the finalized chunk to every active reference with its key. */
  method AttachChunk(refs: seq<Ref>, chunk: Chunk, chunkOf: map<nat, Chunk>) returns (chunkOf': map<nat, Chunk>)
    ensures forall r :: r in refs && r.chunkKey == chunk.key ==> r.id in chunkOf' && chunkOf'[r.id] == chunk
    ensures forall i :: i in chunkOf' ==> i in chunkOf || exists r :: r in refs && r.chunkKey == chunk.key && r.id == i
    ensures forall i :: i in chunkOf && (forall r :: r in refs && r.chunkKey == chunk.key ==> r.id != i) ==>
      i in chunkOf' && chunkOf'[i] == chunkOf[i]
  {
    chunkOf' := chunkOf;
    for i := 0 to |refs|
      invariant forall r :: r in refs[..i] && r.chunkKey == chunk.key ==> r.id in chunkOf' && chunkOf'[r.id] == chunk
      invariant forall j :: j in chunkOf' ==> j in chunkOf || exists r :: r in refs && r.chunkKey == chunk.key && r.id == j
      invariant forall j :: j in chunkOf && (forall r :: r in refs && r.chunkKey == chunk.key ==> r.id != j) ==>
        j in chunkOf' && chunkOf'[j] == chunkOf[j]
    {
      if refs[i].chunkKey == chunk.key {
        chunkOf' := chunkOf'[refs[i].id := chunk];
      }
    }
  }
}

module Chunker {

  import opened Status
  import opened DeltaEncoding
  import opened Suffixes
  import opened ChunkerSpec

  /** The active references with the key of the chunk are those of the buffer. */
  lemma BufferMatches(spec: Spec, s: State, h: History)
    requires Inv(spec, s, h) && s.buffer != []
    ensures Matching(s.activeRefs, s.nextKey) == h.refs[FirstOpen(s)..]
    ensures Increasing(h.refs[FirstOpen(s)..])
    ensures forall r :: r in s.activeRefs && r.chunkKey == s.nextKey ==> FirstOpen(s) <= r.id < s.created
    ensures forall i :: FirstOpen(s) <= i < s.created ==> h.refs[i] in s.activeRefs
  {
    var first := FirstOpen(s);
    forall i | first <= i < s.created ensures h.refs[i].chunkKey == s.nextKey {
      assert Waits(h, i, s.nextKey, first);
    }
    MatchingSuffix(s.activeRefs, h.refs, first, s.nextKey);
    IncreasingSuffix(h.refs, first);
  }

  lemma MatchingSuffix(active: seq<Ref>, refs: seq<Ref>, first: nat, key: nat)
    requires Suffix(active, refs) && |refs| - |active| <= first <= |refs|
    requires KeyUnused(refs, first, key)
    requires forall i :: first <= i < |refs| ==> refs[i].chunkKey == key
    requires forall i :: 0 <= i < |refs| ==> refs[i].id == i
    ensures Matching(active, key) == refs[first..]
    ensures forall r :: r in active && r.chunkKey == key ==> first <= r.id < |refs|
    ensures forall i :: first <= i < |refs| ==> refs[i] in active
  {
    var lo := |refs| - |active|;
    var settled, open := refs[lo..first], refs[first..];
    assert active == settled + open;
    assert forall k :: 0 <= k < |settled| ==> settled[k] == refs[lo + k];
    assert forall k :: 0 <= k < |open| ==> open[k] == refs[first + k];
    MatchingAll(settled, open, key);
    forall i | first <= i < |refs| ensures refs[i] in active {
      assert open[i - first] == refs[i];
    }
  }

  /** The state after the buffered cells got their chunk. */
  function Flushed(s: State, chunkOf: map<nat, Chunk>, freshKey: nat): State {
    s.(buffer := [], chunkOf := chunkOf, nextKey := freshKey, offset := 0)
  }

  /** What handing out the chunk means: exactly the buffered cells point to it. */
  ghost predicate Attached(s: State, h: History, chunk: Chunk, chunkOf': map<nat, Chunk>)
    requires |h.refs| == s.created
  {
    && (forall i :: i in chunkOf' ==> i in s.chunkOf || FirstOpen(s) <= i < s.created)
    && (forall i :: FirstOpen(s) <= i < s.created ==> i in chunkOf' && chunkOf'[i] == chunk)
    && (forall i :: 0 <= i < FirstOpen(s) ==>
          (i in chunkOf' <==> i in s.chunkOf) && (i in s.chunkOf ==> chunkOf'[i] == s.chunkOf[i]))
  }

  lemma FlushKeepsInv(spec: Spec, s: State, h: History, chunk: Chunk, chunkOf': map<nat, Chunk>, freshKey: nat)
    requires Inv(spec, s, h) && s.buffer != [] && FreshKey(s, h, freshKey)
    requires Attached(s, h, chunk, chunkOf')
    requires Fits(s.buffer, spec.width, spec.modulus)
    requires chunk.rows == EncodeBatch(spec, s.buffer, chunk.deltaEncoded)
    ensures Inv(spec, Flushed(s, chunkOf', freshKey), h)
  {
    EncodedReads(spec, s.buffer, chunk.deltaEncoded, chunk);
    EmptySuffix(h.data);
    AttachedAreStored(spec, s, h, chunk, chunkOf');
  }

  lemma AttachedAreStored(spec: Spec, s: State, h: History, chunk: Chunk, chunkOf': map<nat, Chunk>)
    requires s.created == |h.refs| == |h.data| && |s.buffer| <= s.created
    requires BufferOk(s.buffer, s.nextKey, h) && StoredOk(spec, s.chunkOf, FirstOpen(s), h)
    requires Attached(s, h, chunk, chunkOf')
    requires forall i :: 0 <= i < |s.buffer| ==> Reads(spec, chunk, i, s.buffer[i])
    ensures StoredOk(spec, chunkOf', s.created, h)
  {
    var first := FirstOpen(s);
    forall i | 0 <= i < s.created && i !in h.unstored
      ensures Stored(spec, chunkOf', h, i)
    {
      if i >= first {
        assert Waits(h, i, s.nextKey, first);
        SuffixAt(s.buffer, h.data, i);
      } else {
        assert Stored(spec, s.chunkOf, h, i);
      }
    }
    forall i | i in chunkOf'
      ensures i < s.created && i !in h.unstored
    {
      if i >= first {
        assert Waits(h, i, s.nextKey, first);
      }
    }
  }

  /** The chunk of the buffered cells, with the range of their steps. */
  method MakeChunk(spec: Spec, s: State, ghost h: History) returns (status: Status, chunk: Chunk)
    requires Inv(spec, s, h) && s.buffer != []
    ensures status == Ok && chunk.key == s.nextKey && chunk.deltaEncoded == s.options.deltaEncode
    ensures Fits(s.buffer, spec.width, spec.modulus)
    ensures chunk.rows == EncodeBatch(spec, s.buffer, chunk.deltaEncoded)
    ensures chunk.rows == if s.options.deltaEncode && spec.shape != [] && spec.integral
                          then Encode(s.buffer, spec.width, spec.modulus) else s.buffer
    ensures var cells := h.refs[FirstOpen(s)..];
      && chunk.range.episode == cells[0].episode
      && chunk.range.start == cells[0].step && chunk.range.end == cells[|cells| - 1].step
      && (chunk.range.sparse <==> chunk.range.end - chunk.range.start + 1 != |cells|)
  {
    BufferMatches(spec, s, h);
    BufferFits(spec, s, h);
    var rows := s.buffer;
    if s.options.deltaEncode && Coded(spec) {
      rows := DeltaEncode(rows, spec.width, spec.modulus, true);
    }
    var range;
    status, range := BuildRange(s.activeRefs, s.nextKey);
    chunk := Chunk(s.nextKey, rows, s.options.deltaEncode, range);
  }

  method HandOut(spec: Spec, s: State, ghost h: History, chunk: Chunk) returns (chunkOf: map<nat, Chunk>)
    requires Inv(spec, s, h) && s.buffer != [] && chunk.key == s.nextKey
    ensures Attached(s, h, chunk, chunkOf)
  {
    chunkOf := AttachChunk(s.activeRefs, chunk, s.chunkOf);
    BufferMatches(spec, s, h);
    forall i | FirstOpen(s) <= i < s.created
      ensures i in chunkOf && chunkOf[i] == chunk
    {
      assert Waits(h, i, s.nextKey, FirstOpen(s)) && h.refs[i] in s.activeRefs;
    }
  }

  /** The reference that the next cell gets. */
  function NextRef(s: State, episode: nat, step: int): Ref {
    Ref(s.created, s.nextKey, s.offset, episode, step)
  }

  lemma PushKeepsOffsets(refs: seq<Ref>, nextKey: nat, offset: nat, ref: Ref)
    requires OffsetsOk(refs, nextKey, offset) && ref.chunkKey == nextKey && ref.offset == offset
    ensures OffsetsOk(refs + [ref], nextKey, offset + 1)
  {
  }

  lemma FreshKeyOffsets(s: State, h: History, freshKey: nat)
    requires FreshKey(s, h, freshKey)
    ensures OffsetsOk(h.refs, s.nextKey, s.offset) ==> OffsetsOk(h.refs, freshKey, 0)
  {
  }

  function Pushed(s: State, row: Row, episode: nat, step: int): State {
    s.(activeRefs := s.activeRefs + [NextRef(s, episode, step)], offset := s.offset + 1, created := s.created + 1,
       buffer := if s.options.compressionDisabled then s.buffer else s.buffer + [row],
       uncompressed := if s.options.compressionDisabled then s.uncompressed + [row] else s.uncompressed)
  }

  function Added(h: History, ref: Ref, row: Row, stored: bool): History {
    History(h.refs + [ref], h.data + [row], h.unstored + if stored then {} else {|h.refs|})
  }

  function PushedHistory(s: State, h: History, row: Row, episode: nat, step: int): History {
    Added(h, NextRef(s, episode, step), row, !s.options.compressionDisabled)
  }

  /** A cell can join the buffer when it is of the same episode and a later step. */
  predicate Joins(s: State, episode: nat, step: int)
    requires s.buffer == [] || s.activeRefs != []
  {
    s.buffer != [] ==>
      var last := s.activeRefs[|s.activeRefs| - 1];
      last.episode == episode && last.step < step
  }

  /** Without compression only a repeated or earlier step of the same episode is
      refused. */
  predicate Follows(s: State, episode: nat, step: int)
    requires s.uncompressed == [] || s.activeRefs != []
  {
    s.uncompressed != [] ==>
      var last := s.activeRefs[|s.activeRefs| - 1];
      !(last.step >= step && last.episode == episode)
  }

  predicate Accepts(s: State, episode: nat, step: int)
    requires s.buffer + s.uncompressed == [] || s.activeRefs != []
  {
    if s.options.compressionDisabled then Follows(s, episode, step) else Joins(s, episode, step)
  }

  /** With compression a cell is accepted into an open chunk only as a later step of its
      episode; without, only a step that is not later than the last one of the same
      episode is refused. */
  lemma AcceptsIff(spec: Spec, s: State, h: History, episode: nat, step: int)
    requires Inv(spec, s, h)
    ensures s.buffer + s.uncompressed != [] ==> s.activeRefs != []
    ensures Accepts(s, episode, step) <==>
      if s.options.compressionDisabled then
        s.uncompressed != [] ==> var last := s.activeRefs[|s.activeRefs| - 1]; last.episode != episode || last.step < step
      else
        s.buffer != [] ==> var last := s.activeRefs[|s.activeRefs| - 1]; last.episode == episode && last.step < step
  {
  }

  lemma AddKeepsWindow(spec: Spec, active: seq<Ref>, h: History, ref: Ref, row: Row, stored: bool)
    requires WindowOk(spec, active, h) && ref.id == |h.refs| && RowFits(row, spec.width, spec.modulus)
    ensures WindowOk(spec, active + [ref], Added(h, ref, row, stored))
  {
    SuffixSnoc(active, h.refs, ref);
  }

  lemma AddKeepsBuffer(buffer: seq<Row>, key: nat, h: History, ref: Ref, row: Row)
    requires |h.refs| == |h.data| && BufferOk(buffer, key, h)
    requires forall i :: i in h.unstored ==> i < |h.refs|
    requires ref.chunkKey == key && ref.offset == |buffer|
    requires buffer != [] ==> h.refs[|h.refs| - 1].episode == ref.episode && h.refs[|h.refs| - 1].step < ref.step
    ensures BufferOk(buffer + [row], key, Added(h, ref, row, true))
  {
    var h', first := Added(h, ref, row, true), |h.refs| - |buffer|;
    SuffixSnoc(buffer, h.data, row);
    IncreasingSnoc(h.refs, first, ref);
    forall i | first <= i < |h'.refs|
      ensures Waits(h', i, key, first)
    {
      assert i < |h.refs| ==> Waits(h, i, key, first);
    }
  }

  lemma IncreasingSnoc(refs: seq<Ref>, first: nat, r: Ref)
    requires IncreasingFrom(refs, first)
    requires first < |refs| ==> refs[|refs| - 1].episode == r.episode && refs[|refs| - 1].step < r.step
    ensures IncreasingFrom(refs + [r], first)
  {
    forall i | first < i < |refs| + 1
      ensures StepsUp(refs + [r], i)
    {
      assert i < |refs| ==> StepsUp(refs, i);
    }
  }

  /** A cell that will never be stored moves the boundary past it. */
  lemma AddKeepsStored(spec: Spec, chunkOf: map<nat, Chunk>, first: int, h: History, ref: Ref, row: Row, stored: bool)
    requires first <= |h.refs| == |h.data| && StoredOk(spec, chunkOf, first, h)
    requires !stored ==> first == |h.refs|
    ensures StoredOk(spec, chunkOf, if stored then first else first + 1, Added(h, ref, row, stored))
  {
    var h' := Added(h, ref, row, stored);
    forall i | 0 <= i < first && i !in h'.unstored
      ensures Stored(spec, chunkOf, h', i)
    {
      assert Stored(spec, chunkOf, h, i);
    }
  }

  lemma PushKeepsInv(spec: Spec, s: State, h: History, row: Row, episode: nat, step: int)
    requires Inv(spec, s, h) && !s.options.compressionDisabled && RowFits(row, spec.width, spec.modulus)
    requires |s.buffer| < s.options.numKeepAliveRefs && Joins(s, episode, step)
    ensures Inv(spec, Pushed(s, row, episode, step), PushedHistory(s, h, row, episode, step))
  {
    var ref := NextRef(s, episode, step);
    AddKeepsWindow(spec, s.activeRefs, h, ref, row, true);
    AddKeepsBuffer(s.buffer, s.nextKey, h, ref, row);
    AddKeepsStored(spec, s.chunkOf, FirstOpen(s), h, ref, row, true);
    EmptySuffix(h.data + [row]);
  }

  lemma PushUncompressedKeepsInv(spec: Spec, s: State, h: History, row: Row, episode: nat, step: int)
    requires Inv(spec, s, h) && s.options.compressionDisabled && RowFits(row, spec.width, spec.modulus)
    ensures Inv(spec, Pushed(s, row, episode, step), PushedHistory(s, h, row, episode, step))
  {
    var ref := NextRef(s, episode, step);
    AddKeepsWindow(spec, s.activeRefs, h, ref, row, false);
    AddKeepsStored(spec, s.chunkOf, FirstOpen(s), h, ref, row, false);
    EmptySuffix(h.data + [row]);
    SuffixSnoc(s.uncompressed, h.data, row);
  }

  function Trimmed(s: State): State {
    var n := if s.options.numKeepAliveRefs < 0 then 0 else s.options.numKeepAliveRefs;
    s.(activeRefs := Last(s.activeRefs, n), uncompressed := Last(s.uncompressed, n))
  }

  lemma TrimKeepsInv(spec: Spec, s: State, h: History)
    requires Inv(spec, s, h)
    ensures Inv(spec, Trimmed(s), h)
    ensures |Trimmed(s).activeRefs| <= s.options.numKeepAliveRefs
  {
    LastIsSuffix(s.activeRefs, h.refs, s.options.numKeepAliveRefs);
    LastIsSuffix(s.uncompressed, h.data, s.options.numKeepAliveRefs);
  }

  /** Drops the references and uncompressed cells that exceed the maximum age. */
  method Trim(s: State) returns (s': State)
    requires s.options.numKeepAliveRefs > 0
    ensures s' == Trimmed(s)
  {
    s' := s;
    while |s'.activeRefs| > s.options.numKeepAliveRefs
      invariant s' == s.(activeRefs := s'.activeRefs)
      invariant |s'.activeRefs| <= |s.activeRefs| && s'.activeRefs == s.activeRefs[|s.activeRefs| - |s'.activeRefs|..]
      invariant |s'.activeRefs| < |s.activeRefs| ==> |s'.activeRefs| >= s.options.numKeepAliveRefs
    {
      s' := s'.(activeRefs := s'.activeRefs[1..]);
    }
    while |s'.uncompressed| > s.options.numKeepAliveRefs
      invariant s' == s.(activeRefs := Last(s.activeRefs, s.options.numKeepAliveRefs), uncompressed := s'.uncompressed)
      invariant |s'.uncompressed| <= |s.uncompressed|
      invariant s'.uncompressed == s.uncompressed[|s.uncompressed| - |s'.uncompressed|..]
      invariant |s'.uncompressed| < |s.uncompressed| ==> |s'.uncompressed| >= s.options.numKeepAliveRefs
    {
      s' := s'.(uncompressed := s'.uncompressed[1..]);
    }
  }

  /** Position of a reference counted from the newest active one. */
  method AgeOf(refs: seq<Ref>, id: nat) returns (age: nat)
    ensures age <= |refs|
    ensures age < |refs| ==> refs[|refs| - 1 - age].id == id
    ensures forall k :: |refs| - age <= k < |refs| ==> refs[k].id != id
  {
    age := 0;
    while age < |refs| && refs[|refs| - 1 - age].id != id
      invariant age <= |refs|
      invariant forall k :: |refs| - age <= k < |refs| ==> refs[k].id != id
    {
      age := age + 1;
    }
  }

  lemma AgeOfCell(spec: Spec, s: State, h: History, id: nat, age: nat)
    requires s.created == |h.refs| && WindowOk(spec, s.activeRefs, h) && id < s.created && age <= |s.activeRefs|
    requires age < |s.activeRefs| ==> s.activeRefs[|s.activeRefs| - 1 - age].id == id
    requires forall k :: |s.activeRefs| - age <= k < |s.activeRefs| ==> s.activeRefs[k].id != id
    ensures age == if id >= s.created - |s.activeRefs| then s.created - 1 - id else |s.activeRefs|
  {
    var n := |s.activeRefs|;
    var lo := s.created - n;
    assert forall k :: 0 <= k < n ==> s.activeRefs[k] == h.refs[lo + k];
    assert id >= lo ==> s.activeRefs[id - lo].id == id;
  }

  /** The oldest state that Reset leaves: nothing is buffered or active. */
  function Emptied(s: State, freshKey: nat): State {
    s.(buffer := [], uncompressed := [], offset := 0, nextKey := freshKey, activeRefs := [])
  }

  /** The cells in the buffer will never get a chunk. */
  ghost function Dropped(s: State, h: History): History
    requires 0 <= FirstOpen(s) <= |h.refs|
  {
    h.(unstored := h.unstored + set r | r in h.refs[FirstOpen(s)..] :: r.id)
  }

  lemma DroppedIds(spec: Spec, s: State, h: History)
    requires s.created == |h.refs| && WindowOk(spec, s.activeRefs, h) && |s.buffer| <= s.created
    ensures forall i :: i in Dropped(s, h).unstored <==> i in h.unstored || FirstOpen(s) <= i < s.created
  {
    var first := FirstOpen(s);
    var open := h.refs[first..];
    assert forall k :: 0 <= k < |open| ==> open[k] == h.refs[first + k];
    forall i | first <= i < s.created
      ensures i in Dropped(s, h).unstored
    {
      assert open[i - first].id == i;
    }
  }

  lemma ResetKeepsInv(spec: Spec, s: State, h: History, freshKey: nat)
    requires Inv(spec, s, h) && FreshKey(s, h, freshKey)
    ensures Inv(spec, Emptied(s, freshKey), Dropped(s, h))
  {
    DroppedIds(spec, s, h);
    assert h.refs[s.created..] == [] && h.data[s.created..] == [];
  }

  /** The reference is the newest of the live ones. */
  predicate NewestRef(s: State, ref: Ref) {
    s.activeRefs != [] && s.activeRefs[|s.activeRefs| - 1] == ref
  }

  /** The buffer after one more cell; a full one has become a chunk. */
  function BufferAfter(s: State, row: Row): seq<Row> {
    if |s.buffer| + 1 >= s.options.maxChunkLength then [] else s.buffer + [row]
  }

  /** With compression a step that is given again is accepted exactly when its chunk
      is already closed; without compression it is always refused. */
  lemma RepeatAcceptedIff(spec: Spec, s: State, h: History, ref: Ref)
    requires Inv(spec, s, h) && NewestRef(s, ref)
    requires s.options.compressionDisabled ==> s.uncompressed != []
    ensures Accepts(s, ref.episode, ref.step) <==> !s.options.compressionDisabled && s.buffer == []
  {
  }

  /** What a flush leaves alone. */
  ghost predicate SameWindow(s: State, s': State) {
    s'.options == s.options && s'.activeRefs == s.activeRefs && s'.uncompressed == s.uncompressed && s'.created == s.created
  }

  /** Turns the buffer into a chunk and hands it to the buffered cells. The check of
      the sequence range never fails. */
  method FlushState(spec: Spec, s: State, ghost h: History, freshKey: nat) returns (status: Status, s': State)
    requires Inv(spec, s, h) && FreshKey(s, h, freshKey)
    ensures Inv(spec, s', h) && SameWindow(s, s')
    ensures OffsetsOk(h.refs, s.nextKey, s.offset) ==> OffsetsOk(h.refs, s'.nextKey, s'.offset)
    ensures status == if s.options.compressionDisabled then FailedPrecondition else Ok
    ensures status == Ok ==> s'.buffer == []
    ensures status != Ok || s.buffer == [] ==> s' == s
    ensures s'.nextKey == s.nextKey || s'.nextKey == freshKey
  {
    if s.options.compressionDisabled {
      return FailedPrecondition, s;
    }
    if s.buffer == [] {
      return Ok, s;
    }
    var chunk;
    status, chunk := MakeChunk(spec, s, h);
    if status != Ok {
      return status, s;
    }
    var chunkOf := HandOut(spec, s, h, chunk);
    FlushKeepsInv(spec, s, h, chunk, chunkOf, freshKey);
    FreshKeyOffsets(s, h, freshKey);
    s' := Flushed(s, chunkOf, freshKey);
  }

  /** Buffers the cell, and closes the chunk once it is full. */
  method PushState(spec: Spec, s: State, ghost h: History, row: Row, episode: nat, step: int, freshKey: nat)
    returns (status: Status, s': State)
    requires Inv(spec, s, h) && FreshKey(s, h, freshKey) && RowFits(row, spec.width, spec.modulus)
    requires !s.options.compressionDisabled && |s.buffer| < s.options.numKeepAliveRefs && Joins(s, episode, step)
    requires OffsetsOk(h.refs, s.nextKey, s.offset)
    ensures var h' := PushedHistory(s, h, row, episode, step);
      Inv(spec, s', h') && OffsetsOk(h'.refs, s'.nextKey, s'.offset)
    ensures status == Ok && s'.buffer == BufferAfter(s, row) && SameWindow(Pushed(s, row, episode, step), s')
    ensures s'.nextKey == s.nextKey || s'.nextKey == freshKey
  {
    PushKeepsInv(spec, s, h, row, episode, step);
    PushKeepsOffsets(h.refs, s.nextKey, s.offset, NextRef(s, episode, step));
    status, s' := Ok, Pushed(s, row, episode, step);
    if |s'.buffer| >= s.options.maxChunkLength {
      status, s' := FlushState(spec, s', PushedHistory(s, h, row, episode, step), freshKey);
    }
  }

  class Chunker {
    const spec: Spec
    var s: State
    ghost var h: History

    ghost predicate Valid()
      reads this
    {
      && Inv(spec, s, h)
      && |s.activeRefs| <= s.options.numKeepAliveRefs
      && |s.buffer| < s.options.numKeepAliveRefs
      && OffsetsOk(h.refs, s.nextKey, s.offset)
    }

    constructor (spec: Spec, options: Options, firstKey: nat)
      requires ValidOptions(options)
      ensures Valid() && h == History([], [], {}) && this.spec == spec
      ensures s == Initial(options, firstKey)
    {
      this.spec := spec;
      s := Initial(options, firstKey);
      h := History([], [], {});
      new;
      InitialInv(spec, options, firstKey);
    }

    /** Appends one cell. A full buffer becomes a chunk before references that
        have exceeded their age are dropped; no others are. */
    method Append(tensor: Tensor, episode: nat, step: int, freshKey: nat) returns (status: Status, ref: Ref)
      requires Valid() && FreshKey(s, h, freshKey)
      requires tensor.dtype == spec.dtype && tensor.shape == spec.shape ==> RowFits(tensor.data, spec.width, spec.modulus)
      modifies this
      ensures Valid()
      ensures status ==
        if tensor.dtype != spec.dtype || tensor.shape != spec.shape then InvalidArgument
        else if old(Accepts(s, episode, step)) then Ok else FailedPrecondition
      ensures status != Ok ==> s == old(s) && h == old(h)
      ensures status == Ok ==>
        && h == PushedHistory(old(s), old(h), tensor.data, episode, step)
        && ref == Ref(|old(h).refs|, old(s).nextKey, old(s).offset, episode, step) && NewestRef(s, ref)
        && h.refs == old(h).refs + [ref] && h.data == old(h).data + [tensor.data]
        && s.activeRefs == Last(old(s).activeRefs + [ref], old(s).options.numKeepAliveRefs)
        && (s.options.compressionDisabled ==> s == Trimmed(Pushed(old(s), tensor.data, episode, step)))
        && (!s.options.compressionDisabled ==>
              && |s.buffer| < s.options.maxChunkLength
              && s.buffer == (if |old(s).buffer| + 1 >= old(s).options.maxChunkLength then [] else old(s).buffer + [tensor.data])
              && (s.nextKey == old(s).nextKey || s.nextKey == freshKey))
      ensures s.options == old(s).options
    {
      ref := NextRef(s, episode, step);
      if tensor.dtype != spec.dtype || tensor.shape != spec.shape {
        return InvalidArgument, ref;
      }
      if s.options.compressionDisabled {
        status := AppendUncompressed(tensor.data, episode, step);
        return;
      }
      if !Joins(s, episode, step) {
        return FailedPrecondition, ref;
      }
      status := AppendCompressed(tensor.data, episode, step, freshKey);
    }

    method AppendCompressed(row: Row, episode: nat, step: int, freshKey: nat) returns (status: Status)
      requires Valid() && FreshKey(s, h, freshKey) && RowFits(row, spec.width, spec.modulus)
      requires !s.options.compressionDisabled && Joins(s, episode, step)
      modifies this
      ensures Valid() && status == Ok && s.options == old(s).options
      ensures h == PushedHistory(old(s), old(h), row, episode, step)
      ensures NewestRef(s, NextRef(old(s), episode, step))
      ensures s.activeRefs == Last(old(s).activeRefs + [NextRef(old(s), episode, step)], old(s).options.numKeepAliveRefs)
      ensures |s.buffer| < s.options.maxChunkLength && s.buffer == BufferAfter(old(s), row)
      ensures s.nextKey == old(s).nextKey || s.nextKey == freshKey
    {
      status := PushAndFlush(row, episode, step, freshKey);
      if status != Ok {
        return;
      }
      DropOld();
    }

    /** Buffers the cell, and closes the chunk once it is full. */
    method PushAndFlush(row: Row, episode: nat, step: int, freshKey: nat) returns (status: Status)
      requires Valid() && FreshKey(s, h, freshKey) && RowFits(row, spec.width, spec.modulus)
      requires !s.options.compressionDisabled && Joins(s, episode, step)
      modifies this
      ensures status == Ok && Inv(spec, s, h) && OffsetsOk(h.refs, s.nextKey, s.offset)
      ensures h == PushedHistory(old(s), old(h), row, episode, step)
      ensures SameWindow(Pushed(old(s), row, episode, step), s) && s.buffer == BufferAfter(old(s), row)
      ensures s.nextKey == old(s).nextKey || s.nextKey == freshKey
    {
      ghost var grown := PushedHistory(s, h, row, episode, step);
      status, s := PushState(spec, s, h, row, episode, step, freshKey);
      h := grown;
    }

    /** Drops the references that have exceeded their age. */
    method DropOld()
      requires Inv(spec, s, h) && |s.buffer| < s.options.numKeepAliveRefs && s.activeRefs != []
      requires OffsetsOk(h.refs, s.nextKey, s.offset)
      modifies `s
      ensures Valid() && s == Trimmed(old(s)) && NewestRef(s, old(s).activeRefs[|old(s).activeRefs| - 1])
    {
      TrimKeepsInv(spec, s, h);
      LastKeepsNewest(s.activeRefs, s.options.numKeepAliveRefs);
      s := Trim(s);
    }

    method AppendUncompressed(row: Row, episode: nat, step: int) returns (status: Status)
      requires Valid() && s.options.compressionDisabled && RowFits(row, spec.width, spec.modulus)
      modifies this
      ensures Valid() && s.options == old(s).options
      ensures status == if old(Follows(s, episode, step)) then Ok else FailedPrecondition
      ensures status != Ok ==> s == old(s) && h == old(h)
      ensures status == Ok ==>
        && h == PushedHistory(old(s), old(h), row, episode, step)
        && s == Trimmed(Pushed(old(s), row, episode, step))
        && NewestRef(s, NextRef(old(s), episode, step))
    {
      if !Follows(s, episode, step) {
        return FailedPrecondition;
      }
      QueueUncompressed(row, episode, step);
      status := Ok;
    }

    method QueueUncompressed(row: Row, episode: nat, step: int)
      requires Valid() && s.options.compressionDisabled && RowFits(row, spec.width, spec.modulus)
      modifies this
      ensures Valid() && s == Trimmed(Pushed(old(s), row, episode, step))
      ensures h == PushedHistory(old(s), old(h), row, episode, step)
      ensures NewestRef(s, NextRef(old(s), episode, step))
    {
      PushUncompressedKeepsInv(spec, s, h, row, episode, step);
      PushKeepsOffsets(h.refs, s.nextKey, s.offset, NextRef(s, episode, step));
      h := PushedHistory(s, h, row, episode, step);
      s := Pushed(s, row, episode, step);
      DropOld();
    }

    /** Afterwards every live cell that was buffered has its chunk; all stay alive. */
    method Flush(freshKey: nat) returns (status: Status)
      requires Valid() && FreshKey(s, h, freshKey)
      modifies `s
      ensures Valid() && SameWindow(old(s), s)
      ensures status == if old(s).options.compressionDisabled then FailedPrecondition else Ok
      ensures status == Ok ==> s.buffer == [] && forall ref :: ref in s.activeRefs ==> ref.id in s.chunkOf
      ensures status != Ok ==> s == old(s)
    {
      status, s := FlushState(spec, s, h, freshKey);
      if status == Ok {
        LiveCellsHaveChunks(spec, s, h);
      }
    }

    /** Drops everything; cells without a chunk are lost. */
    method Reset(freshKey: nat)
      requires Valid() && FreshKey(s, h, freshKey)
      modifies this
      ensures Valid() && s == Emptied(old(s), freshKey) && s.options == old(s).options
      ensures s.activeRefs == [] && s.buffer == [] && s.uncompressed == [] && s.nextKey == freshKey && s.offset == 0
      ensures h == Dropped(old(s), old(h))
    {
      ResetKeepsInv(spec, s, h, freshKey);
      FreshKeyOffsets(s, h, freshKey);
      h := Dropped(s, h);
      s := Emptied(s, freshKey);
    }

    method ApplyConfig(options: Options) returns (status: Status)
      requires Valid()
      modifies `s
      ensures Valid()
      ensures status == if old(s).buffer != [] || old(s).uncompressed != [] then FailedPrecondition
                        else if ValidOptions(options) then Ok else InvalidArgument
      ensures s == if status == Ok then Trimmed(old(s).(options := options)) else old(s)
    {
      if s.buffer != [] || s.uncompressed != [] {
        return FailedPrecondition;
      }
      if !ValidOptions(options) {
        return InvalidArgument;
      }
      s := s.(options := options);
      assert h.data[s.created..] == [];
      TrimKeepsInv(spec, s, h);
      s := Trim(s);
      return Ok;
    }

    /** The automatic tuning moves the maximum chunk length up by two or down by
        one, always within one and the number of references kept alive. */
    method TuneMaxChunkLength(up: bool)
      requires Valid() && !s.options.compressionDisabled
      modifies `s
      ensures Valid()
      ensures 1 <= s.options.maxChunkLength <= s.options.numKeepAliveRefs
      ensures var wanted := old(s).options.maxChunkLength + if up then 2 else -1;
        s.options.maxChunkLength == if wanted < 1 then 1
                                    else if wanted > s.options.numKeepAliveRefs then s.options.numKeepAliveRefs else wanted
      ensures s == old(s).(options := old(s).options.(maxChunkLength := s.options.maxChunkLength))
    {
      var wanted := s.options.maxChunkLength + if up then 2 else -1;
      var atLeastOne := if wanted < 1 then 1 else wanted;
      var bounded := if atLeastOne > s.options.numKeepAliveRefs then s.options.numKeepAliveRefs else atLeastOne;
      s := s.(options := s.options.(maxChunkLength := bounded));
    }

    /** Reads a cell. With compression exactly the cells that were neither dropped by
        Reset nor appended uncompressed can be read, be they live or expired, buffered
        or in a chunk; without it, those in the uncompressed queue, and these keep the
        batch dimension. So a live cell can be read exactly if compression is on or it
        is in that queue. */
    method GetData(ref: Ref) returns (status: Status, tensor: Tensor)
      requires Valid() && ref in h.refs
      ensures status == Ok || status == Internal
      ensures ref in s.activeRefs ==>
        (status == Ok <==> !s.options.compressionDisabled || ref.id >= s.created - |s.uncompressed|)
      ensures !s.options.compressionDisabled ==> (status == Ok <==> ref.id !in h.unstored)
      ensures s.options.compressionDisabled ==> (status == Ok <==> ref.id >= s.created - |s.uncompressed|)
      ensures status == Ok ==>
        tensor == if s.options.compressionDisabled then Batched(spec, h.data[ref.id])
                  else Tensor(spec.dtype, spec.shape, h.data[ref.id])
    {
      LiveCellsWithoutChunk(spec, s, h, ref);
      if s.options.compressionDisabled {
        status, tensor := ReadQueue(ref.id, s.uncompressed);
        return;
      }
      if ref.id in s.chunkOf {
        tensor := ReadChunk(ref);
        return Ok, tensor;
      }
      status, tensor := ReadQueue(ref.id, s.buffer);
      tensor := tensor.(shape := tensor.shape[1..]);
    }

    /** Looks a cell up in a queue that holds the contents of the last cells, each as
        a batch of one row. */
    method ReadQueue(id: nat, queue: seq<Row>) returns (status: Status, tensor: Tensor)
      requires Valid() && id < s.created && |queue| <= |s.activeRefs|
      requires h.data[s.created - |queue|..] == queue
      ensures status == if id >= s.created - |queue| then Ok else Internal
      ensures tensor.shape == [1] + spec.shape
      ensures status == Ok ==> tensor == Batched(spec, h.data[id])
    {
      var age := AgeOf(s.activeRefs, id);
      AgeOfCell(spec, s, h, id, age);
      var index := |queue| - age - 1;
      if index < 0 {
        return Internal, Batched(spec, []);
      }
      assert h.data[s.created - |queue|..][index] == h.data[id];
      return Ok, Batched(spec, queue[index]);
    }

    /** Unpacks the chunk of a cell and slices the cell out of it. */
    method ReadChunk(ref: Ref) returns (tensor: Tensor)
      requires Valid() && ref in h.refs && ref.id in s.chunkOf
      ensures tensor == Tensor(spec.dtype, spec.shape, h.data[ref.id])
    {
      assert h.refs[ref.id] == ref && Reads(spec, s.chunkOf[ref.id], ref.offset, h.data[ref.id]);
      var chunk := s.chunkOf[ref.id];
      var rows := chunk.rows;
      if chunk.deltaEncoded && Coded(spec) {
        rows := DeltaEncode(rows, spec.width, spec.modulus, false);
      }
      tensor := Tensor(spec.dtype, spec.shape, rows[ref.offset]);
    }
  }

  /** Among the live cells, those that never get a chunk are in the uncompressed queue. */
  lemma LiveCellsWithoutChunk(spec: Spec, s: State, h: History, ref: Ref)
    requires Inv(spec, s, h) && ref in h.refs
    ensures ref.id < s.created && h.refs[ref.id] == ref
    ensures ref in s.activeRefs <==> ref.id >= s.created - |s.activeRefs|
    ensures ref in s.activeRefs ==> (ref.id in h.unstored <==> ref.id >= s.created - |s.uncompressed|)
  {
    var lo := s.created - |s.activeRefs|;
    assert forall k :: 0 <= k < |s.activeRefs| ==> s.activeRefs[k] == h.refs[lo + k];
    if ref.id >= lo {
      assert s.activeRefs[ref.id - lo] == ref;
    }
  }

  lemma LiveCellsHaveChunks(spec: Spec, s: State, h: History)
    requires Inv(spec, s, h) && !s.options.compressionDisabled && s.buffer == []
    ensures forall ref :: ref in s.activeRefs ==> ref.id in s.chunkOf
  {
    forall ref | ref in s.activeRefs ensures ref.id in s.chunkOf {
      assert ref in h.refs;
      LiveCellsWithoutChunk(spec, s, h, ref);
      assert Stored(spec, s.chunkOf, h, ref.id);
    }
  }

  lemma BufferFits(spec: Spec, s: State, h: History)
    requires Inv(spec, s, h)
    ensures Fits(s.buffer, spec.width, spec.modulus)
  {
    forall r | r in s.buffer ensures RowFits(r, spec.width, spec.modulus) {
      var i :| 0 <= i < |s.buffer| && s.buffer[i] == r;
      assert h.data[FirstOpen(s) + i] == r;
    }
  }

  /** A cell that left the window of live references has its chunk. */
  lemma ExpiredCellsAreStored(spec: Spec, s: State, h: History, id: nat)
    requires Inv(spec, s, h) && id < s.created - |s.activeRefs| && id !in h.unstored
    ensures id in s.chunkOf && Reads(spec, s.chunkOf[id], h.refs[id].offset, h.data[id])
  {
  }

  /** An accepted change of the options comes when every live cell has its chunk.
      Afterwards a cell that stayed alive can be read exactly if compression is on:
      turning it off hides them all. */
  method SwitchHidesLiveCell(c: Chunker, options: Options, ref: Ref) returns (applied: Status, status: Status)
    requires c.Valid() && ref in c.s.activeRefs
    modifies c
    ensures c.Valid()
    ensures applied == Ok && ref in c.s.activeRefs ==> (status == Ok <==> !options.compressionDisabled)
  {
    assert ref in c.h.refs by {
      LiveIsKnown(c.spec, c.s, c.h, ref);
    }
    applied := c.ApplyConfig(options);
    var tensor;
    status, tensor := c.GetData(ref);
  }

  lemma LiveIsKnown(spec: Spec, s: State, h: History, ref: Ref)
    requires Inv(spec, s, h) && ref in s.activeRefs
    ensures ref in h.refs
  {
    var k :| 0 <= k < |s.activeRefs| && s.activeRefs[k] == ref;
    assert h.refs[s.created - |s.activeRefs| + k] == ref;
  }
}
