/** The InsertStream protocol between `TrajectoryWriter` and the insert reactor of
    the server, as a state machine over the steps of the stream worker, the
    server, the network and the application.

    The client remembers in `streamed` which chunks it believes the server to
    hold. The server drops every chunk that is not listed in the keep keys of a
    message with items, and rejects a message that refers to a chunk it lacks or
    asks it to keep one. */
module InsertStream {

  import opened Status

  type ChunkKey = nat

  type Column = nat

  /** An item and the chunk keys of the cells that it references. */
  datatype Item = Item(key: Key, refs: seq<ChunkKey>)

  datatype Message = Message(chunks: seq<ChunkKey>, items: seq<Item>, keep: set<ChunkKey>)

  function Refs(item: Item): set<ChunkKey> {
    set c | c in item.refs
  }

  function ToSet<T(==)>(s: seq<T>): set<T> {
    set x | x in s
  }

  function KeysOf(items: seq<Item>): set<Key> {
    set i | i in items :: i.key
  }

  // ---------------------------------------------------------------------
  // Server
  // ---------------------------------------------------------------------

  /** One insert reactor: the chunks it holds, the items it handed to the table,
      and the status it finished with (`Ok` while it is running). */
  datatype Server = Server(chunks: set<ChunkKey>, accepted: seq<Item>, status: Status)

  const FRESH_SERVER := Server({}, [], Ok)

  function SaveChunks(srv: Server, msg: Message): Server {
    srv.(chunks := srv.chunks + ToSet(msg.chunks))
  }

  function AcceptItems(srv: Server, items: seq<Item>): Server
    decreases items
  {
    if items == [] || srv.status != Ok then srv
    else if Refs(items[0]) <= srv.chunks then
      AcceptItems(srv.(accepted := srv.accepted + [items[0]]), items[1..])
    else srv.(status := Internal)
  }

  function ReleaseChunks(srv: Server, keep: set<ChunkKey>): Server {
    var kept := srv.chunks * keep;
    srv.(chunks := kept, status := if |kept| == |keep| then Ok else FailedPrecondition)
  }

  /** ProcessIncomingRequest. */
  function Receive(srv: Server, msg: Message): Server {
    if srv.status != Ok then srv
    else if msg.chunks == [] && msg.items == [] then srv.(status := InvalidArgument)
    else
      var saved := SaveChunks(srv, msg);
      if msg.items == [] then saved
      else
        var inserted := AcceptItems(saved, msg.items);
        if inserted.status != Ok then inserted else ReleaseChunks(inserted, msg.keep)
  }

  function ReceiveAll(srv: Server, msgs: seq<Message>): Server
    decreases msgs
  {
    if msgs == [] then srv else ReceiveAll(Receive(srv, msgs[0]), msgs[1..])
  }

  lemma {:induction false} ReceiveAllSnoc(srv: Server, msgs: seq<Message>, m: Message)
    ensures ReceiveAll(srv, msgs + [m]) == Receive(ReceiveAll(srv, msgs), m)
    decreases msgs
  {
    if msgs == [] {
      assert [m][1..] == [];
    } else {
      assert (msgs + [m])[1..] == msgs[1..] + [m];
      ReceiveAllSnoc(Receive(srv, msgs[0]), msgs[1..], m);
    }
  }

  lemma {:induction false} AcceptsWhatItHolds(srv: Server, items: seq<Item>)
    requires srv.status == Ok
    requires forall i :: i in items ==> Refs(i) <= srv.chunks
    ensures AcceptItems(srv, items) == srv.(accepted := srv.accepted + items)
    decreases items
  {
    if items != [] {
      AcceptsWhatItHolds(srv.(accepted := srv.accepted + [items[0]]), items[1..]);
      assert srv.accepted + items == srv.accepted + [items[0]] + items[1..];
    }
  }

  /** The status that a stop at some item leaves. */
  lemma {:induction false} AcceptsIff(srv: Server, items: seq<Item>)
    requires srv.status == Ok
    ensures var srv' := AcceptItems(srv, items);
      && srv'.chunks == srv.chunks
      && (srv'.status == Ok <==> forall i :: i in items ==> Refs(i) <= srv.chunks)
      && (srv'.status == Ok ==> srv'.accepted == srv.accepted + items)
      && (srv'.status == Ok || srv'.status == Internal)
    decreases items
  {
    if items == [] {
      assert srv.accepted + [] == srv.accepted;
    } else if Refs(items[0]) <= srv.chunks {
      var one := srv.(accepted := srv.accepted + [items[0]]);
      AcceptsIff(one, items[1..]);
      assert items == [items[0]] + items[1..];
      assert srv.accepted + items == one.accepted + items[1..];
    } else {
      assert items[0] in items;
    }
  }

  /** When a reactor takes a message, what it then holds, and with what it fails: a
      message without content, an item whose chunks are missing, or a chunk to keep that
      is not there. After items it holds exactly the chunks that it was asked to keep. */
  lemma ReceiveIff(srv: Server, msg: Message)
    requires srv.status == Ok
    ensures var srv', held := Receive(srv, msg), srv.chunks + ToSet(msg.chunks);
      var complete := forall i :: i in msg.items ==> Refs(i) <= held;
      && srv'.status == (if msg.chunks == [] && msg.items == [] then InvalidArgument
                         else if !complete then Internal
                         else if msg.items != [] && !(msg.keep <= held) then FailedPrecondition else Ok)
      && (srv'.status == Ok ==>
            && srv'.accepted == srv.accepted + msg.items
            && srv'.chunks == if msg.items == [] then held else msg.keep)
  {
    var held := srv.chunks + ToSet(msg.chunks);
    if msg.items == [] {
      assert srv.accepted + msg.items == srv.accepted;
    } else {
      AcceptsIff(SaveChunks(srv, msg), msg.items);
      KeptIff(held, msg.keep);
    }
  }

  lemma KeptIff(held: set<ChunkKey>, keep: set<ChunkKey>)
    ensures |held * keep| == |keep| <==> keep <= held
    ensures keep <= held ==> held * keep == keep
  {
    if |held * keep| == |keep| {
      SubsetOfSameSize(held * keep, keep);
    }
    if keep <= held {
      assert held * keep == keep;
    }
  }

  lemma SubsetOfSameSize<T>(a: set<T>, b: set<T>)
    requires a <= b && |a| == |b|
    ensures a == b
  {
    assert b == a + (b - a);
  }

  // ---------------------------------------------------------------------
  // Client and network
  // ---------------------------------------------------------------------

  /** One gRPC stream: messages written and not yet read, and the reactor. */
  datatype Stream = Stream(server: Server, channel: seq<Message>)

  datatype Request = Request(chunks: seq<ChunkKey>, items: seq<Item>, size: nat)

  const EMPTY_REQUEST := Request([], [], 0)
  const MAX_REQUEST_SIZE: nat := 40 * 1024 * 1024

  /** Where the stream worker is: at the top of its loop, or looking at the
      reference with index `next` of the front item. */
  datatype Phase = Idle | Sending(next: nat)

  datatype State = State(
    queue: seq<Item>,              // write_queue_
    inFlight: map<Key, Item>,      // in_flight_items_
    ready: set<ChunkKey>,          // chunks that have been finalized
    phase: Phase,
    streamed: set<ChunkKey>,       // streamed_chunk_keys
    request: Request,
    batch: int,                    // add_items_to_batch
    stream: Stream,
    broken: seq<Stream>,            // broken streams the server may still read
    created: set<Key>,             // history: items created
    confirmed: set<Key>,           // history: items confirmed
    open: set<ChunkKey>,           // chunks that the chunkers are still filling
    alive: set<ChunkKey>,          // chunks of the active references of all chunkers
    newest: map<Column, ChunkKey>, // chunk of the newest reference of each chunker
    dropped: set<ChunkKey>,        // history: chunks given up before they were finalized
    sent: set<ChunkKey>)           // history: chunks put into a request on this stream

  const INITIAL := State([], map[], {}, Idle, {}, EMPTY_REQUEST, 0, Stream(FRESH_SERVER, []), [],
                         {}, {}, {}, {}, map[], {}, {})

  /** What the application does with the writer and its chunkers. */
  datatype AppCall =
    | BeginChunk(chunk: ChunkKey, column: Column)
    | FinalizeChunk(chunk: ChunkKey)
    | ExpireChunk(chunk: ChunkKey)
    | CreateItem(item: Item)
    | ForceFlush(ignore: nat)
    | Flush(ignore: nat)
    | EndEpisode(clear: bool)

  datatype Action =
    | App(call: AppCall)
    | StartItem
    | SendChunk(size: nat)
    | FinishItem(size: nat)
    | Deliver
    | DeliverOld(which: nat)
    | Confirm(key: Key)
    | Reconnect(requeued: seq<Item>)

  /** The items that have not been confirmed yet. */
  function Pending(s: State): nat {
    |s.queue| + |s.inFlight|
  }

  /** The chunks of the cells that some chunker or some unconfirmed item still owns. */
  function Referable(s: State): set<ChunkKey> {
    s.alive + (set i, c | 0 <= i < |s.queue| && c in s.queue[i].refs :: c)
    + (set k, c | k in s.inFlight && c in s.inFlight[k].refs :: c)
  }

  /** A column starts a chunk when its last one is finalized. An item refers to cells
      that still have an owner. A chunk expires only after it was finalized and a newer
      one was started, for a chunker always keeps its newest reference. Flush returns
      when few enough items are pending, and EndEpisode goes on only after a Flush that
      leaves none. */
  predicate Callable(s: State, call: AppCall) {
    match call
    case BeginChunk(c, col) => c !in s.open + s.ready + s.dropped && (col in s.newest ==> s.newest[col] !in s.open)
    case FinalizeChunk(c) => c in s.open
    case ExpireChunk(c) => c in s.alive && c in s.ready && c !in s.newest.Values
    case CreateItem(item) => item.key !in s.created && item.refs != [] && Refs(item) <= Referable(s)
    case ForceFlush(_) => true
    case Flush(ignore) => Pending(s) <= ignore
    case EndEpisode(_) => Pending(s) == 0
  }

  /** Sizes are those of the serialised chunk or item, which are never empty. A
      reconnect puts the in-flight items back in any order. */
  predicate Enabled(s: State, a: Action) {
    match a
    case App(call) => Callable(s, call)
    case StartItem => s.phase == Idle && s.queue != []
    case SendChunk(size) => s.phase.Sending? && s.queue != [] && s.phase.next < |s.queue[0].refs| && size > 0
    case FinishItem(size) => s.phase.Sending? && s.queue != [] && s.phase.next >= |s.queue[0].refs| && size > 0
    case Deliver => s.stream.channel != []
    case DeliverOld(i) => i < |s.broken| && s.broken[i].channel != []
    case Confirm(key) => key in KeysOf(s.stream.server.accepted)
    case Reconnect(requeued) => Distinct(requeued) && ToSet(requeued) == s.inFlight.Values
  }

  predicate Distinct(items: seq<Item>) {
    forall i, j :: 0 <= i < j < |items| ==> items[i].key != items[j].key
  }

  /** WriteIfNotEmpty: hands the request to the stream with the current keep keys. */
  function WriteIfNotEmpty(s: State): State {
    if s.request.size == 0 then s
    else
      var msg := Message(s.request.chunks, s.request.items, s.streamed);
      s.(stream := s.stream.(channel := s.stream.channel + [msg]), request := EMPTY_REQUEST)
  }

  function AddChunk(s: State, c: ChunkKey, size: nat): State {
    s.(request := s.request.(chunks := s.request.chunks + [c], size := s.request.size + size),
       streamed := s.streamed + {c}, sent := s.sent + {c})
  }

  /** One turn of the loop in SendNotAlreadySentChunks. */
  function SendRef(s: State, size: nat): State
    requires Enabled(s, SendChunk(size))
  {
    var c := s.queue[0].refs[s.phase.next];
    var moved := s.(phase := Sending(s.phase.next + 1));
    if c !in s.ready || c in s.streamed then moved
    else
      var added := AddChunk(moved, c, size);
      if added.request.size >= MAX_REQUEST_SIZE then WriteIfNotEmpty(added) else added
  }

  /** The chunks worth keeping: those of the chunkers and those of the queued
      items, leaving out the front of the queue. */
  function KeepKeys(streamed: set<ChunkKey>, alive: set<ChunkKey>, queue: seq<Item>): set<ChunkKey> {
    set c | c in streamed && (c in alive || exists i :: 1 <= i < |queue| && c in queue[i].refs)
  }

  /** Moves the front item into the request once all its chunks are streamed. The
      keep keys are computed after the item has left the queue. */
  function PopItem(s: State, size: nat): State
    requires s.queue != []
  {
    var item := s.queue[0];
    s.(queue := s.queue[1..],
       inFlight := s.inFlight[item.key := item],
       streamed := KeepKeys(s.streamed, s.alive, s.queue[1..]),
       request := s.request.(items := s.request.items + [item], size := s.request.size + size),
       batch := s.batch - 1,
       phase := Idle)
  }

  function AddItem(s: State, size: nat): State
    requires s.queue != []
  {
    var popped := PopItem(s, size);
    if popped.batch == 0 then WriteIfNotEmpty(popped) else popped
  }

  function Finalize(s: State, chunks: set<ChunkKey>): State {
    s.(open := s.open - chunks, ready := s.ready + chunks)
  }

  /** The chunks of all queued items but the last `ignore`. */
  function Wanted(queue: seq<Item>, ignore: nat): set<ChunkKey> {
    set i, c | 0 <= i < |queue| - ignore && c in queue[i].refs :: c
  }

  function Called(s: State, call: AppCall): State {
    match call
    case BeginChunk(c, col) => s.(open := s.open + {c}, alive := s.alive + {c}, newest := s.newest[col := c])
    case FinalizeChunk(c) => Finalize(s, {c})
    case ExpireChunk(c) => s.(alive := s.alive - {c})
    case CreateItem(item) => Created(s, item)
    case ForceFlush(ignore) => Finalize(s, s.open * Wanted(s.queue, ignore))
    case Flush(_) => s
    case EndEpisode(clear) => Ended(s, clear)
  }

  function Created(s: State, item: Item): State {
    s.(queue := s.queue + [item], created := s.created + {item.key})
  }

  /** The chunkers are reset, or closed. */
  function Ended(s: State, clear: bool): State {
    if clear then s.(dropped := s.dropped + s.open, open := {}, alive := {}, newest := map[]) else Finalize(s, s.open)
  }

  function Confirmed(s: State, key: Key): State {
    if key in s.inFlight then s.(inFlight := s.inFlight - {key}, confirmed := s.confirmed + {key}) else s
  }

  function Reconnected(s: State, requeued: seq<Item>): State {
    s.(queue := requeued + s.queue, inFlight := map[], phase := Idle, streamed := {}, sent := {},
       request := EMPTY_REQUEST, batch := 0,
       stream := Stream(FRESH_SERVER, []), broken := s.broken + [s.stream])
  }

  function ReceiveNext(st: Stream): Stream
    requires st.channel != []
  {
    Stream(Receive(st.server, st.channel[0]), st.channel[1..])
  }

  function Next(s: State, a: Action): State
    requires Enabled(s, a)
  {
    match a
    case App(call) => Called(s, call)
    case StartItem => s.(phase := Sending(0), batch := if s.batch == 0 then |s.queue| else s.batch)
    case SendChunk(size) => SendRef(s, size)
    case FinishItem(size) =>
      if Refs(s.queue[0]) <= s.streamed then AddItem(s, size)
      else WriteIfNotEmpty(s).(phase := Idle)
    case Deliver => s.(stream := ReceiveNext(s.stream))
    case DeliverOld(i) => s.(broken := s.broken[i := ReceiveNext(s.broken[i])])
    case Confirm(key) => Confirmed(s, key)
    case Reconnect(requeued) => Reconnected(s, requeued)
  }

  // ---------------------------------------------------------------------
  // Safety of one stream
  // ---------------------------------------------------------------------

  /** The reactor once it has read everything that was written. */
  function Eventual(st: Stream): Server {
    ReceiveAll(st.server, st.channel)
  }

  /** What the server will hold when the pending request reaches it. */
  function Coming(s: State): set<ChunkKey> {
    Eventual(s.stream).chunks + ToSet(s.request.chunks)
  }

  /** The worker is busy with items that are there. Once a batch is complete nothing is
      left in the request. */
  ghost predicate WorkerInv(s: State) {
    Batched(s) && (s.phase == Idle && s.batch == 0 ==> s.request == EMPTY_REQUEST)
  }

  ghost predicate Batched(s: State) {
    && 0 <= s.batch <= |s.queue|
    && (s.phase.Sending? ==> s.batch > 0)
    && (s.request.size == 0 <==> s.request.chunks == [] && s.request.items == [])
  }

  ghost predicate StreamInv(s: State) {
    && Eventual(s.stream).status == Ok
    && s.streamed <= Coming(s)
    && (forall i :: i in s.request.items ==> Refs(i) <= Coming(s))
    && (forall i :: 0 <= i < |s.broken| ==> Eventual(s.broken[i]).status == Ok)
  }

  lemma {:induction false} StatusIsSticky(srv: Server, msgs: seq<Message>)
    requires ReceiveAll(srv, msgs).status == Ok
    ensures srv.status == Ok
    decreases msgs
  {
    if msgs != [] {
      StatusIsSticky(Receive(srv, msgs[0]), msgs[1..]);
    }
  }

  /** A written request is accepted, and leaves the server with exactly the chunks
      the client remembers (or more, if it held no item). */
  lemma WriteIsSafe(s: State)
    requires Batched(s) && StreamInv(s)
    ensures WorkerInv(WriteIfNotEmpty(s)) && StreamInv(WriteIfNotEmpty(s))
    ensures WriteIfNotEmpty(s).request == EMPTY_REQUEST
  {
    if s.request.size != 0 {
      var msg := Message(s.request.chunks, s.request.items, s.streamed);
      var srv := Eventual(s.stream);
      ReceiveAllSnoc(s.stream.server, s.stream.channel, msg);
      var saved := SaveChunks(srv, msg);
      AcceptsWhatItHolds(saved, msg.items);
      assert saved.chunks * s.streamed == s.streamed;
    }
  }

  lemma SendRefIsSafe(s: State, size: nat)
    requires WorkerInv(s) && StreamInv(s) && Enabled(s, SendChunk(size))
    ensures WorkerInv(SendRef(s, size)) && StreamInv(SendRef(s, size))
  {
    var c := s.queue[0].refs[s.phase.next];
    if c in s.ready && c !in s.streamed {
      var added := AddChunk(s.(phase := Sending(s.phase.next + 1)), c, size);
      assert Coming(added) == Coming(s) + {c};
      WriteIsSafe(added);
    }
  }

  lemma PopItemIsSafe(s: State, size: nat)
    requires WorkerInv(s) && StreamInv(s) && s.queue != [] && s.batch > 0 && size > 0
    requires Refs(s.queue[0]) <= s.streamed
    ensures Batched(PopItem(s, size)) && StreamInv(PopItem(s, size))
    ensures WorkerInv(AddItem(s, size)) && StreamInv(AddItem(s, size))
  {
    var popped := PopItem(s, size);
    assert Coming(popped) == Coming(s);
    WriteIsSafe(popped);
  }

  /** Calls of the application leave the streams alone. */
  lemma CallIsSafe(s: State, call: AppCall)
    requires WorkerInv(s) && StreamInv(s) && Callable(s, call)
    ensures WorkerInv(Called(s, call)) && StreamInv(Called(s, call))
  {
    var t := Called(s, call);
    assert t.stream == s.stream && t.broken == s.broken && t.request == s.request && t.streamed == s.streamed;
    assert t.phase == s.phase && t.batch == s.batch && (s.queue != [] ==> t.queue != []);
  }

  lemma StepIsSafe(s: State, a: Action)
    requires WorkerInv(s) && StreamInv(s) && Enabled(s, a)
    ensures WorkerInv(Next(s, a)) && StreamInv(Next(s, a))
  {
    match a
    case App(call) => CallIsSafe(s, call);
    case SendChunk(size) => SendRefIsSafe(s, size);
    case FinishItem(size) =>
      if Refs(s.queue[0]) <= s.streamed {
        PopItemIsSafe(s, size);
      } else {
        WriteIsSafe(s);
      }
    case _ =>
  }

  // ---------------------------------------------------------------------
  // Items across reconnects
  // ---------------------------------------------------------------------

  /** Keys that the current stream has seen: accepted, on the way, or pending. */
  function OnStream(s: State): set<Key> {
    KeysOf(Eventual(s.stream).accepted) + KeysOf(s.request.items)
  }

  /** Some reactor accepted the item and passed it on to the table's queue. */
  ghost predicate Inserted(s: State, key: Key) {
    || key in KeysOf(s.stream.server.accepted)
    || exists i :: 0 <= i < |s.broken| && key in KeysOf(s.broken[i].server.accepted)
  }

  ghost predicate ItemInv(s: State) {
    && Distinct(s.queue)
    && (forall k :: k in s.inFlight ==> s.inFlight[k].key == k)
    && s.created == KeysOf(s.queue) + s.inFlight.Keys + s.confirmed
    && KeysOf(s.queue) !! s.inFlight.Keys
    && KeysOf(s.queue) !! s.confirmed
    && s.inFlight.Keys !! s.confirmed
    && s.inFlight.Keys <= OnStream(s) <= s.inFlight.Keys + s.confirmed
    && (forall k :: k in s.confirmed ==> Inserted(s, k))
  }

  /** A chunk is open, finalized or dropped. Items that are not confirmed refer only to
      chunks that are finalized or still can be. */
  ghost predicate ChunkInv(s: State) {
    && s.open !! s.ready && s.dropped !! s.open + s.ready
    && s.alive <= s.open + s.ready && s.streamed <= s.ready
    && (forall i :: 0 <= i < |s.queue| ==> Refs(s.queue[i]) <= s.open + s.ready)
    && (forall k :: k in s.inFlight ==> Refs(s.inFlight[k]) <= s.ready)
  }

  ghost predicate Invariant(s: State) {
    WorkerInv(s) && StreamInv(s) && ItemInv(s) && ChunkInv(s)
  }

  lemma {:induction false} AcceptedGrows(srv: Server, items: seq<Item>)
    ensures srv.accepted <= AcceptItems(srv, items).accepted
    decreases items
  {
    if items != [] && srv.status == Ok && Refs(items[0]) <= srv.chunks {
      AcceptedGrows(srv.(accepted := srv.accepted + [items[0]]), items[1..]);
    }
  }

  lemma ReceiveGrows(srv: Server, msg: Message)
    ensures srv.accepted <= Receive(srv, msg).accepted
  {
    AcceptedGrows(SaveChunks(srv, msg), msg.items);
  }

  lemma {:induction false} ReceiveAllGrows(srv: Server, msgs: seq<Message>)
    ensures srv.accepted <= ReceiveAll(srv, msgs).accepted
    decreases msgs
  {
    if msgs != [] {
      ReceiveGrows(srv, msgs[0]);
      ReceiveAllGrows(Receive(srv, msgs[0]), msgs[1..]);
    }
  }

  lemma KeysOfPrefix(a: seq<Item>, b: seq<Item>)
    requires a <= b
    ensures KeysOf(a) <= KeysOf(b)
  {
    forall i | i in a ensures i in b {
      assert a == b[..|a|];
    }
  }

  lemma KeysOfConcat(a: seq<Item>, b: seq<Item>)
    ensures KeysOf(a + b) == KeysOf(a) + KeysOf(b)
  {
    forall i | i in a ensures i in a + b { }
    forall i | i in b ensures i in a + b { }
  }

  /** Writing moves the pending items onto the stream and touches no other. */
  lemma WriteKeepsItems(s: State)
    requires Batched(s) && StreamInv(s) && ItemInv(s)
    ensures ItemInv(WriteIfNotEmpty(s))
  {
    if s.request.size != 0 {
      var msg := Message(s.request.chunks, s.request.items, s.streamed);
      var srv := Eventual(s.stream);
      ReceiveAllSnoc(s.stream.server, s.stream.channel, msg);
      AcceptsWhatItHolds(SaveChunks(srv, msg), msg.items);
      KeysOfConcat(srv.accepted, msg.items);
      var t := WriteIfNotEmpty(s);
      assert OnStream(t) == OnStream(s);
      forall k | k in s.confirmed ensures Inserted(t, k) {
        assert Inserted(s, k);
      }
    }
  }

  lemma SendRefKeepsItems(s: State, size: nat)
    requires Invariant(s) && Enabled(s, SendChunk(size))
    ensures ItemInv(SendRef(s, size))
  {
    var c := s.queue[0].refs[s.phase.next];
    var moved := s.(phase := Sending(s.phase.next + 1));
    SameStreams(s, moved);
    if c in s.ready && c !in s.streamed {
      var added := AddChunk(moved, c, size);
      SameStreams(s, added);
      assert Coming(added) == Coming(s) + {c};
      WriteKeepsItems(added);
    }
  }

  lemma SameStreams(s: State, t: State)
    requires ItemInv(s)
    requires s.queue == t.queue && s.inFlight == t.inFlight && s.created == t.created && s.confirmed == t.confirmed
    requires s.stream == t.stream && s.broken == t.broken && s.request.items == t.request.items
    ensures ItemInv(t)
  {
    forall k | k in s.confirmed ensures Inserted(t, k) {
      assert Inserted(s, k);
    }
  }

  lemma PopItemKeepsItems(s: State, size: nat)
    requires ItemInv(s) && s.queue != []
    ensures ItemInv(PopItem(s, size))
  {
    var item, rest := s.queue[0], s.queue[1..];
    var popped := PopItem(s, size);
    assert s.queue == [item] + rest;
    KeysOfConcat([item], rest);
    KeysOfConcat(s.request.items, [item]);
    assert KeysOf([item]) == {item.key};
    assert item.key !in KeysOf(rest);
    forall k | k in s.confirmed ensures Inserted(popped, k) {
      assert Inserted(s, k);
    }
  }

  lemma DeliverKeepsItems(s: State, t: State)
    requires ItemInv(s)
    requires || (s.stream.channel != [] && t == s.(stream := ReceiveNext(s.stream)))
             || exists i :: 0 <= i < |s.broken| && s.broken[i].channel != [] && t == s.(broken := s.broken[i := ReceiveNext(s.broken[i])])
    ensures ItemInv(t)
  {
    forall k | k in s.confirmed ensures Inserted(t, k) {
      assert Inserted(s, k);
      if k in KeysOf(s.stream.server.accepted) {
        if s.stream.channel != [] {
          ReceiveGrows(s.stream.server, s.stream.channel[0]);
          KeysOfPrefix(s.stream.server.accepted, ReceiveNext(s.stream).server.accepted);
        }
      } else {
        var i :| 0 <= i < |s.broken| && k in KeysOf(s.broken[i].server.accepted);
        if s.broken[i].channel != [] {
          ReceiveGrows(s.broken[i].server, s.broken[i].channel[0]);
          KeysOfPrefix(s.broken[i].server.accepted, ReceiveNext(s.broken[i]).server.accepted);
        }
        assert k in KeysOf(t.broken[i].server.accepted);
      }
    }
  }

  lemma ConfirmKeepsItems(s: State, key: Key)
    requires ItemInv(s) && key in KeysOf(s.stream.server.accepted)
    ensures ItemInv(Confirmed(s, key))
  {
    var t := Confirmed(s, key);
    ReceiveAllGrows(s.stream.server, s.stream.channel);
    KeysOfPrefix(s.stream.server.accepted, Eventual(s.stream).accepted);
    forall k | k in t.confirmed ensures Inserted(t, k) {
      assert k in s.confirmed ==> Inserted(s, k);
    }
  }

  lemma ReconnectKeepsItems(s: State, requeued: seq<Item>)
    requires ItemInv(s) && Distinct(requeued) && ToSet(requeued) == s.inFlight.Values
    ensures ItemInv(Reconnected(s, requeued))
  {
    var t := Reconnected(s, requeued);
    KeysOfConcat(requeued, s.queue);
    assert KeysOf(requeued) == s.inFlight.Keys by {
      forall i | i in requeued ensures i.key in s.inFlight {
        assert i in ToSet(requeued);
      }
      forall k | k in s.inFlight ensures k in KeysOf(requeued) {
        assert s.inFlight[k] in ToSet(requeued);
      }
    }
    forall k | k in t.confirmed ensures Inserted(t, k) {
      assert Inserted(s, k);
      assert t.broken[|s.broken|] == s.stream;
      assert forall i :: 0 <= i < |s.broken| ==> t.broken[i] == s.broken[i];
    }
    assert Distinct(t.queue) by {
      forall i, j | 0 <= i < j < |t.queue| ensures t.queue[i].key != t.queue[j].key {
        if i < |requeued| && j >= |requeued| {
          assert t.queue[i].key in KeysOf(requeued) && t.queue[j].key in KeysOf(s.queue);
        }
      }
    }
  }

  lemma CreateKeepsItems(s: State, item: Item)
    requires ItemInv(s) && item.key !in s.created
    ensures ItemInv(Created(s, item))
  {
    var t := Created(s, item);
    KeysOfConcat(s.queue, [item]);
    assert KeysOf([item]) == {item.key};
    forall i | 0 <= i < |s.queue| ensures s.queue[i].key != item.key {
      assert s.queue[i].key in KeysOf(s.queue);
    }
    forall k | k in t.confirmed ensures Inserted(t, k) {
      assert Inserted(s, k);
    }
  }

  lemma CallKeepsItems(s: State, call: AppCall)
    requires ItemInv(s) && Callable(s, call)
    ensures ItemInv(Called(s, call))
  {
    if call.CreateItem? {
      CreateKeepsItems(s, call.item);
    } else {
      SameStreams(s, Called(s, call));
    }
  }

  lemma StepKeepsItems(s: State, a: Action)
    requires Invariant(s) && Enabled(s, a)
    ensures ItemInv(Next(s, a))
  {
    match a
    case App(call) => CallKeepsItems(s, call);
    case StartItem => SameStreams(s, Next(s, a));
    case SendChunk(size) => SendRefKeepsItems(s, size);
    case FinishItem(size) =>
      if Refs(s.queue[0]) <= s.streamed {
        PopItemKeepsItems(s, size);
        PopItemIsSafe(s, size);
        WriteKeepsItems(PopItem(s, size));
      } else {
        WriteKeepsItems(s);
        SameStreams(WriteIfNotEmpty(s), Next(s, a));
      }
    case Deliver => DeliverKeepsItems(s, Next(s, a));
    case DeliverOld(i) => DeliverKeepsItems(s, Next(s, a));
    case Confirm(key) => ConfirmKeepsItems(s, key);
    case Reconnect(requeued) => ReconnectKeepsItems(s, requeued);
  }

  // ---------------------------------------------------------------------
  // Chunks that items wait for
  // ---------------------------------------------------------------------

  lemma WriteKeepsChunks(s: State)
    requires ChunkInv(s)
    ensures ChunkInv(WriteIfNotEmpty(s))
  {
  }

  lemma FinalizeKeepsChunks(s: State, chunks: set<ChunkKey>)
    requires ChunkInv(s) && chunks <= s.open
    ensures ChunkInv(Finalize(s, chunks))
  {
  }

  lemma SendRefKeepsChunks(s: State, size: nat)
    requires ChunkInv(s) && Enabled(s, SendChunk(size))
    ensures ChunkInv(SendRef(s, size))
  {
    var c := s.queue[0].refs[s.phase.next];
    if c in s.ready && c !in s.streamed {
      WriteKeepsChunks(AddChunk(s.(phase := Sending(s.phase.next + 1)), c, size));
    }
  }

  lemma PopItemKeepsChunks(s: State, size: nat)
    requires ChunkInv(s) && s.queue != [] && Refs(s.queue[0]) <= s.streamed
    ensures ChunkInv(PopItem(s, size))
  {
    var popped := PopItem(s, size);
    forall i | 0 <= i < |popped.queue|
      ensures Refs(popped.queue[i]) <= s.open + s.ready
    {
      assert popped.queue[i] == s.queue[i + 1];
    }
  }

  lemma ReconnectKeepsChunks(s: State, requeued: seq<Item>)
    requires ChunkInv(s) && ToSet(requeued) == s.inFlight.Values
    ensures ChunkInv(Reconnected(s, requeued))
  {
    var t := Reconnected(s, requeued);
    forall i | 0 <= i < |t.queue|
      ensures Refs(t.queue[i]) <= s.open + s.ready
    {
      if i < |requeued| {
        assert requeued[i] in ToSet(requeued);
        var k :| k in s.inFlight && s.inFlight[k] == requeued[i];
      }
    }
  }

  /** Dropping the open chunks strands no item, because none is pending. */
  lemma EndEpisodeKeepsChunks(s: State, clear: bool)
    requires ChunkInv(s) && Pending(s) == 0
    ensures ChunkInv(Ended(s, clear))
  {
    if !clear {
      FinalizeKeepsChunks(s, s.open);
    }
  }

  lemma CallKeepsChunks(s: State, call: AppCall)
    requires ChunkInv(s) && Callable(s, call)
    ensures ChunkInv(Called(s, call))
  {
    match call
    case FinalizeChunk(c) => FinalizeKeepsChunks(s, {c});
    case ForceFlush(ignore) => FinalizeKeepsChunks(s, s.open * Wanted(s.queue, ignore));
    case EndEpisode(clear) => EndEpisodeKeepsChunks(s, clear);
    case _ =>
  }

  lemma StepKeepsChunks(s: State, a: Action)
    requires ChunkInv(s) && Enabled(s, a)
    ensures ChunkInv(Next(s, a))
  {
    match a
    case App(call) => CallKeepsChunks(s, call);
    case SendChunk(size) => SendRefKeepsChunks(s, size);
    case FinishItem(size) =>
      if Refs(s.queue[0]) <= s.streamed {
        PopItemKeepsChunks(s, size);
        WriteKeepsChunks(PopItem(s, size));
      } else {
        WriteKeepsChunks(s);
      }
    case Reconnect(requeued) => ReconnectKeepsChunks(s, requeued);
    case _ =>
  }

  // ---------------------------------------------------------------------
  // Whole runs
  // ---------------------------------------------------------------------

  ghost predicate StepAt(trace: seq<State>, actions: seq<Action>, i: nat)
    requires i < |actions| < |trace|
  {
    Enabled(trace[i], actions[i]) && trace[i + 1] == Next(trace[i], actions[i])
  }

  /** `trace` is a run: it starts in the initial state, and every state follows
      from its predecessor by some enabled action. */
  ghost predicate IsRun(trace: seq<State>, actions: seq<Action>) {
    && |trace| == |actions| + 1
    && trace[0] == INITIAL
    && forall i :: 0 <= i < |actions| ==> StepAt(trace, actions, i)
  }

  lemma {:induction false} RunKeepsInvariant(trace: seq<State>, actions: seq<Action>, n: nat)
    requires IsRun(trace, actions) && n < |trace|
    ensures Invariant(trace[n])
  {
    if n > 0 {
      RunKeepsInvariant(trace, actions, n - 1);
      assert StepAt(trace, actions, n - 1);
      StepIsSafe(trace[n - 1], actions[n - 1]);
      StepKeepsItems(trace[n - 1], actions[n - 1]);
      StepKeepsChunks(trace[n - 1], actions[n - 1]);
    }
  }

  /** On every run no reactor, of the current or of a broken stream, ever rejects
      a message: neither now nor after reading everything written to it. */
  lemma NoRejection(trace: seq<State>, actions: seq<Action>, n: nat)
    requires IsRun(trace, actions) && n < |trace|
    ensures trace[n].stream.server.status == Ok && Eventual(trace[n].stream).status == Ok
    ensures forall i :: 0 <= i < |trace[n].broken| ==> trace[n].broken[i].server.status == Ok
  {
    RunKeepsInvariant(trace, actions, n);
    var s := trace[n];
    StatusIsSticky(s.stream.server, s.stream.channel);
    forall i | 0 <= i < |s.broken| ensures s.broken[i].server.status == Ok {
      StatusIsSticky(s.broken[i].server, s.broken[i].channel);
    }
  }

  lemma {:induction false} DistinctCount(items: seq<Item>)
    requires Distinct(items)
    ensures |KeysOf(items)| == |items|
  {
    if items != [] {
      var n := |items| - 1;
      DistinctCount(items[..n]);
      assert items == items[..n] + [items[n]];
      KeysOfConcat(items[..n], [items[n]]);
      assert KeysOf([items[n]]) == {items[n].key};
      assert items[n].key !in KeysOf(items[..n]);
    }
  }

  /** No item is lost: on every run the items that are queued or in flight are exactly
      those that were created and not confirmed, and every confirmed item was accepted by
      a reactor that held its chunks. */
  lemma NoItemIsLost(trace: seq<State>, actions: seq<Action>, n: nat)
    requires IsRun(trace, actions) && n < |trace|
    ensures var s := trace[n];
      && s.confirmed <= s.created
      && |s.created - s.confirmed| == Pending(s)
      && (forall key :: key in s.confirmed ==> Inserted(s, key))
  {
    RunKeepsInvariant(trace, actions, n);
    var s := trace[n];
    DistinctCount(s.queue);
    assert s.created - s.confirmed == KeysOf(s.queue) + s.inFlight.Keys;
  }

  /** A call of Flush that returns leaves at most the given number of items
      unconfirmed. */
  lemma FlushLeavesAtMost(trace: seq<State>, actions: seq<Action>, n: nat)
    requires IsRun(trace, actions) && n < |actions| && actions[n].App? && actions[n].call.Flush?
    ensures |trace[n + 1].created - trace[n + 1].confirmed| <= actions[n].call.ignore
  {
    NoItemIsLost(trace, actions, n + 1);
    assert StepAt(trace, actions, n);
  }

  /** EndEpisode resets the chunkers only when every item that was ever created is
      confirmed. */
  lemma EndEpisodeFindsNothingPending(trace: seq<State>, actions: seq<Action>, n: nat)
    requires IsRun(trace, actions) && n < |actions| && actions[n].App? && actions[n].call.EndEpisode?
    ensures var s := trace[n];
      s.created == s.confirmed && s.queue == [] && s.inFlight == map[] &&
      forall key :: key in s.created ==> Inserted(s, key)
  {
    NoItemIsLost(trace, actions, n);
    assert StepAt(trace, actions, n);
    var s := trace[n];
    assert s.created - s.confirmed == {};
  }

  /** EndEpisode leaves no chunk open: it gives the open ones up, with every reference to
      any cell, or finalizes them and keeps what was alive. */
  lemma EndEpisodeClosesChunks(trace: seq<State>, actions: seq<Action>, n: nat)
    requires IsRun(trace, actions) && n < |actions| && actions[n].App? && actions[n].call.EndEpisode?
    ensures var s, t := trace[n], trace[n + 1];
      && t.open == {}
      && if actions[n].call.clear then t.alive == {} && t.ready == s.ready && t.dropped == s.dropped + s.open
         else t.alive == s.alive && t.ready == s.ready + s.open && t.dropped == s.dropped
  {
    assert StepAt(trace, actions, n);
  }

  /** No item is stranded: on every run an unconfirmed item refers to no chunk that was
      given up before it was finalized, so that each of its chunks is finalized or still
      can be. */
  lemma NoItemIsStranded(trace: seq<State>, actions: seq<Action>, n: nat, item: Item)
    requires IsRun(trace, actions) && n < |trace|
    requires item in trace[n].queue || item in trace[n].inFlight.Values
    ensures Refs(item) !! trace[n].dropped && Refs(item) <= trace[n].open + trace[n].ready
  {
    RunKeepsInvariant(trace, actions, n);
    var s := trace[n];
    if item in s.queue {
      var i :| 0 <= i < |s.queue| && s.queue[i] == item;
    } else {
      var k :| k in s.inFlight && s.inFlight[k] == item;
    }
  }

  /** What Flush does before it waits: afterwards every chunk of every queued item but
      the last ones is finalized, so that the stream worker can send them. */
  lemma ForceFlushMakesReady(trace: seq<State>, actions: seq<Action>, n: nat, i: nat)
    requires IsRun(trace, actions) && n < |actions| && actions[n].App? && actions[n].call.ForceFlush?
    requires i < |trace[n + 1].queue| - actions[n].call.ignore
    ensures Refs(trace[n + 1].queue[i]) <= trace[n + 1].ready
  {
    RunKeepsInvariant(trace, actions, n);
    var s := trace[n];
    assert StepAt(trace, actions, n);
    assert Refs(s.queue[i]) <= Wanted(s.queue, actions[n].call.ignore);
  }

  /** Flush finalizes those chunks and no others, and does nothing else. */
  lemma ForceFlushFinalizesIff(trace: seq<State>, actions: seq<Action>, n: nat, c: ChunkKey)
    requires IsRun(trace, actions) && n < |actions| && actions[n].App? && actions[n].call.ForceFlush?
    ensures var s, t, ignore := trace[n], trace[n + 1], actions[n].call.ignore;
      && (c in t.ready <==> c in s.ready || exists i :: 0 <= i < |s.queue| - ignore && c in s.queue[i].refs)
      && (c in t.open <==> c in s.open && c !in t.ready)
      && t == s.(open := t.open, ready := t.ready)
  {
    RunKeepsInvariant(trace, actions, n);
    var s, ignore := trace[n], actions[n].call.ignore;
    assert StepAt(trace, actions, n);
    forall i | 0 <= i < |s.queue| - ignore && c in s.queue[i].refs
      ensures c in s.open + s.ready
    {
      assert c in Refs(s.queue[i]);
    }
  }

  /** Performs one more step at the end of a run. */
  lemma Extend(trace: seq<State>, actions: seq<Action>, a: Action) returns (trace': seq<State>, actions': seq<Action>)
    requires IsRun(trace, actions) && Enabled(trace[|actions|], a)
    ensures IsRun(trace', actions') && |actions'| == |actions| + 1
    ensures trace'[|actions'|] == Next(trace[|actions|], a) && trace <= trace' && actions' == actions + [a]
  {
    trace', actions' := trace + [Next(trace[|actions|], a)], actions + [a];
    forall i | 0 <= i < |actions'| ensures StepAt(trace', actions', i) {
      if i < |actions| {
        assert StepAt(trace, actions, i);
      }
    }
  }

  /** When the worker writes, and what: a chunk fills the request, the worker is going to
      sleep, or the batch is complete. A batch is what was queued when it was begun. */
  lemma StepWrites(s: State, a: Action)
    requires WorkerInv(s) && Enabled(s, a) && (a.SendChunk? || a.FinishItem? || a.StartItem?)
    ensures var t := Next(s, a);
      && t.stream.channel == s.stream.channel +
           (if a.StartItem? then []
            else if a.SendChunk? then
              if Transmits(s, a, s.queue[0].refs[s.phase.next]) && s.request.size + a.size >= MAX_REQUEST_SIZE then
                [Message(s.request.chunks + [s.queue[0].refs[s.phase.next]], s.request.items, t.streamed)]
              else []
            else if !Pops(s, a) then
              if s.request == EMPTY_REQUEST then [] else [Message(s.request.chunks, s.request.items, s.streamed)]
            else if s.batch == 1 then [Message(s.request.chunks, s.request.items + [s.queue[0]], t.streamed)]
            else [])
      && t.batch == (if a.StartItem? && s.batch == 0 then |s.queue| else if Pops(s, a) then s.batch - 1 else s.batch)
  {
  }

  // ---------------------------------------------------------------------
  // The order of items
  // ---------------------------------------------------------------------

  /** The items of the current stream: those that the server has accepted or will accept,
      those in the request, and those that wait. */
  function Line(s: State): seq<Item> {
    Eventual(s.stream).accepted + s.request.items + s.queue
  }

  lemma WriteKeepsLine(s: State)
    requires Batched(s) && StreamInv(s)
    ensures Line(WriteIfNotEmpty(s)) == Line(s)
  {
    if s.request.size != 0 {
      var msg := Message(s.request.chunks, s.request.items, s.streamed);
      ReceiveAllSnoc(s.stream.server, s.stream.channel, msg);
      ReceiveIff(Eventual(s.stream), msg);
      WriteIsSafe(s);
      NothingAfter(Eventual(s.stream).accepted + s.request.items);
    }
  }

  lemma NothingAfter(a: seq<Item>)
    ensures a + [] == a
  {
  }

  lemma PopKeepsLine(s: State, size: nat)
    requires Batched(s) && StreamInv(s) && s.queue != [] && s.batch > 0 && size > 0 && Refs(s.queue[0]) <= s.streamed
    ensures Line(AddItem(s, size)) == Line(s)
  {
    var t, accepted := PopItem(s, size), Eventual(s.stream).accepted;
    PopItemIsSafe(s, size);
    assert s.queue == [s.queue[0]] + s.queue[1..];
    assert accepted + (s.request.items + [s.queue[0]]) + s.queue[1..] == accepted + s.request.items + s.queue;
    WriteKeepsLine(t);
  }

  lemma SendRefKeepsLine(s: State, size: nat)
    requires WorkerInv(s) && StreamInv(s) && Enabled(s, SendChunk(size))
    ensures Line(SendRef(s, size)) == Line(s)
  {
    var c := s.queue[0].refs[s.phase.next];
    if c in s.ready && c !in s.streamed {
      var added := AddChunk(s.(phase := Sending(s.phase.next + 1)), c, size);
      assert Coming(added) == Coming(s) + {c};
      WriteKeepsLine(added);
    }
  }

  lemma CallKeepsLine(s: State, call: AppCall)
    requires Enabled(s, App(call))
    ensures Line(Called(s, call)) == if call.CreateItem? then Line(s) + [call.item] else Line(s)
  {
    var before := Eventual(s.stream).accepted + s.request.items;
    if call.CreateItem? {
      assert before + (s.queue + [call.item]) == before + s.queue + [call.item];
    }
  }

  lemma FinishKeepsLine(s: State, size: nat)
    requires WorkerInv(s) && StreamInv(s) && Enabled(s, FinishItem(size))
    ensures Line(Next(s, FinishItem(size))) == Line(s)
  {
    if Refs(s.queue[0]) <= s.streamed {
      PopKeepsLine(s, size);
    } else {
      WriteKeepsLine(s);
    }
  }

  /** A new item joins the end of the line, and a lost connection starts it again; no
      other step changes it. */
  lemma StepKeepsLine(s: State, a: Action)
    requires WorkerInv(s) && StreamInv(s) && Enabled(s, a)
    ensures Line(Next(s, a)) ==
      if a.Reconnect? then a.requeued + s.queue
      else if a.App? && a.call.CreateItem? then Line(s) + [a.call.item]
      else Line(s)
  {
    match a
    case App(call) => CallKeepsLine(s, call);
    case SendChunk(size) => SendRefKeepsLine(s, size);
    case FinishItem(size) => FinishKeepsLine(s, size);
    case Deliver => assert Eventual(Next(s, a).stream) == Eventual(s.stream);
    case Reconnect(requeued) =>
      assert [] + [] + (requeued + s.queue) == requeued + s.queue;
    case _ =>
  }

  /** The items created by the steps from `m` up to `n`, in order. */
  function CreatedBetween(actions: seq<Action>, m: nat, n: nat): seq<Item>
    requires m <= n <= |actions|
    decreases n
  {
    if n == m then []
    else
      CreatedBetween(actions, m, n - 1) +
        (if actions[n - 1].App? && actions[n - 1].call.CreateItem? then [actions[n - 1].call.item] else [])
  }

  /** As long as the connection is not lost, the server accepts the items in the order in
      which they were queued and created. */
  lemma {:induction false} AcceptedInOrder(trace: seq<State>, actions: seq<Action>, m: nat, n: nat)
    requires IsRun(trace, actions) && m <= n < |trace| && forall i :: m <= i < n ==> !actions[i].Reconnect?
    ensures Line(trace[n]) == Line(trace[m]) + CreatedBetween(actions, m, n)
  {
    if n == m {
      NothingAfter(Line(trace[m]));
    } else {
      AcceptedInOrder(trace, actions, m, n - 1);
      RunKeepsInvariant(trace, actions, n - 1);
      assert StepAt(trace, actions, n - 1);
      StepKeepsLine(trace[n - 1], actions[n - 1]);
      JoinLine(Line(trace[m]), CreatedBetween(actions, m, n - 1),
               if actions[n - 1].App? && actions[n - 1].call.CreateItem? then [actions[n - 1].call.item] else []);
    }
  }

  lemma JoinLine(a: seq<Item>, b: seq<Item>, c: seq<Item>)
    ensures (a + b) + c == a + (b + c) && a + [] == a
  {
  }

  // ---------------------------------------------------------------------
  // Nothing gets stuck
  // ---------------------------------------------------------------------

  /** An item in flight is in the request or on the stream. Whenever the worker has
      nothing more to send, the request has been written, so that the server accepts
      every item in flight once it has read what was written. */
  lemma NothingWaitsUnwritten(trace: seq<State>, actions: seq<Action>, n: nat)
    requires IsRun(trace, actions) && n < |trace|
    ensures var s := trace[n];
      && s.inFlight.Keys <= OnStream(s)
      && (s.phase == Idle && (s.batch == 0 || s.queue == []) ==>
            s.request == EMPTY_REQUEST && s.inFlight.Keys <= KeysOf(Eventual(s.stream).accepted))
  {
    RunKeepsInvariant(trace, actions, n);
  }

  /** The same when the worker goes to sleep because a chunk is not finalized. */
  lemma SleepingWorkerHasWritten(trace: seq<State>, actions: seq<Action>, n: nat)
    requires IsRun(trace, actions) && n < |actions| && actions[n].FinishItem? && !Pops(trace[n], actions[n])
    ensures var t := trace[n + 1];
      t.request == EMPTY_REQUEST && t.inFlight.Keys <= KeysOf(Eventual(t.stream).accepted)
  {
    RunKeepsInvariant(trace, actions, n);
    RunKeepsInvariant(trace, actions, n + 1);
    assert StepAt(trace, actions, n);
    WriteIsSafe(trace[n]);
  }

  /** A confirmation takes exactly its item out of flight, and it counts as confirmed
      from then on, even if it was confirmed before. */
  lemma ConfirmationCounts(trace: seq<State>, actions: seq<Action>, n: nat)
    requires IsRun(trace, actions) && n < |actions| && actions[n].Confirm?
    ensures var s, t, key := trace[n], trace[n + 1], actions[n].key;
      && t.inFlight == s.inFlight - {key} && t.confirmed == s.confirmed + {key}
      && t.queue == s.queue && t.created == s.created
  {
    RunKeepsInvariant(trace, actions, n);
    assert StepAt(trace, actions, n);
    var s, key := trace[n], actions[n].key;
    ReceiveAllGrows(s.stream.server, s.stream.channel);
    KeysOfPrefix(s.stream.server.accepted, Eventual(s.stream).accepted);
    assert key in OnStream(s);
    assert key !in s.inFlight ==> s.inFlight - {key} == s.inFlight;
  }

  /** After a lost connection the worker starts afresh on a new stream, with the items that
      were in flight in front of the queue. */
  lemma ReconnectStartsAfresh(trace: seq<State>, actions: seq<Action>, n: nat)
    requires IsRun(trace, actions) && n < |actions| && actions[n].Reconnect?
    ensures var s, t, requeued := trace[n], trace[n + 1], actions[n].requeued;
      && t.queue == requeued + s.queue && |requeued| == |s.inFlight|
      && (forall key :: key in s.inFlight ==> s.inFlight[key] in requeued) && t.inFlight == map[]
      && t.phase == Idle && t.batch == 0 && t.request == EMPTY_REQUEST && t.streamed == {}
      && t.stream == Stream(FRESH_SERVER, []) && t.broken == s.broken + [s.stream]
  {
    assert StepAt(trace, actions, n);
    RunKeepsInvariant(trace, actions, n);
    var s, requeued := trace[n], actions[n].requeued;
    forall key | key in s.inFlight ensures s.inFlight[key] in requeued {
      assert s.inFlight[key] in ToSet(requeued);
    }
    DistinctCount(requeued);
    assert KeysOf(requeued) == s.inFlight.Keys by {
      forall i | i in requeued ensures i.key in s.inFlight {
        assert i in ToSet(requeued);
      }
    }
  }

  ghost predicate AllReady(s: State) {
    forall i :: 0 <= i < |s.queue| ==> Refs(s.queue[i]) <= s.ready
  }

  /** The worker, the server and Flush carry on from the end of a run. No item is created
      and no connection is lost on the way. */
  ghost predicate GoesOn(trace: seq<State>, actions: seq<Action>, trace': seq<State>, actions': seq<Action>) {
    && IsRun(trace', actions') && trace <= trace' && actions <= actions'
    && forall i :: |actions| <= i < |actions'| ==> Routine(actions'[i])
  }

  predicate Routine(a: Action) {
    !a.Reconnect? && (a.App? ==> a.call.ForceFlush?)
  }

  /** Sends the next reference of the front item, or finds it sent. */
  lemma SendOne(trace: seq<State>, actions: seq<Action>) returns (trace': seq<State>, actions': seq<Action>)
    requires IsRun(trace, actions)
    requires var s := trace[|actions|];
      s.phase.Sending? && s.queue != [] && s.phase.next < |s.queue[0].refs| && s.queue[0].refs[s.phase.next] in s.ready
    ensures GoesOn(trace, actions, trace', actions')
    ensures var s, t := trace[|actions|], trace'[|actions'|];
      && t.phase == Sending(s.phase.next + 1) && t.queue == s.queue && t.ready == s.ready
      && t.streamed == s.streamed + {s.queue[0].refs[s.phase.next]}
  {
    trace', actions' := Extend(trace, actions, SendChunk(1));
  }

  /** Sends all references of the front item from the current one on. */
  lemma SendRest(trace: seq<State>, actions: seq<Action>) returns (trace': seq<State>, actions': seq<Action>)
    requires IsRun(trace, actions)
    requires var s := trace[|actions|]; s.phase.Sending? && s.queue != [] && AllReady(s)
    ensures GoesOn(trace, actions, trace', actions')
    ensures var s, t := trace[|actions|], trace'[|actions'|];
      && t.phase.Sending? && t.queue == s.queue && t.ready == s.ready && t.phase.next >= |t.queue[0].refs|
      && s.streamed <= t.streamed
      && forall j :: s.phase.next <= j < |t.queue[0].refs| ==> t.queue[0].refs[j] in t.streamed
    decreases var s := trace[|actions|]; |s.queue[0].refs| - s.phase.next
  {
    trace', actions' := trace, actions;
    var s := trace[|actions|];
    if s.phase.next < |s.queue[0].refs| {
      assert s.queue[0].refs[s.phase.next] in Refs(s.queue[0]);
      trace', actions' := SendOne(trace, actions);
      trace', actions' := SendRest(trace', actions');
    }
  }

  /** Looks at the front item from its first reference on, and moves it into the
      request. */
  lemma SendItem(trace: seq<State>, actions: seq<Action>) returns (trace': seq<State>, actions': seq<Action>)
    requires IsRun(trace, actions)
    requires var s := trace[|actions|]; s.phase == Idle && s.queue != [] && AllReady(s)
    ensures GoesOn(trace, actions, trace', actions')
    ensures var s, t := trace[|actions|], trace'[|actions'|];
      t.phase == Idle && t.queue == s.queue[1..] && t.ready == s.ready && AllReady(t)
  {
    trace', actions' := Extend(trace, actions, StartItem);
    trace', actions' := SendRest(trace', actions');
    var s := trace'[|actions'|];
    assert Refs(s.queue[0]) <= s.streamed;
    trace', actions' := Extend(trace', actions', FinishItem(1));
    var t := trace'[|actions'|];
    assert forall i :: 0 <= i < |t.queue| ==> t.queue[i] == s.queue[i + 1];
  }

  lemma SendAllItems(trace: seq<State>, actions: seq<Action>) returns (trace': seq<State>, actions': seq<Action>)
    requires IsRun(trace, actions) && trace[|actions|].phase == Idle && AllReady(trace[|actions|])
    ensures GoesOn(trace, actions, trace', actions')
    ensures trace'[|actions'|].phase == Idle && trace'[|actions'|].queue == []
    decreases |trace[|actions|].queue|
  {
    trace', actions' := trace, actions;
    if trace[|actions|].queue != [] {
      trace', actions' := SendItem(trace, actions);
      trace', actions' := SendAllItems(trace', actions');
    }
  }

  /** Lets the server read everything that was written. */
  lemma DeliverAll(trace: seq<State>, actions: seq<Action>) returns (trace': seq<State>, actions': seq<Action>)
    requires IsRun(trace, actions)
    ensures GoesOn(trace, actions, trace', actions')
    ensures var s, t := trace[|actions|], trace'[|actions'|];
      t.phase == s.phase && t.queue == s.queue && t.stream.channel == []
    decreases |trace[|actions|].stream.channel|
  {
    trace', actions' := trace, actions;
    if trace[|actions|].stream.channel != [] {
      trace', actions' := Extend(trace, actions, Deliver);
      trace', actions' := DeliverAll(trace', actions');
    }
  }

  /** Confirms every item that is still in flight. */
  lemma ConfirmAll(trace: seq<State>, actions: seq<Action>) returns (trace': seq<State>, actions': seq<Action>)
    requires IsRun(trace, actions)
    requires var s := trace[|actions|]; s.phase == Idle && s.queue == [] && s.stream.channel == []
    ensures GoesOn(trace, actions, trace', actions') && Pending(trace'[|actions'|]) == 0
    decreases |trace[|actions|].inFlight|
  {
    trace', actions' := trace, actions;
    var s := trace[|actions|];
    if s.inFlight != map[] {
      var key :| key in s.inFlight;
      NothingWaitsUnwritten(trace, actions, |actions|);
      trace', actions' := Extend(trace, actions, Confirm(key));
      assert trace'[|actions'|].inFlight.Keys == s.inFlight.Keys - {key};
      assert |s.inFlight.Keys - {key}| < |s.inFlight.Keys|;
      trace', actions' := ConfirmAll(trace', actions');
    }
  }

  /** The worker was looking at an item when its chunks were finalized. */
  lemma GiveUpOrPop(trace: seq<State>, actions: seq<Action>) returns (trace': seq<State>, actions': seq<Action>)
    requires IsRun(trace, actions)
    requires var s := trace[|actions|];
      s.phase.Sending? && s.queue != [] && s.phase.next >= |s.queue[0].refs| && AllReady(s)
    ensures GoesOn(trace, actions, trace', actions')
    ensures trace'[|actions'|].phase == Idle && AllReady(trace'[|actions'|])
  {
    var s := trace[|actions|];
    trace', actions' := Extend(trace, actions, FinishItem(1));
    var t := trace'[|actions'|];
    assert Refs(s.queue[0]) <= s.streamed ==> forall i :: 0 <= i < |t.queue| ==> t.queue[i] == s.queue[i + 1];
  }

  /** Flush finalizes every chunk that a queued item refers to. */
  lemma FinalizeAll(trace: seq<State>, actions: seq<Action>) returns (trace': seq<State>, actions': seq<Action>)
    requires IsRun(trace, actions)
    ensures GoesOn(trace, actions, trace', actions') && AllReady(trace'[|actions'|])
  {
    trace', actions' := Extend(trace, actions, App(ForceFlush(0)));
    forall i | 0 <= i < |trace'[|actions'|].queue|
      ensures Refs(trace'[|actions'|].queue[i]) <= trace'[|actions'|].ready
    {
      ForceFlushMakesReady(trace', actions', |actions|, i);
    }
  }

  /** The worker leaves the item that it is at. */
  lemma ReachIdle(trace: seq<State>, actions: seq<Action>) returns (trace': seq<State>, actions': seq<Action>)
    requires IsRun(trace, actions) && AllReady(trace[|actions|])
    ensures GoesOn(trace, actions, trace', actions')
    ensures trace'[|actions'|].phase == Idle && AllReady(trace'[|actions'|])
  {
    trace', actions' := trace, actions;
    if trace[|actions|].phase.Sending? {
      RunKeepsInvariant(trace, actions, |actions|);
      trace', actions' := SendRest(trace, actions);
      trace', actions' := GiveUpOrPop(trace', actions');
    }
  }

  /** Wherever a run has got to, it can go on so that every item is confirmed: Flush
      finalizes the chunks, the worker sends, the server reads and confirms. */
  lemma EverythingCanBeConfirmed(trace: seq<State>, actions: seq<Action>)
    returns (trace': seq<State>, actions': seq<Action>)
    requires IsRun(trace, actions)
    ensures GoesOn(trace, actions, trace', actions') && Pending(trace'[|actions'|]) == 0
  {
    trace', actions' := FinalizeAll(trace, actions);
    trace', actions' := ReachIdle(trace', actions');
    trace', actions' := SendAllItems(trace', actions');
    trace', actions' := DeliverAll(trace', actions');
    trace', actions' := ConfirmAll(trace', actions');
  }

  // ---------------------------------------------------------------------
  // Chunks that are sent again
  // ---------------------------------------------------------------------

  /** What the server holds for the waiting items is still remembered in `t`. */
  ghost predicate KeepsWaiting(s: State, t: State) {
    forall j, c :: 1 <= j < |s.queue| && c in s.queue[j].refs && c in s.streamed ==> c in t.streamed
  }

  /** Each streamed chunk of the item behind the front has an active reference or belongs
      to a later item as well. */
  ghost predicate NextIsCovered(s: State) {
    |s.queue| > 1 ==>
      forall c :: c in s.queue[1].refs && c in s.streamed ==>
        c in s.alive || exists j :: 2 <= j < |s.queue| && c in s.queue[j].refs
  }

  /** The keep keys are computed after the front item has left the queue, and so leave
      out the item that comes next: this is exactly when that loses a chunk. */
  lemma PopKeepsWaitingIff(s: State, size: nat)
    requires s.queue != []
    ensures KeepsWaiting(s, PopItem(s, size)) <==> NextIsCovered(s)
  {
    var t, rest := PopItem(s, size), s.queue[1..];
    forall c | c in t.streamed && c !in s.alive
      ensures exists j :: 2 <= j < |s.queue| && c in s.queue[j].refs
    {
      var i :| 1 <= i < |rest| && c in rest[i].refs;
      assert s.queue[i + 1] == rest[i];
    }
    forall j, c | 2 <= j < |s.queue| && c in s.queue[j].refs && c in s.streamed
      ensures c in t.streamed
    {
      assert rest[j - 1] == s.queue[j];
    }
  }

  /** The step puts the chunk into the request. */
  ghost predicate Transmits(s: State, a: Action, c: ChunkKey) {
    a.SendChunk? && Enabled(s, a) && c == s.queue[0].refs[s.phase.next] && c in s.ready && c !in s.streamed
  }

  ghost predicate Pops(s: State, a: Action) {
    a.FinishItem? && Enabled(s, a) && Refs(s.queue[0]) <= s.streamed
  }

  /** Only sending remembers a chunk, only a pop or a lost connection forgets one, and
      only a lost connection starts a new stream. */
  lemma StepStreams(s: State, a: Action, c: ChunkKey)
    requires Enabled(s, a)
    ensures var t := Next(s, a);
      && (a.Reconnect? ==> t.sent == {} && t.streamed == {})
      && (!a.Reconnect? ==> (c in t.sent <==> c in s.sent || Transmits(s, a, c)))
      && (c !in s.streamed ==> (c in t.streamed <==> Transmits(s, a, c)))
      && (c in s.streamed && c !in t.streamed ==> a.Reconnect? || Pops(s, a))
  {
    match a
    case App(call) => CallStreams(s, call);
    case _ =>
  }

  lemma CallStreams(s: State, call: AppCall)
    requires Callable(s, call)
    ensures var t := Called(s, call); t.sent == s.sent && t.streamed == s.streamed
  {
  }

  /** The same for a step of a run. */
  lemma RunStreams(trace: seq<State>, actions: seq<Action>, n: nat, c: ChunkKey)
    requires IsRun(trace, actions) && n < |actions|
    ensures Enabled(trace[n], actions[n])
    ensures actions[n].Reconnect? ==> trace[n + 1].sent == {} && trace[n + 1].streamed == {}
    ensures !actions[n].Reconnect? ==>
      (c in trace[n + 1].sent <==> c in trace[n].sent || Transmits(trace[n], actions[n], c))
    ensures c !in trace[n].streamed ==> (c in trace[n + 1].streamed <==> Transmits(trace[n], actions[n], c))
    ensures c in trace[n].streamed && c !in trace[n + 1].streamed ==> actions[n].Reconnect? || Pops(trace[n], actions[n])
  {
    assert StepAt(trace, actions, n);
    StepStreams(trace[n], actions[n], c);
  }

  lemma {:induction false} StreamedWasSent(trace: seq<State>, actions: seq<Action>, n: nat, c: ChunkKey)
    requires IsRun(trace, actions) && n < |trace| && c in trace[n].streamed
    ensures c in trace[n].sent
  {
    if n > 0 {
      RunStreams(trace, actions, n - 1, c);
      if c in trace[n - 1].streamed {
        StreamedWasSent(trace, actions, n - 1, c);
      }
    }
  }

  /** A pop at step `m` forgot the chunk, and up to state `n` it was not sent again and
      the connection was not lost. */
  ghost predicate ForgottenSince(trace: seq<State>, actions: seq<Action>, m: nat, n: nat, c: ChunkKey)
    requires IsRun(trace, actions)
  {
    && m < n < |trace|
    && Pops(trace[m], actions[m]) && c in trace[m].streamed
    && (forall i :: m < i < n ==> !actions[i].Reconnect?)
    && (forall i :: m < i <= n ==> c !in trace[i].streamed)
  }

  lemma {:induction false} ForgottenWasSent(trace: seq<State>, actions: seq<Action>, m: nat, n: nat, c: ChunkKey)
    requires IsRun(trace, actions) && ForgottenSince(trace, actions, m, n, c)
    ensures c in trace[n].sent
  {
    RunStreams(trace, actions, n - 1, c);
    if n == m + 1 {
      StreamedWasSent(trace, actions, m, c);
    } else {
      ForgottenWasSent(trace, actions, m, n - 1, c);
    }
  }

  lemma {:induction false} FindForgettingPop(trace: seq<State>, actions: seq<Action>, n: nat, c: ChunkKey)
    returns (m: nat)
    requires IsRun(trace, actions) && n < |trace| && c in trace[n].sent && c !in trace[n].streamed
    ensures ForgottenSince(trace, actions, m, n, c)
  {
    RunStreams(trace, actions, n - 1, c);
    if c in trace[n - 1].streamed {
      m := n - 1;
    } else {
      m := FindForgettingPop(trace, actions, n - 1, c);
    }
  }

  /** On every run, a chunk that is about to be sent was sent before on this stream if
      and only if an earlier pop forgot it. */
  lemma SentAgainIffForgotten(trace: seq<State>, actions: seq<Action>, n: nat, c: ChunkKey)
    requires IsRun(trace, actions) && n < |actions| && Transmits(trace[n], actions[n], c)
    ensures c in trace[n].sent <==> exists m: nat :: ForgottenSince(trace, actions, m, n, c)
  {
    if c in trace[n].sent {
      var m := FindForgettingPop(trace, actions, n, c);
    }
    if m: nat :| ForgottenSince(trace, actions, m, n, c) {
      ForgottenWasSent(trace, actions, m, n, c);
    }
  }

  /** A forgotten chunk has to be sent again before it counts as streamed, and so before
      an item that refers to it can follow on the same stream. */
  lemma {:induction false} ForgottenIsSentAgain(trace: seq<State>, actions: seq<Action>, m: nat, n: nat, c: ChunkKey)
    returns (k: nat)
    requires IsRun(trace, actions) && m + 1 < n < |actions|
    requires ForgottenSince(trace, actions, m, m + 1, c)
    requires forall i :: m < i < n ==> !actions[i].Reconnect?
    requires c in trace[n].streamed
    ensures m < k < n && Transmits(trace[k], actions[k], c) && c in trace[k].sent
  {
    k := m + 1;
    while c !in trace[k + 1].streamed
      invariant m < k < n
      invariant ForgottenSince(trace, actions, m, k, c)
      decreases n - k
    {
      k := k + 1;
    }
    RunStreams(trace, actions, k, c);
    ForgottenWasSent(trace, actions, m, k, c);
  }

  /** No queued item refers to a chunk that was forgotten on this stream. */
  ghost predicate NothingToRepeat(s: State) {
    forall j, c :: 0 <= j < |s.queue| && c in s.queue[j].refs && c in s.sent ==> c in s.streamed
  }

  /** A pop covers the next item, and a new item refers to no forgotten chunk. */
  ghost predicate Careful(s: State, a: Action) {
    && (Pops(s, a) ==> NextIsCovered(s))
    && (a.App? && a.call.CreateItem? ==> forall c :: c in a.call.item.refs && c in s.sent ==> c in s.streamed)
  }

  lemma CarefulStepRepeatsNothing(s: State, a: Action)
    requires Enabled(s, a) && Careful(s, a) && NothingToRepeat(s)
    ensures NothingToRepeat(Next(s, a))
  {
    var t := Next(s, a);
    if Pops(s, a) {
      PopKeepsWaitingIff(s, a.size);
    }
    forall j, c | 0 <= j < |t.queue| && c in t.queue[j].refs && c in t.sent
      ensures c in t.streamed
    {
      StepStreams(s, a, c);
      if Pops(s, a) {
        assert t.queue[j] == s.queue[j + 1];
      } else if a.App? {
        CallStreams(s, a.call);
      }
    }
  }

  /** If every pop up to then covered the next item, and every new item referred to no
      forgotten chunk, no chunk is sent twice on a stream. */
  lemma {:induction false} CarefulRunRepeatsNothing(trace: seq<State>, actions: seq<Action>, n: nat)
    requires IsRun(trace, actions) && n < |trace|
    requires forall i :: 0 <= i < n ==> Careful(trace[i], actions[i])
    ensures NothingToRepeat(trace[n])
    ensures n < |actions| ==> forall c :: Transmits(trace[n], actions[n], c) ==> c !in trace[n].sent
  {
    if n > 0 {
      CarefulRunRepeatsNothing(trace, actions, n - 1);
      assert StepAt(trace, actions, n - 1);
      CarefulStepRepeatsNothing(trace[n - 1], actions[n - 1]);
    }
  }

  /** Sends the front item, which refers to the finalized chunk 7. */
  lemma SendFront(trace: seq<State>, actions: seq<Action>) returns (trace': seq<State>, actions': seq<Action>)
    requires IsRun(trace, actions)
    requires var s := trace[|actions|];
      && s.phase == Idle && s.queue != [] && s.queue[0].refs == [7] && s.ready == {7}
      && s.streamed == {} && s.request.size < 100
    ensures IsRun(trace', actions')
    ensures trace'[|actions'|] ==
      var s := trace[|actions|];
      AddItem(AddChunk(s.(phase := Sending(1), batch := if s.batch == 0 then |s.queue| else s.batch), 7, 10), 10)
  {
    trace', actions' := Extend(trace, actions, StartItem);
    trace', actions' := Extend(trace', actions', SendChunk(10));
    trace', actions' := Extend(trace', actions', FinishItem(10));
  }

  /** The same for a call of the application that leads to `s`. */
  lemma Perform(trace: seq<State>, actions: seq<Action>, call: AppCall, s: State)
    returns (trace': seq<State>, actions': seq<Action>)
    requires IsRun(trace, actions) && Callable(trace[|actions|], call) && Called(trace[|actions|], call) == s
    ensures IsRun(trace', actions') && trace'[|actions'|] == s
  {
    trace', actions' := Extend(trace, actions, App(call));
  }

  /** Two items that refer to the finalized chunk 7 are queued. */
  function TwoQueued(a: Item, b: Item): State {
    INITIAL.(queue := [a, b], created := {a.key, b.key}, ready := {7}, alive := {7}, newest := map[0 := 7])
  }

  lemma QueueTwo(a: Item, b: Item) returns (trace: seq<State>, actions: seq<Action>)
    requires a == Item(1, [7]) && b == Item(2, [7])
    ensures IsRun(trace, actions) && trace[|actions|] == TwoQueued(a, b)
  {
    var begun := INITIAL.(open := {7}, alive := {7}, newest := map[0 := 7]);
    var one := begun.(queue := [a], created := {1});
    var two := begun.(queue := [a, b], created := {1, 2});
    assert Refs(a) == {7} && Refs(b) == {7};
    assert Called(INITIAL, BeginChunk(7, 0)) == begun;
    assert Called(begun, CreateItem(a)) == one;
    assert Called(one, CreateItem(b)) == two;
    assert Called(two, FinalizeChunk(7)) == TwoQueued(a, b);
    trace, actions := Perform([INITIAL], [], BeginChunk(7, 0), begun);
    trace, actions := Perform(trace, actions, CreateItem(a), one);
    trace, actions := Perform(trace, actions, CreateItem(b), two);
    trace, actions := Perform(trace, actions, FinalizeChunk(7), TwoQueued(a, b));
  }

  /** Chunk 8 pushes chunk 7 out of its column. */
  lemma PushOut(trace: seq<State>, actions: seq<Action>) returns (trace': seq<State>, actions': seq<Action>)
    requires IsRun(trace, actions)
    requires var s := trace[|actions|];
      s.open == {} && s.ready == {7} && s.dropped == {} && s.alive == {7} && s.newest == map[0 := 7]
    ensures IsRun(trace', actions')
    ensures trace'[|actions'|] == trace[|actions|].(open := {8}, alive := {8}, newest := map[0 := 8])
  {
    trace', actions' := Extend(trace, actions, App(BeginChunk(8, 0)));
    assert trace'[|actions'|].newest == map[0 := 8];
    assert 7 !in map[0 := 8].Values by {
      assert map[0 := 8][0] == 8;
    }
    trace', actions' := Extend(trace', actions', App(ExpireChunk(7)));
  }

  /** A run that sends the same chunk twice, here in one message with two items. */
  lemma ChunkCanBeSentTwice() returns (trace: seq<State>, actions: seq<Action>)
    ensures IsRun(trace, actions)
    ensures trace[|actions|].stream.channel == [Message([7, 7], [Item(1, [7]), Item(2, [7])], {})]
  {
    var a, b := Item(1, [7]), Item(2, [7]);
    trace, actions := QueueTwo(a, b);
    trace, actions := PushOut(trace, actions);
    trace, actions := SendFront(trace, actions);
    assert trace[|actions|].queue == [b];
    assert trace[|actions|].streamed == {};
    assert trace[|actions|].request == Request([7], [a], 20);
    ghost var s := trace[|actions|];
    trace, actions := SendFront(trace, actions);
    var popped := PopItem(AddChunk(s.(phase := Sending(1)), 7, 10), 10);
    assert popped.streamed == {};
    assert popped.request == Request([7, 7], [a, b], 40);
    assert trace[|actions|] == WriteIfNotEmpty(popped);
  }
}
