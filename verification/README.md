# A verified model of Reverb

Reverb is an experience-replay server. Clients write trajectories into tables over
an InsertStream and read samples back over a SampleStream; a table decides what to
keep, what to hand out and when to block. This project models the state machines
behind that and proves what they promise, for all inputs and over whole runs.

| file | what it models |
|---|---|
| `Table.dfy`, `Selector.dfy` | the contents of a table and every operation under its lock |
| `RateLimiter.dfy` | the limiter, and the parameter checks of its Python constructors |
| `TableWorker.dfy` | the worker that serves queued inserts and sample requests |
| `BoundedBuffers.dfy`, `ServedQueue.dfy` | tables built by `Table.queue` and `Table.stack`, also under a worker |
| `Checkpoint.dfy` | writing a table to a checkpoint and loading it |
| `InsertStream.dfy` | client, network and server of the InsertStream, with reconnects |
| `PrioritizedSelector.dfy` | the array sum tree and the sampling descent |
| `HeapSelector.dfy` | the intrusive heap and the heap selector |
| `Chunker.dfy`, `DeltaEncoding.dfy` | cells, chunks and delta encoding of one column |
| `Patterns.dfy`, `StructuredWriter.dfy` | patterns, conditions and steps given in parts |
| `LengthTests.dfy` | conditions on the buffer length against what is kept |
| `RepeatedColumn.dfy` | a column given twice: chunker and structured writer together |
| `MergeSlices.dfy`, `StoredColumns.dfy` | merging cell references into slices, and what is stored of a pattern |
| `SampleStream.dfy` | splitting samples over responses and gluing them together |
| `Status.dfy`, `BackLinks.dfy`, `Suffixes.dfy` | shared types and sequence facts |

The C++ classes that update their fields are classes here. Most of them hold their
fields as one value, and each method is tied to a function on that value, so that
statements about runs can be made about sequences of values.

## What is proved

- **Table.** On every run of inserts, samples, mutations and resets the item map,
  both selectors, the episode counts and the limiter stay in step, the size bound
  holds, and a permitted sample always finds an item (`RunKeepsInv`,
  `PermittedSampleFindsAnItem`, class `Table`). What each operation changes is stated item
  by item, for the map, both selectors and the limiter (`InsertAdds`, `SampleDraws`,
  `MutationMutates`, `DeleteRemoves`, `UpdateReprioritizes`). Along every path an item's
  counter grows by the number of its samples, and it leaves with its last one (`CounterCounts`,
  `SampledOutIff`). That no resident item has used up its samples is true exactly under a
  condition on the inserted item (`InsertKeepsBelowMaxIff`): the counter comes with the
  request.
- **Limiter.** The corridor holds on every run, and accepted parameters never block
  both sides (`Corridor`, `AcceptedRatioNeverBlocksBoth`). Which parameters are accepted
  is exact (`RatioIff`).
- **Worker.** The worker moves its table only by permitted steps. Every request, with
  the number and the deadline that it was enqueued with, is answered exactly once, in
  the order of arrival unless it times out, and no OK answer holds more than was asked
  for (`EveryAnswerFits`, `AnswersWereAskedFor`). While the worker is not told to stop,
  an answer is OK exactly if it holds samples and a timeout exactly if it holds none; a
  request answered while serving got all that it asked for unless its size reached the
  bound (`ProcessRequests`, `SettledAnswers`). The answers hold, in order, exactly what
  the table handed out; the table receives the enqueued items in order. The inner loop
  ends, a round ends only when nothing more is permitted, and a round without progress
  leaves nothing overdue (`ProcessRequests`, `WorkerThread.Iterate`,
  `QuietRoundAnswers`).
- **Queue and stack.** Such tables refine a bounded queue and a bounded stack; the answers
  of a worker over a queue table are the queue (`AnswersAreTheQueue`).
- **Checkpoint.** Loading gives back the very same table (`RoundTrip`).
- **InsertStream.** No message is ever rejected on any stream (`NoRejection`), no item is
  lost over any number of reconnects (`NoItemIsLost`), EndEpisode resets the chunkers only
  when nothing is pending, and so no item ever waits for a chunk that was given up
  (`EndEpisodeFindsNothingPending`, `NoItemIsStranded`). Exactly which chunks are sent
  more than once on a stream (`SentAgainIffForgotten`, `PopKeepsWaitingIff`). Whenever the
  worker is between batches or asleep, every item in flight has been written
  (`NothingWaitsUnwritten`, `SleepingWorkerHasWritten`); between reconnects items arrive in
  the order of their creation (`AcceptedInOrder`); and from every state everything can still
  be confirmed (`EverythingCanBeConfirmed`).
- **Sum tree.** A key is sampled exactly when the target lies in its own interval;
  the intervals tile the total weight (`DescentIffInterval`, `Sample`).
- **Heap.** Order and back-links survive every change; the top is the minimum with
  ties going to the oldest update.
- **Chunker.** A live cell reads back as it was appended exactly if compression is on or
  it is in the uncompressed queue; with compression this goes on after it expired, for
  all cells but those dropped by a reset or appended uncompressed (`GetData`,
  `ExpiredCellsAreStored`). Which cells are alive is exact (`Append`, `Flush`).
- **Patterns.** In terms of start, stop and step: which cells a node reads, and when it can
  read them (`ReadsPicks`, `ReadsIff`, `BuildDescribes`). What a condition looks at and when
  it holds (`HoldsIffSatisfied`).
- **Structured writer.** Splitting steps into parts makes no difference
  (`PartsMakeNoDifference`, `RunsAgree`). A config is applied exactly when it is due,
  and its item holds what its nodes describe (`FiresIffDue`, `AppendIsRight`). Trimming
  the columns changes nothing for a config whose length tests cannot tell the largest
  history from a longer one (`TrimmingIsUnobservable`); which tests these are is exact
  (`BlindIff`), and for minimum lengths so is the statement over runs
  (`UnobservableIff`).
- **SampleStream.** Collecting the entries gives back the samples in order; a stream that
  ended successfully delivered everything that was asked for; responses exceed the size
  limit by at most their last chunk and are filled before the next one is opened; and
  releasing chunks by reference count never drops one that is still needed. The client gets
  exactly the rows that each slice describes, or the error of the first slice that does not
  fit (`DeliversSamples`, `SuccessMeansAllDelivered`, `ProcessSample`, `ReceiveSample`).

## Where the code differs from what one would expect

- A chunk can be sent twice on one stream, because the keep keys are computed after the
  sent item has left the queue and so leave out the next one (`ChunkCanBeSentTwice`). A
  pop keeps every chunk that a waiting item refers to exactly when each streamed chunk of
  the next item has an active reference or belongs to a later item as well
  (`PopKeepsWaitingIff`), and a chunk is sent again exactly when a pop forgot it
  (`SentAgainIffForgotten`). The second copy is redundant if both end up in one message;
  otherwise the server has dropped the first.
- A table that is closed confirms the inserts that it never applied: a confirmed insert
  reached the table for certain only as long as the worker has not ended
  (`ConfirmedAreInTable`, `ConfirmedAtEnd`).
- An item that is inserted with its samples already used up is removed by no sample, not
  even of itself; only a delete, the remover or a reset takes it away (`UsedUpStays`).
- The validator of a structured config accepts an inverted buffer-length condition.
  Such a config then reads before the start of the buffer
  (`InvertedGuardExample`, `InvertedGuardReadsOutside`). The comment in
  `reverb/cc/structured_writer.cc` says that the condition rules this out.
- A config that asks for a longer buffer than any config needs is accepted and never
  creates an item, since the columns are cut before they get that long
  (`TooLongNeverCreates`, `LateGuardExample`).
- The "should never happen" error for a column given twice in one step happens exactly
  when the chunk of the column was closed in between; while it is open the chunker
  refuses the repetition (`GiveTwice`, `ImpossibleError`).
- Slices are merged by chunk key alone, so a column with gaps is stored as a slice
  without gaps (`MergeExactIffConsecutive`). A pattern with a step is stored as it was
  built exactly when no two neighbouring picks from one chunk have a value between them
  (`TrajectoryStoredIff`, `LargerStepIsExactIff`).
- Switching a column to uncompressed mode hides all cells that stay alive, since they
  already have their chunk (`SwitchHidesLiveCell`); uncompressed reads keep the batch
  dimension (`GetData`).
- `ConstantChunkerOptions::Clone` drops the delta-encoding flag (`CloneIsExactIff`). A
  `TrajectoryWriter` clones its options, so with these it never delta encodes. The chunker
  itself is modelled with the flag on or off.
- A sample request for zero samples draws one, since the vector grows to one: an OK
  answer keeps to the number asked for exactly when that was not zero
  (`AnswerFitsRequest`).
- `SampleToInsertRatio` refuses a `min_diff` above the offset because of a deadlock;
  the width check alone already rules out that both sides block
  (`WideCorridorNeverBlocksBoth`).

## Assumptions

- Every operation under the table's lock is one step. `WaitForBackgroundWork` releases
  the lock, also inside an insert before the limiter counts it
  (`reverb/cc/table.cc:625-631` by way of line 842); invariants are stated at the
  boundaries of operations.
- Priorities are valid numbers, so that selector calls made by a table succeed.
- Arithmetic on doubles is exact. Raising a priority to the exponent is an arbitrary
  non-negative function, and the random number is a parameter.
- Generated keys are fresh, and the clock is a parameter; the checkpoint round trip
  needs it to advance between inserts.
- Sizes of serialised chunks and items are arbitrary; those that decide when a request
  is written are positive.

## Model

| member | source | states |
|---|---|---|
| `TableSpec.AllRefsRemove` | reverb/cc/table.cc:820-832 | the episode counts of a table are those of any one item plus those of the rest |
| `TableSpec.DeleteMovesTogether` | reverb/cc/table.cc:815-844 | a delete takes the key from the map and both selectors, and moves size and delete counter together |
| `TableSpec.InsertKeepsInv` | reverb/cc/table.cc:594-633 | an insert with its eviction keeps the joint invariant, including the size bound |
| `TableSpec.SampleKeepsInv` | reverb/cc/table.cc:717-749 | a sample with its possible delete keeps the joint invariant |
| `TableSpec.SampleAfterCommit` | reverb/cc/table.cc:296-303 | counting the sample in the limiter before taking it makes no difference |
| `TableSpec.DeleteAllKeepsInv` | reverb/cc/table.cc:640-642 | any list of deletes keeps the joint invariant |
| `TableSpec.UpdateAllKeepsInv` | reverb/cc/table.cc:643-645 | any list of updates keeps the joint invariant |
| `TableSpec.StepKeepsInv` | reverb/cc/table.cc:594-652 | every operation keeps the joint invariant |
| `TableSpec.RunKeepsInv` | reverb/cc/table.cc:594-948 | along every path map and selectors have the same keys, inserts minus deletes is the size, and the size is bounded |
| `TableSpec.PermittedSampleFindsAnItem` | reverb/cc/table.cc:296-303 | along every path a sample that the limiter permits finds an item that the sampler can hand out |
| `TableSpec.StepStaysInTableCorridor` | reverb/cc/rate_limiter.cc:93-133 | every table operation keeps the limiter in its corridor |
| `TableSpec.RunStaysInCorridor` | reverb/cc/rate_limiter.cc:93-133 | the corridor holds on every run of the table, with evictions and deletes |
| `TableSpec.PathStaysInCorridor` | reverb/cc/rate_limiter.cc:93-133 | the corridor holds along every path that starts in it, for example from a loaded table |
| `TableSpec.SampleKeepsBelowMax` | reverb/cc/table.cc:741-746 | sampling leaves every resident item below the maximum number of samples |
| `TableSpec.InsertKeepsBelowMaxIff` | reverb/cc/table.cc:594-633 | an insert keeps resident items below the maximum exactly when the item is below it, known, or evicted at once |
| `TableSpec.RunKeepsBelowMax` | reverb/cc/table.cc:717-749 | on every run with unsampled inserts no resident item has used up its samples |
| `TableSpec.SampleKeepsUsedUp` | reverb/cc/table.cc:741-746 | no sample removes an item that has used up its samples |
| `TableSpec.UsedUpStays` | reverb/cc/table.cc:741-746 | such an item stays along every path until it is deleted, evicted or swept away by a reset |
| `TableSpec.UpdateReprioritizes` | reverb/cc/table.cc:896-907 | a known key gets the priority in the map and in every ranked selector, and nothing else changes; an unknown key changes nothing |
| `TableSpec.UpdateAllReprioritizes` | reverb/cc/table.cc:643-645 | after a list of updates each item has the priority of the last update that names it, and is otherwise as it was |
| `TableSpec.DeleteRemoves` | reverb/cc/table.cc:815-844 | exactly that key leaves the map and both selectors, the order of the rest stays, and the delete counter moves by the items removed |
| `TableSpec.DeleteAllRemoves` | reverb/cc/table.cc:640-642 | the same for any list of deletes: exactly its keys are gone |
| `TableSpec.MutationMutates` | reverb/cc/table.cc:635-652 | exactly the deleted keys are gone, and of the rest each has the priority of its last update, or its own |
| `TableSpec.InsertAdds` | reverb/cc/table.cc:594-633 | the item comes in with the time of its insert, at its place in both selectors; only the evicted key leaves, exactly when the table was full; one more insert is counted |
| `TableSpec.SampleDraws` | reverb/cc/table.cc:717-749 | only the counter of the drawn item changes, by one; the item leaves the table exactly when that reaches the maximum |
| `TableSpec.CounterCounts` | reverb/cc/table.cc:717-749 | along every path the counter of an item that stays has grown by exactly the number of its samples |
| `TableSpec.SampledOutIff` | reverb/cc/table.cc:741-746 | along every path a sample removes its item exactly when it is the last one that the item had left |
| `Table.CountsAreDetermined` | reverb/cc/table.cc:1003-1008 | the contents determine the stored episode counts, so loading restores them |
| `Table.Table.constructor` | reverb/cc/table.cc:153-183 | a new table holds nothing, has counted nothing, and has the given bounds and limiter |
| `Table.Table.ReferenceEpisodes` | reverb/cc/table.cc:617-619 | the stored counts grow by the references of the new item |
| `Table.Table.ReleaseEpisodes` | reverb/cc/table.cc:821-832 | counted references are released without error and no zero entry stays |
| `Table.Table.UpdateItem` | reverb/cc/table.cc:896-907 | a known key has the new priority in map and ranked selectors, and nothing else changed; an unknown key is ignored |
| `Table.Table.DeleteItem` | reverb/cc/table.cc:815-844 | never fails, and removes the key and its references everywhere |
| `Table.Table.EvictIfOverfull` | reverb/cc/table.cc:624-626 | removes a key that the remover may pick, exactly when the table is too large |
| `Table.Table.AddFresh` | reverb/cc/table.cc:606-619 | the item is added to map, selectors and counts |
| `Table.Table.InsertOrAssignInternal` | reverb/cc/table.cc:594-633 | a known key only gets the priority of the item, in map and selectors; a fresh item is added and counted, and one key leaves exactly when the table was full |
| `Table.Table.InsertFresh` | reverb/cc/table.cc:604-633 | the same for a key that is not in the table |
| `Table.Table.InsertCheckpointItem` | reverb/cc/table.cc:987-1012 | refuses a full table and a known key, else adds the item and leaves the limiter alone |
| `Table.Table.SampleInternal` | reverb/cc/table.cc:717-749 | hands out a key the sampler may pick, with its new counter, and deletes it when used up |
| `Table.Table.MaybeCommitSample` | reverb/cc/rate_limiter.cc:116-122 | counts a sample exactly when one is permitted |
| `Table.Table.MutateItems` | reverb/cc/table.cc:635-652 | exactly the deleted keys are gone, and each remaining item that is updated has the priority of its last update |
| `Table.Table.Reset` | reverb/cc/table.cc:928-937 | the table is as new, with its own selectors, bounds and limiter settings |
| `Selector.DistinctIffCount` | reverb/cc/selectors/fifo.cc:38-45 | the list has no repeated key exactly when it is as long as its key set |
| `Selector.InsertKeys` | reverb/cc/selectors/fifo.cc:38-45 | inserting adds one key |
| `Selector.UpdateKeys` | reverb/cc/selectors/lifo.cc:47-52 | updating keeps the keys |
| `Selector.DeleteKeys` | reverb/cc/selectors/fifo.cc:29-36 | deleting removes exactly that key |
| `Selector.DeleteLoses` | reverb/cc/selectors/fifo.cc:29-36 | a list without exactly that key, in the same order; priorities of the other keys stay |
| `Selector.InsertGains` | reverb/cc/selectors/lifo.cc:38-45 | a new key stands last in a FIFO and first in a LIFO, and has its priority in a ranked selector |
| `ListSelector.ListSelector.constructor` | reverb/cc/selectors/fifo.h:29-46 | an empty list |
| `ListSelector.ListSelector.Insert` | reverb/cc/selectors/fifo.cc:38-45 | a new key goes to the end of a FIFO and to the front of a LIFO; a known key is refused |
| `ListSelector.ListSelector.Update` | reverb/cc/selectors/fifo.cc:47-52 | changes nothing; an unknown key is refused |
| `ListSelector.ListSelector.Delete` | reverb/cc/selectors/lifo.cc:29-36 | removes exactly that key from the list; an unknown key is refused |
| `ListSelector.ListSelector.Sample` | reverb/cc/selectors/lifo.cc:54-57 | the one key that a table may be given |
| `ListSelector.ListSelector.Clear` | reverb/cc/selectors/fifo.cc:59-62 | an empty list |
| `Selector.SampleExists` | reverb/cc/selectors/fifo.cc:54-57 | a selector with keys has one to hand out |
| `RateLimiter.StepStaysInCorridor` | reverb/cc/rate_limiter.cc:93-133 | each permitted insert or sample, each delete and each reset keeps the corridor |
| `RateLimiter.Corridor` | reverb/cc/rate_limiter.cc:93-133 | on every run the cursor is at least min_diff once sampled, and at most max_diff unless the table is small |
| `RateLimiter.WideCorridorNeverBlocksBoth` | reverb/cc/rate_limiter.cc:107-133 | a corridor as wide as one sample plus one insert never blocks both sides |
| `RateLimiter.AcceptedRatioNeverBlocksBoth` | reverb/rate_limiters.py:122-153 | accepted parameters are valid and always permit an insert or a sample |
| `RateLimiter.NarrowCorridorCanBlockBoth` | reverb/rate_limiters.py:132-136 | without the width check a run can block both sides |
| `RateLimiter.PermittedIff` | reverb/cc/rate_limiter.cc:107-133 | an insert or a sample is permitted exactly when the counts after it are inside the corridor, inserts also while the table is small |
| `RateLimiter.RatioIff` | reverb/rate_limiters.py:122-153 | exactly which parameters are accepted, and that one error margin lies on both sides of the offset |
| `RateLimiter.SingleBoundsLaterInserts` | reverb/rate_limiters.py:109-125 | with one error margin, being in the corridor means that the samples differ by at most the margin from what the inserts after the first ones earn |
| `TableWorker.FinalizeKeepsKnown` | reverb/cc/table.cc:102-119 | finalizing a request neither loses nor duplicates one |
| `TableWorker.FinalizeKeepsLine` | reverb/cc/table.cc:102-119 | requests are answered in the order in which they stand in the vectors |
| `TableWorker.SampledKeeps` | reverb/cc/table.cc:296-318 | a drawn sample keeps the worker invariant, all requests and their order, answers only filled requests, with OK, and leaves less work |
| `TableWorker.FilledArePlain` | reverb/cc/table.cc:306-317 | an answer given while serving is OK and holds samples |
| `TableWorker.SkipMovedOut` | reverb/cc/table.cc:289-292 | the cursor ends behind the last request or on one that was not moved out, and nothing is lost |
| `TableWorker.DrawSample` | reverb/cc/table.cc:301-303 | the table makes the sample step, and the sample is the item that it handed out |
| `TableWorker.SampleOnce` | reverb/cc/table.cc:296-318 | samples exactly when permitted: the table makes one sample step, its item is added to the samples of the request, which is answered OK once it is filled and not before; what was asked for stays as it is |
| `TableWorker.ServeRequest` | reverb/cc/table.cc:294-320 | serves the request at the cursor by sample steps of the table; without progress the limiter says no; each answer is OK and its request holds what was asked for or reached the size bound |
| `TableWorker.InsertOnce` | reverb/cc/table.cc:270-286 | if there is an insert and it is permitted, the table makes the insert step of its item, and it is confirmed in order |
| `TableWorker.Pass` | reverb/cc/table.cc:266-321 | a pass that makes progress leaves less work; one that makes none is blocked; no request changes or moves out of line |
| `TableWorker.ProcessRequests` | reverb/cc/table.cc:263-322 | terminates after as many table steps as it counts progress, conserves requests with their numbers, deadlines and order, samples and items, answers exactly filled requests, with OK, and ends only when both sides are blocked |
| `TableWorker.ServedTableStaysInCorridor` | reverb/cc/rate_limiter.cc:93-133 | the table that a worker serves stays in the corridor |
| `TableWorker.TakeInsertsKeeps` | reverb/cc/table.cc:335-341 | fetching a batch of inserts keeps their order |
| `TableWorker.TakeSamplingKeeps` | reverb/cc/table.cc:342-352 | fetching a batch of requests loses none |
| `TableWorker.GetExpiredRequests` | reverb/cc/table.cc:125-141 | moves exactly the overdue requests out, in order, leaves the rest in place and nothing overdue |
| `TableWorker.OverdueConserves` | reverb/cc/table.cc:125-141 | each request is afterwards in exactly one of the two vectors |
| `TableWorker.AnswerSlotsAnswersAll` | reverb/cc/table.cc:392-399 | every request still there is answered once, with an answer that fits its samples |
| `TableWorker.ExpireKeepsInv` | reverb/cc/table.cc:359-401 | timing requests out keeps the invariant and conserves all requests |
| `TableWorker.ExpireKeepsDrawn` | reverb/cc/table.cc:389-401 | timing requests out neither loses nor reorders samples |
| `TableWorker.AnswerPartialKeeps` | reverb/cc/table.cc:364-375 | answering the partly filled request, which was not moved out, conserves all requests |
| `TableWorker.QuietRoundAnswers` | reverb/cc/table.cc:353-401 | a round without progress leaves no request overdue, and no partly filled one unless others timed out |
| `TableWorker.QuietIff` | reverb/cc/table.cc:335-358 | a round counts as quiet exactly if it made no progress and there is nothing to fetch for a side that ran out |
| `TableWorker.SettledAnswers` | reverb/cc/table.cc:359-401 | a worker at rest answers only requests past their deadline, with OK if they hold samples and as timeouts if not, or the partly filled one at the cursor, with OK |
| `TableWorker.SettledPlainly` | reverb/cc/table.cc:359-401 | so every such answer is OK if it holds samples and a timeout if it holds none |
| `TableWorker.OverdueAreExpired` | reverb/cc/table.cc:125-141 | only requests past their deadline are moved out |
| `TableWorker.Settle` | reverb/cc/table.cc:326-401 | a side that ran out takes over its queued batch; without progress answers what is overdue or else the partly filled request; conserves everything |
| `TableWorker.ExpireOrAnswer` | reverb/cc/table.cc:359-401 | answers exactly the overdue requests, or, if there are none, the partly filled one, which was not moved out |
| `TableWorker.ShutdownAnswersAll` | reverb/cc/table.cc:404-423 | every request known is answered, and every insert confirmed in order |
| `TableWorker.ShutdownKeepsDrawn` | reverb/cc/table.cc:416-421 | the samples of a cancelled request are not lost either |
| `TableWorker.ShutdownCancels` | reverb/cc/table.cc:404-423 | every answer given at the end is a cancellation |
| `TableWorker.RequestIsAccounted` | reverb/cc/table.cc:661-690 | a new request is known once more, queued or refused |
| `TableWorker.AnswersWereAskedFor` | reverb/cc/table.cc:661-690 | nothing is answered that was not asked for, with its number and deadline, and in the end everything was answered exactly once |
| `TableWorker.AnswerFitsRequest` | reverb/cc/table.cc:306-317 | the status of an answer fits its samples, and an OK answer holds between one sample and the number asked for, or one if that was zero; so it keeps to that number exactly when it was not zero |
| `TableWorker.ConfirmedAreInTable` | reverb/cc/table.cc:270-286 | while the worker runs, the confirmed inserts are exactly those whose items went to the table, in order |
| `TableWorker.ConfirmedAtEnd` | reverb/cc/table.cc:404-423 | the end confirms every insert; all of their items went to the table exactly when none was waiting |
| `TableWorker.WorkerThread.constructor` | reverb/cc/table.cc:237-256 | nothing is enqueued yet, and the path starts at the table as it is |
| `TableWorker.WorkerThread.EveryAnswerFits` | reverb/cc/table.cc:102-119 | at any time every answer fits a request that was enqueued; until the worker is told to stop, it is OK exactly if it holds samples and else a timeout; at the end all requests have one |
| `TableWorker.WorkerThread.EnqueueSampleRequest` | reverb/cc/table.cc:661-690 | the request is queued behind the others, or answered at once as cancelled by a stopped worker |
| `TableWorker.WorkerThread.InsertOrAssignAsync` | reverb/cc/table.cc:569-592 | the insert is queued behind the others, or refused by a stopped worker |
| `TableWorker.WorkerThread.Close` | reverb/cc/table.cc:803-813 | the worker is told to stop, and nothing else changes |
| `TableWorker.WorkerThread.Iterate` | reverb/cc/table.cc:261-402 | a turn serves until nothing more is permitted, then settles; without progress nothing stays overdue; each request, as it was made, is answered or queued exactly once |
| `TableWorker.WorkerThread.LastTurn` | reverb/cc/table.cc:404-424 | after Close the worker serves once more, then answers every request, as it was made, and confirms every insert |
| `TableWorker.WorkerThread.Serve` | reverb/cc/table.cc:263-322 | serves until nothing more is permitted, and changes or reorders no request |
| `TableWorker.WorkerThread.Rest` | reverb/cc/table.cc:326-401 | settles, and leaves nothing overdue if there was no progress |
| `TableWorker.End` | reverb/cc/table.cc:404-423 | the books are closed: every request is answered and every insert confirmed, once |
| `TableWorker.WorkerThread.Finish` | reverb/cc/table.cc:404-423 | every request is answered and every insert confirmed, once |
| `TableWorker.WorkerThread.MutateItems` | reverb/cc/table.cc:635-652 | deletes and updates extend the path of the table and touch no request |
| `TableWorker.WorkerThread.Reset` | reverb/cc/table.cc:909-948 | a reset extends the path of the table and touches no request |
| `BoundedBuffers.BufferGuards` | reverb/rate_limiters.py:175-199 | inserts are permitted exactly while there is room, samples exactly while not empty |
| `BoundedBuffers.BufferInsert` | reverb/server.py:187-195 | an unknown key goes to the end (queue) or top (stack) and nothing is evicted |
| `BoundedBuffers.BufferSample` | reverb/cc/table.cc:717-749 | a sample takes away the first key |
| `BoundedBuffers.QueueRefinement` | reverb/server.py:187-195 | on every run inserted keys = sampled keys followed by contents, within the bound |
| `BoundedBuffers.StackRefinement` | reverb/server.py:214-222 | on every run the contents are those of a bounded stack |
| `BoundedBuffers.StackSampleIsTop` | reverb/server.py:214-222 | every sample of a stack table takes the top |
| `ServedQueue.AnswersAreTheQueue` | reverb/server.py:187-195 | under a worker, inserted keys = keys of the samples in the answers and at the cursor, in order, followed by the contents |
| `Checkpoint.InsertKeepsOrder` | reverb/cc/table.cc:604-610 | a later item keeps the FIFO or LIFO list in order of time |
| `Checkpoint.DeleteKeepsOrder` | reverb/cc/selectors/fifo.cc:29-36 | deleting keeps the order of time |
| `Checkpoint.RunKeepsTime` | reverb/cc/table.cc:604-610 | on every run with an advancing clock the lists are in order of insertion time and all times differ |
| `Checkpoint.LoadAllSucceeds` | reverb/cc/table.cc:987-1012 | loading sorted items never meets a full table or a known key |
| `Checkpoint.SelectorDetermined` | reverb/cc/table.cc:979-982 | items and their times determine the order of the list |
| `Checkpoint.LoadingRestores` | reverb/cc/table.cc:950-1012 | loading the checkpoint of a table in order gives that table back |
| `Checkpoint.RoundTrip` | reverb/cc/table.cc:950-1012 | on every run, loading the checkpoint gives the same items, selector order and limiter |
| `InsertStream.AcceptsWhatItHolds` | reverb/cc/reverb_service_impl.cc:228-246 | a reactor that holds all chunks of the items accepts all of them |
| `InsertStream.AcceptsIff` | reverb/cc/reverb_service_impl.cc:228-246 | the items of a message are accepted, all and in order, exactly when every chunk that they refer to is held |
| `InsertStream.KeptIff` | reverb/cc/reverb_service_impl.cc:287-305 | as many chunks are left as were to be kept exactly when all of those were held |
| `InsertStream.ReceiveIff` | reverb/cc/reverb_service_impl.cc:210-305 | exactly which messages are refused, with which error; else all items are taken in order and the reactor holds the keep keys, or all chunks if there were no items |
| `InsertStream.WriteIsSafe` | reverb/cc/trajectory_writer.cc:163-188 | a written request is accepted and leaves the server with the remembered chunks |
| `InsertStream.SendRefIsSafe` | reverb/cc/trajectory_writer.cc:190-215 | sending a chunk, with a possible early write, keeps the invariant |
| `InsertStream.PopItemIsSafe` | reverb/cc/trajectory_writer.cc:573-598 | dropping keys from the remembered chunks keeps the invariant |
| `InsertStream.StepIsSafe` | reverb/cc/trajectory_writer.cc:600-705 | every step of client, network or server keeps the invariant of all streams |
| `InsertStream.StepKeepsItems` | reverb/cc/trajectory_writer.cc:648-654 | created items stay the disjoint union of queued, in flight and confirmed ones, and every item in flight is in a request or on the stream |
| `InsertStream.ReconnectKeepsItems` | reverb/cc/trajectory_writer.cc:313-321 | a lost connection puts every unconfirmed item back into the queue |
| `InsertStream.RunKeepsInvariant` | reverb/cc/trajectory_writer.cc:600-705 | the invariants hold on every run |
| `InsertStream.NoRejection` | reverb/cc/reverb_service_impl.cc:210-305 | on every run no reactor ever rejects a message, now or later |
| `InsertStream.NoItemIsLost` | reverb/cc/trajectory_writer.cc:506-517 | on every run, with any number of reconnects, the pending items are exactly the unconfirmed ones, those in flight are in the request or on the stream, and confirmed ones were accepted by a reactor that held their chunks |
| `InsertStream.StepWrites` | reverb/cc/trajectory_writer.cc:600-705 | exactly which steps write a message, and what it holds: a full request, all that is left before the worker waits for a chunk, or the request that the last item of a batch completes |
| `InsertStream.NothingWaitsUnwritten` | reverb/cc/trajectory_writer.cc:690-701 | on every run, when the worker is between batches or has nothing queued, the request is empty and every item in flight will be accepted from what was written |
| `InsertStream.SleepingWorkerHasWritten` | reverb/cc/trajectory_writer.cc:623-647 | the same when the worker waits for a chunk that is not finalized |
| `InsertStream.ConfirmationCounts` | reverb/cc/trajectory_writer.cc:506-517 | a confirmation takes exactly its item out of flight |
| `InsertStream.ReconnectStartsAfresh` | reverb/cc/trajectory_writer.cc:313-321 | after a lost connection all items in flight stand before the queue, and nothing is remembered of the old stream |
| `InsertStream.EndEpisodeClosesChunks` | reverb/cc/trajectory_writer.cc:766-774 | no chunk is open afterwards: with clearing open ones are given up, otherwise all are finalized |
| `InsertStream.EverythingCanBeConfirmed` | reverb/cc/trajectory_writer.cc:600-705 | nothing is ever stuck: every run can go on, without a lost connection, until every item is confirmed |
| `InsertStream.StepKeepsLine` | reverb/cc/trajectory_writer.cc:600-705 | no step but a reconnect reorders the items that the reactor accepted or will accept, those in the request and those in the queue |
| `InsertStream.AcceptedInOrder` | reverb/cc/trajectory_writer.cc:600-705 | between reconnects items reach the reactor in the order in which they were created |
| `InsertStream.FlushLeavesAtMost` | reverb/cc/trajectory_writer.cc:738-752 | a Flush that returns leaves at most the given number of items unconfirmed |
| `InsertStream.ForceFlushMakesReady` | reverb/cc/trajectory_writer.cc:720-729 | before Flush waits, all chunks of all queued items but the last ones are finalized |
| `InsertStream.ForceFlushFinalizesIff` | reverb/cc/trajectory_writer.cc:720-729 | Flush finalizes exactly the chunks that those items refer to, and does nothing else |
| `InsertStream.EndEpisodeFindsNothingPending` | reverb/cc/trajectory_writer.cc:757-778 | the chunkers are reset only when every item ever created is confirmed |
| `InsertStream.NoItemIsStranded` | reverb/cc/trajectory_writer.cc:757-778 | on every run no pending item refers to a chunk that was given up before it was finalized |
| `InsertStream.StepKeepsChunks` | reverb/cc/trajectory_writer.cc:600-778 | every step keeps pending items on chunks that are finalized or still can be |
| `InsertStream.PopKeepsWaitingIff` | reverb/cc/trajectory_writer.cc:573-598 | a pop remembers every streamed chunk that a waiting item refers to exactly when those of the next item are active or belong to a later item too |
| `InsertStream.StepStreams` | reverb/cc/trajectory_writer.cc:190-215 | only sending remembers a chunk, only a pop or a reconnect forgets one |
| `InsertStream.SentAgainIffForgotten` | reverb/cc/trajectory_writer.cc:190-215 | on every run a chunk about to be sent was sent before on this stream exactly when a pop forgot it since |
| `InsertStream.ForgottenIsSentAgain` | reverb/cc/trajectory_writer.cc:623-643 | a forgotten chunk is sent again before an item that refers to it follows on the same stream |
| `InsertStream.CarefulRunRepeatsNothing` | reverb/cc/trajectory_writer.cc:584-588 | a run whose pops all cover the next item, and whose new items refer to no forgotten chunk, sends no chunk twice on a stream |
| `InsertStream.ChunkCanBeSentTwice` | reverb/cc/trajectory_writer.cc:584-588 | a run that sends one chunk twice in one message, after a newer chunk has pushed it out of its column |
| `SumTree.ForestWeight` | reverb/cc/selectors/prioritized.cc:180-182 | the nodes from k on weigh what the roots k..2k of their forest store |
| `SumTree.RootSumIsTotalWeight` | reverb/cc/selectors/prioritized.cc:110-122 | the root's sum is the plain sum of all weights |
| `SumTree.Descend` | reverb/cc/selectors/prioritized.cc:127-147 | the descent ends at an occupied node |
| `SumTree.DescentEntersSubtree` | reverb/cc/selectors/prioritized.cc:127-147 | a target inside a subtree's interval leads the descent into it |
| `SumTree.DescentLandsInside` | reverb/cc/selectors/prioritized.cc:127-147 | the descent ends at a node whose own interval holds the target |
| `SumTree.DescentIffInterval` | reverb/cc/selectors/prioritized.cc:110-154 | node i is returned exactly when the target lies in its interval |
| `SumTree.SubtreeInsideTotal` | reverb/cc/selectors/prioritized.cc:110-154 | no interval reaches outside the total |
| `SumTree.BumpMovesHole` | reverb/cc/selectors/prioritized.cc:198-222 | correcting a node moves the error to its parent, without clamping or rebuilding |
| `SumTree.SetValueOpensHole` | reverb/cc/selectors/prioritized.cc:198-206 | a changed value makes only its own sum wrong, by the difference |
| `SumTree.WeightlessNodeIsFree` | reverb/cc/selectors/prioritized.cc:77-78 | a last node without weight can be added or dropped |
| `SumTree.ZeroBeyond` | reverb/cc/selectors/prioritized.cc:156-162 | there is no weight beyond the occupied nodes |
| `PrioritizedSelector.PrioritizedSelector.constructor` | reverb/cc/selectors/prioritized.cc:55-60 | an empty map of weights |
| `PrioritizedSelector.PrioritizedSelector.ReinitializeSumTree` | reverb/cc/selectors/prioritized.cc:226-231 | restores the tree from arbitrary sums |
| `PrioritizedSelector.PrioritizedSelector.SetNode` | reverb/cc/selectors/prioritized.cc:198-222 | sets one weight; on a correct tree the rebuild never fires and the tree stays correct |
| `PrioritizedSelector.PrioritizedSelector.Reserve` | reverb/cc/selectors/prioritized.cc:86-89 | doubling the vector changes no weight |
| `PrioritizedSelector.PrioritizedSelector.Insert` | reverb/cc/selectors/prioritized.cc:83-98 | adds the weight of a new key; refuses a known key or negative priority |
| `PrioritizedSelector.PrioritizedSelector.Update` | reverb/cc/selectors/prioritized.cc:100-108 | replaces the weight of a known key only |
| `PrioritizedSelector.PrioritizedSelector.ReplaceByLast` | reverb/cc/selectors/prioritized.cc:69-75 | the last node takes over the slot and the tree stays correct |
| `PrioritizedSelector.PrioritizedSelector.Delete` | reverb/cc/selectors/prioritized.cc:62-81 | removes exactly that key; refuses an unknown one |
| `PrioritizedSelector.PrioritizedSelector.Clear` | reverb/cc/selectors/prioritized.cc:156-162 | no weights are left |
| `PrioritizedSelector.PrioritizedSelector.FindNode` | reverb/cc/selectors/prioritized.cc:124-147 | the loop is the descent |
| `PrioritizedSelector.PrioritizedSelector.FindKey` | reverb/cc/selectors/prioritized.cc:124-154 | the one key whose interval holds the point, which has weight |
| `PrioritizedSelector.PrioritizedSelector.Sample` | reverb/cc/selectors/prioritized.cc:110-154 | the key of the target's interval with its share as probability; uniform without weights |
| `BackLinks.SwapOutLinks` | reverb/cc/selectors/prioritized.cc:67-78 | swap with last keeps keys and indices a bijection |
| `BackLinks.ExchangeLinks` | reverb/cc/support/intrusive_heap.h:227-229 | exchanging two elements and their links keeps the bijection |
| `IntrusiveHeap.TopIsLeast` | reverb/cc/support/intrusive_heap.h:132-136 | no element of a heap is before the first |
| `IntrusiveHeap.MoveIntoHole` | reverb/cc/support/intrusive_heap.h:238-240 | moving an element into the hole is an exchange of elements and links |
| `IntrusiveHeap.FixHeapUp` | reverb/cc/support/intrusive_heap.h:231-244 | restores order and links when one element is too far down |
| `IntrusiveHeap.FixHeapDown` | reverb/cc/support/intrusive_heap.h:246-267 | restores order and links when one element is too far up |
| `IntrusiveHeap.Adjust` | reverb/cc/support/intrusive_heap.h:153-161 | restores order and links after any change of one rank |
| `IntrusiveHeap.RerankOrdered` | reverb/cc/selectors/heap.cc:58-60 | changing one rank leaves order everywhere else |
| `IntrusiveHeap.PushOrdered` | reverb/cc/support/intrusive_heap.h:146-150 | a pushed element is the only one out of order |
| `IntrusiveHeap.ReplaceOrdered` | reverb/cc/support/intrusive_heap.h:173-178 | overwriting an element by the last leaves order everywhere else |
| `HeapSelector.Remove` | reverb/cc/support/intrusive_heap.h:164-179 | takes any element out and keeps order and links |
| `HeapSelector.HeapSelector.Insert` | reverb/cc/selectors/heap.cc:43-52 | adds the key with the next update number; refuses a known one |
| `HeapSelector.HeapSelector.Update` | reverb/cc/selectors/heap.cc:54-62 | gives a known key a new priority and the next update number |
| `HeapSelector.HeapSelector.Delete` | reverb/cc/selectors/heap.cc:33-41 | removes exactly that key; refuses an unknown one |
| `HeapSelector.HeapSelector.Clear` | reverb/cc/selectors/heap.cc:69-72 | no key is left |
| `HeapSelector.HeapSelector.Sample` | reverb/cc/selectors/heap.cc:64-67 | the best priority, ties going to the key inserted or updated first |
| `DeltaEncoding.DecodeEncode` | reverb/cc/tensor_compression.cc:48-55 | decoding undoes encoding for any word width |
| `DeltaEncoding.EncodeDecode` | reverb/cc/tensor_compression.cc:48-55 | encoding undoes decoding |
| `DeltaEncoding.EncodedWords` | reverb/cc/tensor_compression.cc:35-57 | the first row is kept, and each word of a later one is the wrapped difference to the word above it |
| `DeltaEncoding.DeltaRow` | reverb/cc/tensor_compression.cc:52-54 | one row of wrapped differences or sums |
| `DeltaEncoding.DeltaEncode` | reverb/cc/tensor_compression.cc:35-57 | the loop computes the encoding or decoding of the batch |
| `ChunkerSpec.EncodedReads` | reverb/cc/chunker.cc:370-380 | every row of a chunk reads back, delta encoded or not |
| `ChunkerSpec.BuildRange` | reverb/cc/chunker.cc:272-314 | the range of increasing steps is built without error, sparse exactly if steps are missing |
| `ChunkerSpec.AttachChunk` | reverb/cc/chunker.cc:316-322 | exactly the active references with its key get the chunk |
| `Chunker.BufferMatches` | reverb/cc/chunker.cc:272-322 | the active references with the next key are the buffered cells, with increasing steps |
| `Chunker.MakeChunk` | reverb/cc/chunker.cc:254-314 | the sanity check never fails, and the chunk has the encoded buffer and its range |
| `Chunker.HandOut` | reverb/cc/chunker.cc:316-322 | exactly the buffered cells point to the new chunk |
| `Chunker.FlushKeepsInv` | reverb/cc/chunker.cc:245-329 | afterwards every cell before the buffer reads back from its chunk |
| `Chunker.PushKeepsInv` | reverb/cc/chunker.cc:149-163 | a buffered cell keeps the invariant |
| `Chunker.PushUncompressedKeepsInv` | reverb/cc/chunker.cc:195-211 | an uncompressed cell keeps the invariant |
| `Chunker.TrimKeepsInv` | reverb/cc/chunker.cc:170-173 | dropping old references keeps the invariant |
| `Chunker.Trim` | reverb/cc/chunker.cc:213-222 | exactly the newest references and cells stay |
| `Chunker.AgeOf` | reverb/cc/chunker.cc:385-389 | the distance of a reference from the newest one |
| `Chunker.ResetKeepsInv` | reverb/cc/chunker.cc:331-341 | a reset keeps the invariant; cells without a chunk are given up |
| `Chunker.Chunker.constructor` | reverb/cc/chunker.cc:104-114 | nothing is stored yet |
| `Chunker.FlushState` | reverb/cc/chunker.cc:245-329 | always succeeds with compression on, empties the buffer, and leaves references and queue alone |
| `Chunker.PushState` | reverb/cc/chunker.cc:149-168 | the cell is buffered behind all live references, and a full buffer becomes a chunk |
| `Chunker.Chunker.Append` | reverb/cc/chunker.cc:116-178 | accepts exactly fitting tensors of the same episode and a later step; then exactly the newest references stay alive, the new one among them |
| `Chunker.Chunker.AppendCompressed` | reverb/cc/chunker.cc:149-177 | the cell is recorded, a full buffer becomes a chunk before anything expires, and exactly the newest references stay alive |
| `Chunker.Chunker.PushAndFlush` | reverb/cc/chunker.cc:149-168 | the cell is buffered, a full buffer becomes a chunk, and all older references stay alive |
| `Chunker.Chunker.DropOld` | reverb/cc/chunker.cc:170-173 | exactly the newest references stay alive |
| `Chunker.Chunker.AppendUncompressed` | reverb/cc/chunker.cc:180-227 | refuses only a repeated or earlier step of the same episode; else exactly the newest references and cells stay |
| `Chunker.Chunker.Flush` | reverb/cc/chunker.cc:240-243 | every live cell has its chunk and stays alive, or the call fails without compression |
| `Chunker.Chunker.Reset` | reverb/cc/chunker.cc:331-341 | everything is given up, and a new chunk key is taken |
| `Chunker.Chunker.ApplyConfig` | reverb/cc/chunker.cc:345-361 | refused while cells are buffered or for invalid options, else old references are dropped |
| `Chunker.Chunker.TuneMaxChunkLength` | reverb/cc/chunker.cc:564-593 | the chunk length stays between one and the number of live references |
| `Chunker.Chunker.GetData` | reverb/cc/chunker.cc:363-435 | a live cell can be read exactly if compression is on or it is queued, and is the tensor that was appended, batched without compression; any other cell exactly if it was neither dropped nor appended uncompressed |
| `Chunker.Chunker.ReadQueue` | reverb/cc/chunker.cc:385-406 | finds the cell by its age among the references, as a batch of one |
| `Chunker.Chunker.ReadChunk` | reverb/cc/chunker.cc:370-380 | unpacks the row that was appended |
| `Chunker.ExpiredCellsAreStored` | reverb/cc/chunker.cc:165-173 | a cell pushed out of the window already has its chunk |
| `Chunker.LiveCellsWithoutChunk` | reverb/cc/chunker.cc:408-435 | of the live cells, exactly those in the uncompressed queue never get a chunk |
| `Chunker.PushKeepsOffsets` | reverb/cc/chunker.cc:149-151 | cells of one chunk have offsets in the order in which they were appended |
| `Chunker.SwitchHidesLiveCell` | reverb/cc/chunker.cc:345-361 | after an accepted change of options a cell that stayed alive can be read exactly if compression is on |
| `Chunker.RepeatAcceptedIff` | reverb/cc/chunker.cc:137-147 | a step given again is accepted exactly when compression is on and its chunk is closed |
| `Chunker.AcceptsIff` | reverb/cc/chunker.cc:130-147 | a step is accepted exactly when nothing is buffered or it follows the newest reference, in the same episode with compression |
| `ChunkerSpec.CloneIsExactIff` | reverb/cc/chunker.cc:491-494 | a clone of constant options is the same exactly when they do not delta encode |
| `RepeatedColumn.AppendTwice` | reverb/cc/chunker.cc:136-168 | appending a step twice fails exactly while its chunk is open |
| `RepeatedColumn.GiveTwiceToWriter` | reverb/cc/structured_writer.cc:483-494 | a column given twice ends in the writer's error or, if the wrapped writer takes it, in the internal one |
| `RepeatedColumn.GiveTwice` | reverb/cc/structured_writer.cc:483-494 | for every chunker and writer, the internal error occurs exactly when the first value closed the chunk |
| `RepeatedColumn.ImpossibleError` | reverb/cc/structured_writer.cc:485-492 | chunks of one cell lead to the internal error on the first step |
| `MergeSlices.MergeAdjacent` | reverb/cc/trajectory_writer.cc:102-122 | the loop computes the merged slices |
| `MergeSlices.MergeKeepsChunks` | reverb/cc/trajectory_writer.cc:102-122 | the slices expand to the right length and chunks |
| `MergeSlices.MergeExactIffConsecutive` | reverb/cc/trajectory_writer.cc:102-122 | they expand to the same cells exactly when neighbours in a chunk are consecutive |
| `MergeSlices.MergedAreApart` | reverb/cc/trajectory_writer.cc:102-122 | neighbouring slices have different chunks |
| `MergeSlices.MergedCells` | reverb/cc/trajectory_writer.cc:102-122 | the cell at each place is the one merged there, or the one after that of the place before it if the chunk is the same |
| `StoredColumns.ChunkerLaysOut` | reverb/cc/chunker.cc:149-151 | a column whose values are successive cells of a chunker holds, chunk by chunk, successive offsets |
| `StoredColumns.SliceStoredIff` | reverb/cc/trajectory_writer.cc:102-122 | a slice is stored as built exactly when no two neighbouring picks from one chunk have a value between them |
| `StoredColumns.StepOneIsExact` | reverb/cc/structured_writer.cc:241-257 | slices with step one are always stored as built |
| `StoredColumns.LargerStepIsExactIff` | reverb/cc/structured_writer.cc:241-257 | without gaps, a larger step is stored as built exactly when no neighbouring picks share a chunk |
| `StoredColumns.TrajectoryStoredIff` | reverb/cc/structured_writer.cc:235-259 | the same for every node of a built trajectory |
| `Patterns.OldestAgeIsMax` | reverb/cc/structured_writer.cc:400-402 | the age that the validator looks for is the largest of all nodes |
| `Patterns.CollectIsSlice` | reverb/cc/structured_writer.cc:244-257 | the collected cells are every step-th cell of the stretch |
| `Patterns.CollectSucceedsIff` | reverb/cc/structured_writer.cc:244-257 | collecting succeeds exactly if every place of the stretch is in the column and holds a cell |
| `Patterns.ReadsIff` | reverb/cc/structured_writer.cc:235-257 | a valid node can be read exactly if every cell that its start, stop and step name is there |
| `Patterns.ReadsPicks` | reverb/cc/structured_writer.cc:235-257 | with a start it reads exactly the cells from start, step by step, below stop, in order; without one the single cell at stop |
| `Patterns.NodeFindsIff` | reverb/cc/structured_writer.cc:217-257 | the same for a node of a pattern and its source column |
| `Patterns.BuildDescribes` | reverb/cc/structured_writer.cc:217-270 | a trajectory is built exactly if all nodes find their cells; then column i holds what node i names, squeezed exactly without a start |
| `Patterns.SeesIff` | reverb/cc/structured_writer.cc:87-143 | the value that a condition looks at: step, steps since the last item, longest buffer, end of the episode, or the newest integer of a column, cut to 32 bits |
| `Patterns.RemainderIff` | reverb/cc/structured_writer.cc:157-159 | the remainder in terms of quotients, with the sign of the dividend |
| `Patterns.HoldsIffSatisfied` | reverb/cc/structured_writer.cc:81-163 | a condition holds exactly if it sees a value that meets the comparison, or does not if it is inverted |
| `Patterns.NodeInsideIff` | reverb/cc/structured_writer.cc:235-257 | a valid node reads inside its column exactly when the column is as long as it reaches back |
| `Patterns.InsideIffEnoughSteps` | reverb/cc/structured_writer.cc:397-415 | an accepted config reads inside the buffers exactly when enough steps were appended |
| `Patterns.GuardedReadsHistory` | reverb/cc/structured_writer.cc:217-270 | with a condition that is not inverted, reading is in bounds and equals reading the full history |
| `Patterns.InvertedGuardReadsOutside` | reverb/cc/structured_writer.cc:404-407 | with an inverted condition a config is accepted whatever its other conditions, and reads outside whenever these hold with too few steps |
| `Patterns.OnlyUnguardedReadOutside` | reverb/cc/structured_writer.cc:404-407 | only a config without a proper length condition ever reads outside |
| `Patterns.WindowBuild` | reverb/cc/structured_writer.cc:217-270 | building from the kept windows equals building from the full columns, in every outcome |
| `Patterns.LongestWindow` | reverb/cc/structured_writer.cc:93-98 | the longest buffer is the number of steps cut at the largest history |
| `Patterns.BlindIff` | reverb/cc/structured_writer.cc:152-162 | exactly which comparisons cannot tell a cut length from the full one |
| `Patterns.InvertedGuardExample` | reverb/cc/structured_writer.cc:404-407 | a two-step slice that reads before the first cell |
| `Patterns.MaxHistoryLengthPerColumn` | reverb/cc/structured_writer.cc:349-374 | enough history for every config, and no entry without a node or condition that needs it |
| `Patterns.CoverNodes` | reverb/cc/structured_writer.cc:353-360 | the nodes of one config are covered, and nothing shrinks |
| `Patterns.CoverConditions` | reverb/cc/structured_writer.cc:362-371 | the data conditions of one config are covered, and nothing shrinks |
| `StructuredWriterSpec.HoldsFilled` | reverb/cc/structured_writer.cc:81-163 | a condition that holds on part of a step holds on all of it |
| `StructuredWriterSpec.BuildFilled` | reverb/cc/structured_writer.cc:217-270 | a trajectory built from part of a step is the one built from all of it |
| `StructuredWriterSpec.VisitAbsorbs` | reverb/cc/structured_writer.cc:519-554 | looking at a config on part of a step and then on all of it equals looking once |
| `StructuredWriterSpec.AppendTwice` | reverb/cc/structured_writer.cc:440-507 | a partial call followed by another equals one call with both data |
| `StructuredWriterSpec.PartsMakeNoDifference` | reverb/cc/structured_writer.h:44-46 | any split of a step into disjoint parts gives the same columns, counters and items |
| `StructuredWriterSpec.AtMostOneItemPerStep` | reverb/cc/structured_writer.cc:520-523 | a step in any number of calls creates at most one item per config |
| `StructuredWriterSpec.FiresIffDue` | reverb/cc/structured_writer.cc:519-554 | a config is applied exactly if it has not been in this step, all its conditions are satisfied and all its nodes find their cells |
| `StructuredWriterSpec.VisitTreats` | reverb/cc/structured_writer.cc:519-554 | then one item more, made of the cells that its nodes name, else none; how the step counts in each case |
| `StructuredWriterSpec.VisitsTreat` | reverb/cc/structured_writer.cc:509-557 | the same for all configs, or nothing if there is no step yet |
| `StructuredWriterSpec.ColumnGrows` | reverb/cc/structured_writer.cc:440-501 | a new step puts one cell at the end, a continued one only fills it; the newest cells are kept |
| `StructuredWriterSpec.AppendIsRight` | reverb/cc/structured_writer.cc:440-507 | a call lets every column grow like this, counts the step exactly when it ends it, and treats every config on the new columns |
| `StructuredWriterSpec.StepCountsOnce` | reverb/cc/structured_writer.cc:525-529 | a step in any number of calls counts once, or starts the count again with a new item |
| `StructuredWriterSpec.RunsAgree` | reverb/cc/structured_writer.h:44-46 | over whole runs with episode ends, splitting steps changes nothing |
| `StructuredWriterSpec.VisitOnWindow` | reverb/cc/structured_writer.cc:509-557 | a config with blind length tests does the same on trimmed columns as on the full history with its full length |
| `StructuredWriterSpec.HoldsOnWindow` | reverb/cc/structured_writer.cc:81-163 | a condition that is blind to the cut holds on the windows exactly when it holds on the full history |
| `StructuredWriterSpec.AppendMatches` | reverb/cc/structured_writer.cc:468-501 | after a call each column is the last cells of its full history, and configs with blind length tests agree |
| `StructuredWriterSpec.TrimmingIsUnobservable` | reverb/cc/structured_writer.cc:497-500 | over whole runs configs with blind length tests create what a writer that never drops a cell creates |
| `LengthTests.TooLongNeverCreates` | reverb/cc/structured_writer.cc:404-407 | a config that asks for more than the largest history creates no item on any run |
| `LengthTests.TooLongShows` | reverb/cc/structured_writer.cc:497-500 | with minimum lengths as its only conditions it would create one from the full history |
| `LengthTests.BlindIsSameOnRun` | reverb/cc/structured_writer.cc:497-500 | any config with blind length tests is the same on every run |
| `LengthTests.UnobservableIff` | reverb/cc/structured_writer.cc:497-500 | for minimum lengths, trimming is unobservable on all runs exactly when none exceeds the largest history |
| `LengthTests.LateGuardExample` | reverb/cc/structured_writer.cc:404-407 | an accepted and guarded config that never applies |
| `StructuredWriter.ApplyConfig` | reverb/cc/structured_writer.cc:519-554 | a config that is due creates the item that its nodes describe and starts its count again; any other only counts the step; a refused item leaves the config unapplied |
| `StructuredWriter.SafeReadsInside` | reverb/cc/structured_writer.cc:217-270 | a guarded config, or one with enough steps, reads no cell outside the buffers |
| `StructuredWriter.SafeAppend` | reverb/cc/structured_writer.cc:509-557 | such configs can be applied after any append |
| `StructuredWriter.StructuredWriter.constructor` | reverb/cc/structured_writer.cc:420-428 | for all accepted configs, none has been applied and the history is the least one needed |
| `StructuredWriter.ApplyConfigs` | reverb/cc/structured_writer.cc:509-557 | every config is looked at once and its items are handed to the writer, up to the first one that is refused |
| `StructuredWriter.StoreColumns` | reverb/cc/structured_writer.cc:468-501 | stores every reference, or stops at the first column given twice |
| `StructuredWriter.StructuredWriter.AppendInternal` | reverb/cc/structured_writer.cc:440-507 | fails as the wrapped writer does, for a repeated column with the wrapped writer one step ahead, or with the first refused item; else every column grew by its cell, and exactly the configs that were due created the items that their nodes describe |
| `StructuredWriter.EndState` | reverb/cc/structured_writer.cc:559-568 | what the end of an episode does to columns, configs and items, and when it stops early |
| `StructuredWriter.StructuredWriter.EndEpisode` | reverb/cc/structured_writer.cc:559-568 | applies the configs once more, as the end of the episode; stops at a refused item; clears only if the writer succeeded |
| `SampleCodec.OpenResponse` | reverb/cc/reverb_service_impl.cc:610-618 | a new response exactly when there is none, the only one is being written, or the last one exceeds the limit; no entry is lost |
| `SampleCodec.ProcessSample` | reverb/cc/reverb_service_impl.cc:608-655 | the new entries carry the sample, behind everything queued; the response being written stays; each response was within the limit before its last chunk, and only the first and last may be smaller than the limit |
| `SampleCodec.CollectEntries` | reverb/cc/sampler.cc:237-274 | the loop groups entries up to each end-of-sequence flag |
| `SampleCodec.CollectGroup` | reverb/cc/sampler.cc:251-267 | a group with one flag at its end is collected whole |
| `SampleCodec.CollectInvertsEmit` | reverb/cc/sampler.cc:237-274 | collecting gives back exactly the emitted groups in order, with nothing left over |
| `SampleCodec.CollectIsMonotone` | reverb/cc/sampler.cc:237-274 | later entries never change collected groups |
| `SampleCodec.GatherChunks` | reverb/cc/sampler.cc:75-81 | the chunks by key, in the order in which the loop takes them |
| `SampleCodec.ReceivedMapHolds` | reverb/cc/sampler.cc:75-81 | the map holds exactly the received chunks |
| `SampleCodec.CountUses` | reverb/cc/sampler.cc:83-92 | the counter of each chunk is its number of slices |
| `SampleCodec.ReleaseKeepsRetained` | reverb/cc/sampler.cc:115-119 | after a release every chunk still needed is there |
| `SampleCodec.UnpackAndRelease` | reverb/cc/sampler.cc:102-120 | releasing chunks on the way changes nothing: a column unpacks as if none had been released |
| `SampleCodec.SliceMeans` | reverb/cc/support/trajectory_util.cc:170-187 | a slice unpacks to the rows from its offset on, as many as its length; it fails exactly if it leaves its chunk or no chunk has that key, with different errors |
| `SampleCodec.ColumnMeans` | reverb/cc/sampler.cc:102-120 | a column unpacks slice by slice, in order, or fails with the error of its first slice that does not fit |
| `SampleCodec.ColumnsMean` | reverb/cc/sampler.cc:94-128 | the same for all columns |
| `SampleCodec.GoodMeansAllFit` | reverb/cc/sampler.cc:94-128 | unpacking succeeds exactly if every slice fits a received chunk |
| `SampleCodec.AsSample` | reverb/cc/sampler.cc:72-128 | releasing chunks on the way changes nothing: all columns unpack from the received chunks, with the same errors |
| `SampleCodec.ReceiveSample` | reverb/cc/sampler.cc:72-128 | whatever entries carry a sample, the client gets, slice by slice, exactly the rows from the offset on of the chunk with that key; it fails exactly if some slice does not fit, with the error of the first one |
| `SampleReactor.SampleReactor.constructor` | reverb/cc/reverb_service_impl.cc:503-537 | the first read is under way, and nothing was asked for |
| `SampleReactor.SampleReactor.SetReactorAsFinished` | reverb/cc/reverb_server_reactor.h:219-233 | finishes once, and successfully only with nothing queued |
| `SampleReactor.SampleReactor.MaybeStartRead` | reverb/cc/reverb_server_reactor.h:211-217 | afterwards a read is under way whenever the stream is open and the client has not closed its side |
| `SampleReactor.SampleReactor.MaybeStartSampling` | reverb/cc/reverb_service_impl.cc:581-606 | afterwards sampling rests only if nothing is wanted or the queue is full |
| `SampleReactor.SampleReactor.OnReadDone` | reverb/cc/reverb_server_reactor.h:134-158 | a half-close ends the stream exactly when nothing is queued, a bad request ends it with its error, a good one is sampled |
| `SampleReactor.SampleReactor.AcceptRequest` | reverb/cc/reverb_service_impl.cc:556-578 | the samples of a good request are wanted from the start, and sampling does not stall |
| `SampleReactor.SampleReactor.Enqueue` | reverb/cc/reverb_service_impl.cc:608-655 | one more sample is carried, behind the others, in responses within the limit |
| `SampleReactor.SampleReactor.EnqueueAll` | reverb/cc/reverb_service_impl.cc:518-520 | all samples are carried in order |
| `SampleReactor.SampleReactor.QueueSamples` | reverb/cc/reverb_service_impl.cc:516-523 | a batch is queued and counted, and a write is under way |
| `SampleReactor.SampleReactor.SamplingDone` | reverb/cc/reverb_service_impl.cc:507-532 | the samples are queued, a write is under way exactly if something is queued, the front stays |
| `SampleReactor.SampleReactor.Continue` | reverb/cc/reverb_service_impl.cc:524-532 | a complete request is followed by a read, an incomplete one by its next batch |
| `SampleReactor.SampleReactor.OnWriteDone` | reverb/cc/reverb_service_impl.cc:549-553 | the front response moves to the output; the last write after a half-close ends the stream; sampling does not stall |
| `SampleReactor.SampleReactor.PopWritten` | reverb/cc/reverb_server_reactor.h:177-186 | exactly the written response leaves the queue |
| `SampleReactor.PopKeepsPacked` | reverb/cc/reverb_server_reactor.h:177-186 | the responses behind the written one keep to the limit |
| `SampleReactor.SampleReactor.OnCancel` | reverb/cc/reverb_server_reactor.h:200-208 | the stream is finished |
| `SampleReactor.SampleReactor.DeliversSamples` | reverb/cc/reverb_service_impl.cc:507-532 | while the stream is open the client collects the entries of the first samples, and of all once they are written |
| `SampleReactor.SampleReactor.SuccessMeansAllDelivered` | reverb/cc/reverb_server_reactor.h:145-152 | a stream that ended successfully has no batch outstanding, and the client collected exactly the samples asked for, in order, from responses within the limit |

## Left out

- gRPC, protocol buffers, Python bindings, TensorFlow operations and credentials: plumbing.
- File formats and compression of checkpoints and chunks: only the table's side is modelled.
- Table extensions, deferred freeing of items, wake-up times and timing statistics: they do not change what a table holds or answers.
- The counters of deleted episodes and unique samples: statistics only.
- Checks of items before they are queued (`CheckItemValidity`) and unknown tables: they refuse a request before it reaches the modelled state.
- FIFO and LIFO selectors: the map of list iterators is modelled as the set of its keys.
- The order that a heap selector gives keys of equal priority is proved for the selector itself; the table only assumes that any key may be picked, so a checkpoint round trip does not restore it.
- `UniformSelector`, `ChunkStore`, the legacy `Writer` and the streaming writer: easier or similar members.
- Rounding of sums in the sum tree: the rebuild is proved to repair arbitrary sums instead.
- The three fields of a tree node are kept as three vectors, and the pointers of the heap as keys.
- The setters of the rate limiter: they break what the rest relies on.
- Errors inside `OnItemFinalized` of a chunker, closing a `TrajectoryWriter`, and write failures within one request: a lost stream is modelled as a reconnect at any point.
- The contents of chunks on the InsertStream: only their keys are followed.
- Scores of the automatic chunk tuning: the direction of a change is arbitrary.
- BoundedBuffers.QueueRefinement: runs of inserts and samples only, with items that were not sampled before; sizes are positive, as `reverb/server.py:136` demands.
- Priorities of structured items and the errors of computing them: they depend only on the cells of the trajectory.
- StructuredWriter.StructuredWriter.AppendInternal: requires that no config whose conditions hold reads outside the buffers, since the original has undefined behaviour otherwise; so do ApplyConfig, ApplyConfigs and EndEpisode. Any other config is allowed, guarded or not.
- LengthTests.UnobservableIff: the direction from runs to the condition is for configs that have only minimum lengths as conditions, since other conditions may keep a config from ever applying; the direction from the condition to runs is for all (BlindIsSameOnRun).
- StoredColumns.ChunkerLaysOut: takes as given that the values of a column of the structured writer are successive cells of that column's chunker, since it stores the reference that each append returns.
- Advancing an iterator past the end after the last cell of a slice with a step: the cell is never read.
- Chunker.Chunker.constructor: the options are valid, which the writers check before they make a chunker.
- SampleCodec.ReceiveSample: assumes that a chunk key names one chunk within a sample.
- SampleCodec.ProcessSample: samples have at least one chunk, as every item does.
- Python history slicing and tree helpers: conveniences.
