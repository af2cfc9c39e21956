# Verified model of the tos-databridge core

The bridge carries streaming quotes from a DDE server to client programs. An engine process
keeps one shared-memory ring for every (topic, item) that some client wants; the client
library reads the rings into data blocks; a Python package merges the blocks' streams,
folds them into fixed-time intervals, and lets remote clients use them over a socket.
This project models the parts where something can go wrong between components, and proves
what they promise. `dafny verify dfyconfig.toml` checks all modules together.

| file | what it models |
|---|---|
| `SharedRing.dfy` | the ring in shared memory: layout, the engine's writer, each client's reader that knows only its last position, and any run of both |
| `EngineStreams.dfy` | the engine's reference counts and buffers, with the unwinding of failed requests |
| `ClientBlocks.dfy` | the client's blocks (topics by items, with pre-caches), the capture sets, and the requests sent for them |
| `StreamOwnership.dfy` | all blocks of all clients with the engine: who holds which stream |
| `StreamingSession.dfy` | the endless merge of many streams |
| `MarkedStream.dfy` | the bounded stream of a block, with the marker between read and unread |
| `IntervalDeque.dfy` | prices folded into intervals, and the deque of intervals |
| `BufferNames.dfy` | names of mappings and mutexes |
| `IpcMessages.dfy` | text messages between client and engine |
| `MessageFraming.dfy` | byte-stuffed messages over a socket |
| `DateTimes.dfy` | date-times and their differences |
| `Arithmetic.dfy`, `Basics.dfy` | division, remainders and 32-bit wrap-around; options and reversal |

Code that works in place is a class or a loop here too: the ring is an array of bytes, the
engine, the client, the session, the deque of interval objects and the data stream are
classes whose methods are proved against functions of the old state, and the theorems are
about those functions. What the operating system, the DDE server, the network and the clock
answer are parameters, so every theorem holds for all answers. Interleavings are sequences of
steps, one for each critical section or request. What ties the client's methods to the
interleavings is a `Call`: the operation, the order in which its cells were asked for, and the
answers. Each method says that it carried out one, and a block's life is a sequence of them.

## What the code does not do

These follow from the theorems; in each case the exact condition is proved.

- The reader's `loop_diff < 0` branch is never taken, because the difference is unsigned; it is
  right without it. Past 2^32 loops between two reads the count may be wrong, and only then
  can "numElems < 0" be thrown (`CountRightExactly`, `NegativeCountExactly`).
- A comment at src/client/client_admin.cpp:270 says that the begin offset needs to be zero. It
  is 20, and the formula is right because that is less than an element (`SpotRightExactly`).
- `RemoveAllStreams` lowers each count by one; shared streams remain (`AllRemovedExactly`).
  Unloading a client sends one REMOVE for each stream, not for each block
  (`UnloadReturnsAllExactly`).
- After an addition that was partly refused, or cut short because a buffer could not be mapped,
  REMOVE is sent for streams the block never held, and takes the reference of a block that was
  granted them since. It is sent for exactly the cells of the gap that the addition left
  (`AdditionLeavesGapExactly`); without gaps nothing is taken (`AtEveryPoint`), and every first
  gap can do it (`GapTakesReference`). A failed REMOVE leaks its reference.
- The mutex of ASK for an item SIZE has the name of the mapping of ASK_SIZE for an item mtx
  (`MutexTakesBufferNameExactly`).
- Unpacking strips the whole message, so spaces at its ends are lost (`UnpackOfPack`).
- The parser of requests alone cannot tell an item from one with spaces around it, nor the null
  topic, whose name is a space, from none (`RequestArrivesExactly`); the client's checks keep
  such requests from being made, except for REMOVEs of orphaned streams.
- Intervals are fed newest first, so `o` and `c` are not the first and last prices in time, as
  their names and the class documentation say (`OpenAndCloseExactly`). The gap filling at
  python/tosdb/intervalize/ohlc.py:572-576 counts up while the data count down, so it never
  runs, and lookups by date-time assume that there are no gaps (`FirstIntervalsExactly`,
  `GetFindsAllExactly`). Batches over more than two intervals put data in the wrong one
  (`OwnIntervalsExactly`).
- Reading with no room reports no loss, and copying from past what is there makes the next read
  report one that did not happen (`SilentLossExactly`, `WarnedForNothing`).

## Model

| member | source | states |
|---|---|---|
| `SharedRing.PositionsToCount` | src/client/client_admin.cpp:268-279 | the 32-bit differences of positions and of loop counts, put together as the reader does, are an exact multiple of the element size: the inferred count times that size |
| `SharedRing.InferredIsExact` | src/client/client_admin.cpp:270-279 | with fewer than 2^32 loops between two reads the inferred count is the number of writes since the last read |
| `SharedRing.CountRightExactly` | src/client/client_admin.cpp:279-291 | a read takes the right number of elements if and only if there were fewer than 2^32 loops, or so many that the inferred count is still at least the capacity |
| `SharedRing.NegativeCountExactly` | src/client/client_admin.cpp:283-285 | the `numElems < 0` exception is thrown if and only if the number of loops is a multiple of 2^32 and the write position lies before the read position; never below 2^32 loops |
| `SharedRing.SpotFindsSlot` | src/client/client_admin.cpp:294-295 | for a header shorter than an element the modulo formula finds the slot any number of elements back, up to the capacity |
| `SharedRing.SpotRightExactly` | src/client/client_admin.cpp:294-295 | the formula is right for every slot and distance if and only if the header is shorter than an element |
| `SharedRing.EarlyExitExactly` | src/client/client_admin.cpp:258-265 | on a header that stands still the unlocked test leaves early exactly when the inferred count is zero; below 2^32 loops exactly when nothing was written |
| `SharedRing.OneMoreWrite` | src/service/engine.cpp:964-997 | the wrap of `next_offset` and the step of `loop_seq` after a write are those of the position that counts one write more |
| `SharedRing.Ring.constructor` | src/service/engine.cpp:896-903 | the header is laid out for as many elements as fit the region, and the header is shorter than an element for every element type |
| `SharedRing.Ring.Write` | src/service/engine.cpp:964-997 | one element more in the history; every one of the last N elements is still in its slot, byte for byte, and the header says where the next goes |
| `SharedRing.Ring.StoreElement` | src/service/engine.cpp:974-985 | the stores of value and time stamp touch no slot but the one written |
| `SharedRing.Ring.SpotHoldsElement` | src/client/client_admin.cpp:293-306 | the place where the reader looks `back` elements back holds exactly the element written that many writes ago |
| `SharedRing.BufferReader.Extract` | src/client/client_admin.cpp:247-315 | whatever the unlocked test saw, a read either changes nothing or hands each subscribed block exactly the last inferred-count (at most N) elements, oldest first, and moves to the write position; it never waits for the mutex |
| `SharedRing.BufferReader.ExtractLocked` | src/client/client_admin.cpp:267-314 | the part under the mutex: the count, the exception, the cap, the delivery and the new position |
| `SharedRing.BufferReader.CountNew` | src/client/client_admin.cpp:268-279 | the reader's arithmetic on the header yields the inferred count, which never exceeds the number of writes |
| `SharedRing.BufferReader.TakeNewest` | src/client/client_admin.cpp:288-312 | the last elements are appended, in order, for every block, and the position is that of the header |
| `SharedRing.BufferReader.DeliverNewest` | src/client/client_admin.cpp:293-308 | the do-while loop appends the last n elements of the history, oldest first, to each block's data |
| `SharedRing.BufferReader.Capture` | src/client/client_admin.cpp:162-202 | the block is in the entry; if it was not, it has been handed nothing; the first block of a stream starts the entry at position zero, and a later one joins it where it is |
| `SharedRing.BufferReader.Release` | src/client/client_admin.cpp:217-225 | the block, and no other, leaves the entry |
| `SharedRing.ReadIsStep` | src/client/client_admin.cpp:245-315 | what the reader's contract says is the read step of the run over which the theorems are stated |
| `SharedRing.WriteSeen` | src/service/engine.cpp:964-997 | a write by the engine, seen from a client's entry, is the write step of that run |
| `SharedRing.AnyRun` | src/client/client_admin.cpp:245-315 | over any interleaving of writes, reads, skipped reads, captures and releases: no block gets an element twice, out of order, or from before its entry's position; if reads are timely only overwritten elements are missing; if they are prompt none is |
| `SharedRing.BlocksAreSubscribed` | src/client/client_admin.cpp:147-227 | after any run the blocks in the entry are those whose last capture was followed by no release |
| `SharedRing.JoinedAtCapture` | src/client/client_admin.cpp:162-202 | a block's start is position zero if no other block had the stream at its capture, and the others' position otherwise |
| `SharedRing.ReadCatchesUp` | src/client/client_admin.cpp:270-312 | a timely read moves the position to what is written, and nothing but reads and new entries moves it |
| `SharedRing.SubscribersHaveAll` | src/client/client_admin.cpp:245-315 | after a read, if all reads were prompt, every subscribed block has been handed exactly the elements from its start to the last one written |
| `Arithmetic.LongOfWrapped` | src/client/client_admin.cpp:270-271 | a 32-bit difference stored in a long is the one in range that is equal modulo 2^32 |
| `Arithmetic.TruncatedExactly` | src/client/client_admin.cpp:279-279 | division truncates toward zero, and the remainder has the sign of the dividend |
| `EngineStreams.Engine.AddStream` | src/service/engine.cpp:556-608 | success adds one reference and, if it is the first, the buffer; every error code leaves both tables exactly as they were, along every fall-through path; which refusal decides which code |
| `EngineStreams.Engine.CreateOrCount` | src/service/engine.cpp:567-584 | a new topic, a new item or one more reference, and what each failure leaves behind before the unwinding |
| `EngineStreams.Engine.Unwind` | src/service/engine.cpp:586-605 | the switch with its fall-through takes back what each error code left behind |
| `EngineStreams.Engine.CreateItem` | src/service/engine.cpp:686-702 | an item's first reference and its buffer, or the error code with the reference still there |
| `EngineStreams.Engine.CreateTopic` | src/service/engine.cpp:705-759 | a topic's first item, or the error code |
| `EngineStreams.Engine.CreateBuffer` | src/service/engine.cpp:840-911 | a buffer appears only if there was none and all three system calls succeed |
| `EngineStreams.Engine.RemoveStream` | src/service/engine.cpp:611-646 | a reference less, whatever the system answers; with the last one the item, its buffer and an empty topic go; which code is returned |
| `EngineStreams.AddAnswersExactly` | src/service/engine.cpp:556-608 | when an ADD is answered with success, in terms of the counts and the system's answers, and which error says what |
| `EngineStreams.RemoveAnswersExactly` | src/service/engine.cpp:611-646 | the same for a REMOVE: success exactly for a stream with a reference that can be closed, one error for a topic without any reference, another for an item without one in a topic that has some |
| `EngineStreams.Engine.CloseItem` | src/service/engine.cpp:762-780 | the buffer goes even if the post fails, and the earlier error has priority |
| `EngineStreams.Engine.DestroyBuffer` | src/service/engine.cpp:914-945 | the entry goes whether or not the system calls succeed |
| `EngineStreams.Engine.TestStream` | src/service/engine.cpp:669-683 | whatever it returns, counts and buffers are those of before; it returns the refusal of the addition, or else the code of the removal that follows |
| `EngineStreams.Engine.RemoveAllStreams` | src/service/engine.cpp:649-666 | lowers every count by one, in whatever order the table is walked |
| `EngineStreams.AllRemovedExactly` | src/service/engine.cpp:649-666 | that leaves no stream if and only if every count was at most one |
| `EngineStreams.CountsDetermine` | src/service/engine.cpp:556-646 | two tables without empty topics or zero counts that agree on every count are equal |
| `EngineStreams.MinusUndoesPlus` | src/service/engine.cpp:556-646 | removing what was just added restores the whole table |
| `EngineStreams.BuffersFollowCounts` | src/service/engine.cpp:556-646 | adding and removing keep the buffers exactly those of the counted cells, and removing undoes adding |
| `EngineStreams.EraseUndoesPut` | src/service/engine.cpp:586-605 | erasing a first entry restores the table, the topic's emptiness included |
| `ClientBlocks.Client.CreateBlock` | src/client/client_admin.cpp:389-428 | a new empty block, or an error code and no change, in the order of the checks |
| `ClientBlocks.Client.AddCell` | src/client/client_admin.cpp:687-696 | one ADD; an acknowledged cell enters the matrix, the pre-caches are cleared, and the buffer is captured or the call throws |
| `ClientBlocks.Client.CaptureBuffer` | src/client/client_admin.cpp:147-204 | the buffer is captured if and only if the stream has an entry already or can be mapped; then the block joins its capture set, and otherwise no set changes |
| `ClientBlocks.Client.DropCell` | src/client/client_admin.cpp:877-881 | the buffer is released before REMOVE is sent, so that no capture outlives its reference |
| `ClientBlocks.Client.AddTo` | src/client/client_admin.cpp:641-720 | the call is carried out as `Call` says: the requests sent are the cells of the difference, each once, or those up to the one whose buffer could not be mapped; which cells enter; the error code counts the refusals; every block stays settled and every capture set is that of its blocks |
| `ClientBlocks.ErrorCodeMeans` | src/client/client_admin.cpp:601-720 | the code of a call is zero exactly if no request failed, and tells how many did |
| `ClientBlocks.Client.Add` | src/client/client_admin.cpp:585-720 | the same for the whole function, with its own checks first, whatever is refused or thrown; on success the block is the one wanted of old and new topics and items together; NULL topics and invalid items are left out; every other block is untouched |
| `ClientBlocks.AddRefusedExactly` | src/client/client_admin.cpp:603-639 | an addition is refused as a whole exactly if the library is not connected, nothing valid is left of both sets, or there is no such block, each with its code |
| `ClientBlocks.Client.RemoveTopic` | src/client/client_admin.cpp:851-898 | the topic goes whatever the engine answers; REMOVE is sent once for each cell that leaves the matrix; the last topic sends the items to the pre-cache |
| `ClientBlocks.Client.RemoveItem` | src/client/client_admin.cpp:908-953 | the same for an item |
| `ClientBlocks.RemovalRefusedExactly` | src/client/client_admin.cpp:857-946 | a removal is refused exactly if an argument is bad, the library is not connected, there is no such block, or the block has the topic or item neither in the matrix nor in the pre-cache, each with its code |
| `ClientBlocks.Client.CloseBlock` | src/client/client_admin.cpp:956-1002 | REMOVE once for every cell of the matrix; no capture set mentions the block afterwards; the error code counts the refusals |
| `ClientBlocks.Client.Unload` | src/client/client_admin.cpp:452-460 | the cells of the requests, in their order: one for every entry of the capture sets, each once, whatever the answers |
| `ClientBlocks.CallSettles` | src/client/client_admin.cpp:585-1002 | any call on a block, whatever was answered, with its events in any order of its cells, takes a settled block to a settled block, and grants everything exactly if no ADD was refused and every buffer was mapped |
| `ClientBlocks.LifeSettled` | src/client/client_admin.cpp:585-1002 | so after any sequence of calls on a block since its creation: captured cells are held, and if every addition was granted, held and captured are exactly the matrix |
| `ClientBlocks.LifeIsWanted` | src/client/client_admin.cpp:585-1002 | after any such sequence whose additions were granted the block is the one of the wanted topics and items |
| `ClientBlocks.LifeGoesOn` | src/client/client_admin.cpp:585-1002 | what a method of the client says of a block continues the sequence of calls on it |
| `ClientBlocks.LifeHolds` | src/client/client_admin.cpp:585-1002 | a block that was never left with a gap holds exactly its matrix, and every request for it was proper, whatever was refused or thrown |
| `ClientBlocks.GaplessExactly` | src/client/client_admin.cpp:585-1002 | and only such a block holds its matrix after each of its calls |
| `ClientBlocks.ShapeExactly` | src/client/client_admin.cpp:644-715 | the blocks that satisfy the pre-cache invariant are exactly those determined by what is wanted of them |
| `ClientBlocks.CellsToAddSplit` | src/client/client_admin.cpp:674-715 | the two loop nests visit disjoint cells that make up the difference of the matrices |
| `ClientBlocks.AdditionKeepsShape` | src/client/client_admin.cpp:641-715 | whichever requests are acknowledged, topics are empty exactly when items are, a matrix leaves both pre-caches empty, and not both are in use |
| `ClientBlocks.NothingAcknowledged` | src/client/client_admin.cpp:674-715 | an addition of which nothing is acknowledged leaves block and pre-caches as they were, unless one side is still missing; then what is given is pre-cached |
| `ClientBlocks.AdditionSettles` | src/client/client_admin.cpp:641-715 | if all are acknowledged, the block is the one wanted of the unions, and its matrix has grown by exactly the cells asked for |
| `ClientBlocks.TopicRemovalSettles` | src/client/client_admin.cpp:874-894 | removal yields the block wanted without the topic, and exactly its cells leave |
| `ClientBlocks.ItemRemovalSettles` | src/client/client_admin.cpp:929-949 | the same for an item |
| `ClientBlocks.AddKeepsTrack` | src/client/client_admin.cpp:687-696 | inside an addition too: captured cells are held, and without a failure held and captured are exactly the cells so far |
| `ClientBlocks.DropKeepsTrack` | src/client/client_admin.cpp:877-881 | the same inside a removal |
| `ClientBlocks.OneOperation` | src/client/client_admin.cpp:585-949 | the operation on the block is the operation on the two wanted sets |
| `ClientBlocks.OperationsSettle` | src/client/client_admin.cpp:585-949 | over any run of acknowledged operations the block with its pre-caches is a function of two sets, wanted topics and wanted items: a simple form that the stateful one refines |
| `ClientBlocks.AddingBackRestores` | src/client/client_admin.cpp:874-949 | adding back what was removed restores the block, also through the pre-cache |
| `ClientBlocks.AdditionLeavesGapExactly` | src/client/client_admin.cpp:641-715 | after any addition, refused in part, cut short by an exception, or neither: the cells of the matrix that the block does not hold are exactly those not acknowledged whose topic and item are in the block, from before or with other acknowledged cells |
| `ClientBlocks.RefusalLeavesGap` | src/client/client_admin.cpp:687-696 | two topics by two items, the last cell refused: it is the gap |
| `ClientBlocks.ExceptionLeavesGap` | src/client/client_admin.cpp:147-204 | two topics by two items, nothing refused, the third cell's buffer not mapped: the cell never asked for is the gap |
| `StreamOwnership.StepBalancesExactly` | src/service/engine.cpp:556-646 | a request keeps the engine's counts equal to the numbers of holding blocks if and only if it is one of the kinds listed in `Keeps` |
| `StreamOwnership.ProperRequestsBalance` | src/service/engine.cpp:556-646 | for any requests, of which ADDs are for streams not held and REMOVEs for streams held: counts are holders plus leaked references, and buffers are those of the counted streams, whatever the answers |
| `StreamOwnership.NoneLeakedExactly` | src/client/client_admin.cpp:878-881 | a reference leaks exactly with a REMOVE without effect or a failed ADD with one |
| `StreamOwnership.AtEveryPoint` | src/client/client_admin.cpp:687-715 | at every point of any interleaving of the operations of any number of blocks and clients, whatever is refused or thrown, in which no addition leaves a gap, inside operations too: each count is the number of holders plus the references leaked by failed REMOVEs, the buffer is there exactly if it is positive, and whatever is captured has a reference and a buffer |
| `StreamOwnership.EveryPointInterleaves` | src/client/client_admin.cpp:687-715 | every beginning of such a run is one |
| `StreamOwnership.BetweenOperations` | src/client/client_admin.cpp:585-1002 | when all operations of such a run have ended, the count of a stream is the number of blocks with it in their matrix, plus leaked references; if none leaked, the engine has its buffer exactly if there is such a block |
| `StreamOwnership.GrantedLivesWant` | src/client/client_admin.cpp:585-1002 | if every addition was granted there are no gaps, and the blocks with a stream in their matrix are those that were asked for its topic and its item and not relieved of either |
| `StreamOwnership.GapTakesReference` | src/client/client_admin.cpp:874-882 | conversely every first gap can do harm: after any calls of a block, none of whose REMOVEs failed, there is a run in which another block is granted the missing stream and a removal from the first takes its reference and buffer, while it holds and has captured the stream and all operations have ended |
| `StreamOwnership.TwoGaps` | src/client/client_admin.cpp:687-696 | two such runs from nothing: with a refused cell, and with an exception and nothing refused |
| `StreamOwnership.RefusedOnlyWithoutReference` | src/service/engine.cpp:556-608 | the engine grants a stream whatever the system answers if and only if something has it already, so a refusal comes before the other block's addition |
| `StreamOwnership.OneRemoveEach` | src/client/client_admin.cpp:452-460 | the requests of the unloading lower each count of a captured stream by one, and no other |
| `StreamOwnership.UnloadReturnsAllExactly` | src/client/client_admin.cpp:452-460 | at any time between a client's operations, each granted what it asked for, and whatever the other blocks are doing, its unloading leaves exactly the others' references if and only if no two of its blocks share a stream |
| `StreamingSession.Open` | python/tosdb/streaming/streaming.py:90-113 | no session without items or topics; otherwise every pair of them is a key |
| `StreamingSession.Session.Next` | python/tosdb/streaming/streaming.py:121-163 | pulls rounds until there are data of all streams, or without the guarantee of any, and no further, or until the time is up; a batch has every buffered datum that is not after the newest one of any stream with data, as often as it is buffered, and no other; it is never empty, newest first, and the next piece of the timeline; a call without a batch emits nothing; every reachable session is sound |
| `StreamingSession.Session.Pull` | python/tosdb/streaming/streaming.py:126-132 | the nested loops append each snapshot, turned around, to its own buffer, repeated items or topics included |
| `StreamingSession.BroughtIs` | python/tosdb/streaming/streaming.py:126-132 | what a round brings to a stream: its own snapshots, each turned around, in the order of the visits |
| `StreamingSession.ProductAt` | python/tosdb/streaming/streaming.py:126-127 | the visits are the items in the outer and the topics in the inner loop |
| `StreamingSession.DistinctInOrder` | python/tosdb/streaming/streaming.py:106-106 | the buffers are in the order of the first visits |
| `StreamingSession.Session.FindCutoff` | python/tosdb/streaming/streaming.py:145-150 | the loop finds the oldest of the newest data |
| `StreamingSession.Session.Collect` | python/tosdb/streaming/streaming.py:152-159 | the loop collects, stream by stream, what is at or before the cutoff and leaves the rest |
| `StreamingSession.GoodOfKey` | python/tosdb/streaming/streaming.py:153-159 | what is collected of one stream is what it has at or before the cutoff, in its order |
| `StreamingSession.GoodByKey` | python/tosdb/streaming/streaming.py:153-153 | and the streams follow each other in the order of the buffers |
| `StreamingSession.Session.GoodOf` | python/tosdb/streaming/streaming.py:155-158 | the inner loop collects every datum at or before the cutoff, wherever it is |
| `StreamingSession.Session.Deliver` | python/tosdb/streaming/streaming.py:145-163 | one batch from a round that was enough, with exactly the data that are due; the assertion fails exactly off the scale, and then nothing is lost |
| `StreamingSession.OldestNewMeans` | python/tosdb/streaming/streaming.py:145-149 | the cutoff is at most the newest datum of every stream that has any, and one of them attains it |
| `StreamingSession.BatchIsExactly` | python/tosdb/streaming/streaming.py:145-163 | how often each datum is in a batch: as often as it is buffered if it is not after the newest datum of any stream that has data, and not at all otherwise |
| `StreamingSession.ReadyMeans` | python/tosdb/streaming/streaming.py:134-143 | with the guarantee a round is enough if every stream has data, without it if any has |
| `StreamingSession.CuttingConservesExactly` | python/tosdb/streaming/streaming.py:154-159 | cutting off as many data as were collected loses and repeats nothing if and only if the collected ones come first |
| `StreamingSession.UpToPrefix` | python/tosdb/streaming/streaming.py:155-159 | in a sorted buffer the collected data are exactly a prefix |
| `StreamingSession.AssertionFiresExactly` | python/tosdb/streaming/streaming.py:160-160 | the assertion that the list is not empty fails if and only if every newest time stamp is off the 64-bit scale and none is from before 1970 |
| `StreamingSession.SortedByTimeSorts` | python/tosdb/streaming/streaming.py:163-163 | the sort yields a permutation, newest first, that keeps data of one time in their order |
| `StreamingSession.PullKeepsSound` | python/tosdb/streaming/streaming.py:126-132 | pulling keeps conservation and the order between batches |
| `StreamingSession.BatchKeepsSound` | python/tosdb/streaming/streaming.py:145-163 | a batch keeps, for every stream in time order, sent plus buffered equal to pulled, and the timeline to account for what was sent; in guarantee mode all batches together, each turned around, are one sequence in time order |
| `StreamingSession.RoundIsSound` | python/tosdb/streaming/streaming.py:145-163 | either way a round can end keeps soundness, and an empty one changes nothing |
| `MessageFraming.UnescapeUndoesEscape` | python/tosdb/__init__.py:1106-1122 | the two passes back undo the two passes there, on all bytes |
| `MessageFraming.EscapeUndoesUnescapeExactly` | python/tosdb/__init__.py:1106-1122 | the other way around exactly on bytes without a delimiter in which every escape is completed |
| `MessageFraming.EscapeIsOnePass` | python/tosdb/__init__.py:1107-1110 | the two substitutions amount to one code for each byte |
| `MessageFraming.CodeIs` | python/tosdb/__init__.py:181-185 | the code of every byte, in numbers |
| `MessageFraming.SpacesAre` | python/tosdb/__init__.py:1120-1120 | the six bytes that are stripped |
| `MessageFraming.EscapedHasNoDelimiter` | python/tosdb/__init__.py:1107-1111 | an escaped part contains no delimiter |
| `MessageFraming.PartsComeBack` | python/tosdb/__init__.py:1106-1120 | without the stripping a message always comes apart into its parts |
| `MessageFraming.UnpackOfPack` | python/tosdb/__init__.py:1106-1120 | what any packed message unpacks to: nothing for no bytes, else the parts without the spaces at the message's two ends |
| `MessageFraming.RoundTripExactly` | python/tosdb/__init__.py:1106-1120 | unpacking gives back the parts if and only if there are any bytes and neither end of the message is a space |
| `MessageFraming.ASpaceIsLost` | python/tosdb/__init__.py:1120-1120 | an argument that ends with a line feed arrives without it |
| `MessageFraming.RecvAllTcp` | python/tosdb/_common.py:558-565 | under any fragmentation, exactly the next n bytes, or nothing at the end of the stream |
| `MessageFraming.RecvTcp` | python/tosdb/_common.py:550-555 | one message by its length prefix, or nothing if the stream ends inside it |
| `MessageFraming.SendTcp` | python/tosdb/_common.py:568-571 | the prefix and the data are appended to what the other side will receive |
| `MessageFraming.LittleEndianRoundTrip` | python/tosdb/_common.py:554-570 | eight bytes carry every length below 2^64 |
| `MessageFraming.TornFrameIsNothing` | python/tosdb/_common.py:550-565 | a connection that breaks inside a frame delivers nothing of it |
| `MessageFraming.MessagesArrive` | python/tosdb/_common.py:550-571 | of any sequence of messages, all that were sent before the break arrive, in order, and nothing else |
| `MessageFraming.PartsArriveExactly` | python/tosdb/__init__.py:1058-1066 | parts to parts over the wire, with the exact condition of the round trip |
| `BufferNames.CreateBufferName` | src/main.cpp:119-138 | the loop builds the prefixed name with every reserved character rewritten |
| `BufferNames.SymbolTable` | src/main.cpp:58-67 | what each reserved character is replaced with |
| `BufferNames.NameSpelled` | src/main.cpp:119-138 | a whole name, with its two prefixes |
| `BufferNames.NamesInjective` | src/main.cpp:119-138 | for topics of letters, digits and underscores and valid items, two names are equal if and only if topic and item are |
| `BufferNames.ItemRules` | src/main.cpp:317-346 | exactly which items are valid |
| `BufferNames.UnderscoreItemsCollide` | src/main.cpp:32-56 | without the item rules names do collide |
| `BufferNames.MutexTakesBufferNameExactly` | src/client/client_admin.cpp:166-167 | the mutex of one stream has the name of another one's mapping if and only if the other's item is `mtx` and its topic is the first's topic and item joined by an underscore |
| `BufferNames.MutexTakesBufferName` | src/client/client_admin.cpp:166-167 | ASK of SIZE, and ASK_SIZE of mtx, both valid |
| `IpcMessages.ParseArgs` | src/main.cpp:147-164 | the recursion terminates and pushes exactly the non-empty pieces between spaces, in order |
| `IpcMessages.SplitUndoesJoinExactly` | src/main.cpp:147-164 | splitting inverts joining by spaces on exactly the lists of non-empty words without spaces |
| `IpcMessages.ParseIPCMessage` | src/service/engine.cpp:471-534 | every branch: too long, no words, no number, a signal, not four words, an unknown topic, no timeout |
| `IpcMessages.NumberReadsBack` | src/service/engine.cpp:495-530 | a printed number followed by padding reads back exactly if it fits 32 bits, and is an error otherwise |
| `IpcMessages.NumberRead` | src/service/engine.cpp:495-530 | what is read of spaces, a sign, digits and something else: an error if it does not fit, and a negative number modulo 2^32 |
| `IpcMessages.NoNumberRead` | src/service/engine.cpp:495-530 | without a digit there it is an error |
| `IpcMessages.PrintedPlainly` | src/client/client_admin.cpp:110-113 | numbers are printed without leading zeros, and with a sign only below zero |
| `IpcMessages.AnswerReadsBack` | src/client/client_admin.cpp:133-137 | the engine's answer, negative or not, is read by the client as it was sent |
| `IpcMessages.RequestFits` | src/client/client_admin.cpp:110-113 | a request within the argument limits takes at most 288 of the 511 bytes |
| `IpcMessages.ParseOfPrint` | src/service/engine.cpp:471-534 | what the engine makes of any message printed like a request, whatever its numbers, topic and item: a signal whatever follows, the item without the spaces around it, the null topic for an unknown one, or a rejection |
| `IpcMessages.RequestArrivesExactly` | src/service/engine.cpp:471-534 | a request arrives as it was made if and only if its item is a non-empty word without spaces and its topic is not the null topic, whose name is a space |
| `IpcMessages.ValidRequestArrives` | src/service/engine.cpp:471-534 | every request that the client's own checks let through fits and arrives |
| `IpcMessages.SignalArrives` | src/service/engine.cpp:502-508 | a signal without arguments is recognised before the number of words is checked |
| `IpcMessages.BareNumbers` | src/service/engine.cpp:495-514 | a bare number is a signal if it is 3, 4, 5 or 6, and rejected otherwise |
| `IpcMessages.TakenForAnother` | src/service/engine.cpp:471-534 | the parser takes a REMOVE for an item with a space before it for another stream's |
| `IntervalDeque.SplitDoesNotMatter` | python/tosdb/intervalize/ohlc.py:114-160 | constructing on the first chunk and updating with the rest equals constructing on the concatenation |
| `IntervalDeque.OpenAndCloseExactly` | python/tosdb/intervalize/ohlc.py:143-160 | high, low and ticks are those of the interval; the open is the first price in time if and only if the first chunk ends with the price it begins with, and the close the last if and only if the last chunk does |
| `IntervalDeque.ExtremesBound` | python/tosdb/intervalize/ohlc.py:150-159 | maximum and minimum are members and bounds |
| `IntervalDeque.SummaryMeans` | python/tosdb/intervalize/ohlc.py:117-151 | open and close are the first and the last price, low and high are prices and bound all, ticks count them |
| `IntervalDeque.Interval.Update` | python/tosdb/intervalize/ohlc.py:126-160 | in place, the interval goes on as `Fed` says |
| `IntervalDeque.Buffer.InsertData` | python/tosdb/intervalize/ohlc.py:512-530 | a newer interval goes in front; otherwise the one with that number is replaced if null and updated if not; otherwise the data are stranded |
| `IntervalDeque.StrandedExactly` | python/tosdb/intervalize/ohlc.py:512-530 | data are stranded exactly if they are not newer than the newest interval and no interval has their number |
| `IntervalDeque.IntervalOfExactly` | python/tosdb/intervalize/ohlc.py:496-500 | the number of the interval that a time lies in |
| `IntervalDeque.Buffer.ParseData` | python/tosdb/intervalize/ohlc.py:494-509 | a batch is split where the oldest interval begins and put in that interval and the next |
| `IntervalDeque.Buffer.HandleNullInterval` | python/tosdb/intervalize/ohlc.py:486-491 | a null interval with the next number goes in front, and the deque stays in order |
| `IntervalDeque.Buffer.constructor` | python/tosdb/intervalize/ohlc.py:560-581 | the first data grouped by interval; the buffer is valid if they are newest first |
| `IntervalDeque.Buffer.GetByDatetime` | python/tosdb/intervalize/ohlc.py:337-358 | by offset from the newest interval; which of the two errors is raised, and exactly when |
| `IntervalDeque.GetFindsAllExactly` | python/tosdb/intervalize/ohlc.py:350-358 | every lookup finds the interval with its number if and only if no number is missing in the deque |
| `IntervalDeque.InsertedContiguousExactly` | python/tosdb/intervalize/ohlc.py:512-519 | an insertion keeps the deque contiguous if and only if it skips no number; a null interval always does |
| `IntervalDeque.FirstIntervalsExactly` | python/tosdb/intervalize/ohlc.py:570-581 | the first intervals are in order if and only if the data are newest first, and then the filling of gaps never happens |
| `IntervalDeque.GapIsAll` | python/tosdb/intervalize/ohlc.py:572-576 | the filling of a gap would make exactly the null intervals in between |
| `IntervalDeque.OwnIntervalsExactly` | python/tosdb/intervalize/ohlc.py:494-509 | every datum of a batch is meant for its own interval if and only if the batch spans at most two adjacent intervals |
| `IntervalDeque.ChunksConserve` | python/tosdb/intervalize/ohlc.py:494-509 | the split of a batch leaves nothing out and doubles nothing |
| `IntervalDeque.PutIsSound` | python/tosdb/intervalize/ohlc.py:512-530 | every insertion keeps the deque in order and every interval the summary of all that was put in it |
| `IntervalDeque.AnyRun` | python/tosdb/intervalize/ohlc.py:486-581 | over any run: intervals strictly decrease, each is the open, high, low and close of all that was put in it, and placed plus stranded data are all data that came |
| `IntervalDeque.BarMeans` | python/tosdb/intervalize/ohlc.py:486-581 | so in every run the bar of an interval is null exactly if nothing was put in it; otherwise its open and close are the first and last price put in, its low and high are among them and bound them, and its ticks count them |
| `IntervalDeque.TicksConserved` | python/tosdb/intervalize/ohlc.py:486-581 | ticks in the deque plus stranded data equal the number of data fed |
| `IntervalDeque.NarrowRun` | python/tosdb/intervalize/ohlc.py:494-509 | if every batch spans at most two adjacent intervals, all that is in an interval belongs to it |
| `IntervalDeque.WideBatch` | python/tosdb/intervalize/ohlc.py:494-509 | a batch over three intervals puts its newest data one interval too early |
| `DateTimes.AddShiftsExactly` | python/tosdb/_common.py:662-675 | the total shifts by exactly n if and only if the microseconds with n's remainder stay within two seconds; the result's microseconds are always in range |
| `DateTimes.SubtractShiftsExactly` | python/tosdb/_common.py:678-694 | the same for subtracting, negative numbers included |
| `DateTimes.AlwaysShiftsExactly` | python/tosdb/_common.py:662-675 | a date-time shifts exactly for every n if and only if its microseconds are in range, or one past it |
| `DateTimes.ShiftsAdd` | python/tosdb/_common.py:662-694 | shifts add up, subtraction undoes addition and addition subtraction |
| `DateTimes.CompareIsByTotal` | python/tosdb/_common.py:724-730 | comparison is that of the totals, and equal only for equal date-times |
| `DateTimes.LaterByMore` | python/tosdb/_common.py:662-730 | adding is strictly monotone |
| `DateTimes.MicrosComeBack` | python/tosdb/_common.py:755-787 | converting to a difference and back is the identity for every sign, and every field is in its range |
| `DateTimes.DifferenceComesBackExactly` | python/tosdb/_common.py:755-787 | the other way around exactly for differences with all fields in range and no negative zero |
| `DateTimes.DifferenceOfSum` | python/tosdb/_common.py:695-702 | the difference of two date-times is that of their totals, and that of a sum gives back what was added |
| `DateTimes.EveryDateTime` | python/tosdb/_common.py:619-657 | however a date-time was made, from the engine's clock, a calendar time, another one, or by any moves, its microseconds are in range and its total is the one meant |
| `MarkedStream.DataStream.Push` | src/data_stream.tpp:170-184 | one element more, unread; when the marker is at the end the oldest unread one is lost and the stream is dirty |
| `MarkedStream.DataStream.IncrInternalCounts` | src/data_stream.tpp:210-228 | count and marker advance up to the bound; its last branch is never taken |
| `MarkedStream.DataStream.BoundSize` | src/data_stream.tpp:303-328 | shrinking keeps the newest elements and marks a loss only if unread ones go; growing loses nothing |
| `MarkedStream.SizesAfter` | src/data_stream.tpp:170-328 | by how much pushing and resizing change the numbers of elements, of unread ones and of those kept, from the size that was asked for |
| `MarkedStream.DataStream.Copy` | src/data_stream.tpp:444-479 | which elements are copied for any indices, which indices are errors, where the marker goes; the stream stays valid if and only if the copy does not begin past what is there |
| `MarkedStream.DataStream.InRangeExactly` | src/data_stream.tpp:188-207 | negative indices count from the end of the deque; exactly which pairs of indices are in range |
| `MarkedStream.DataStream.CopyFromMarker` | src/data_stream.tpp:365-401 | exactly the unread elements, newest first, as far as there is room; the answer is negative if something unread was lost or left out |
| `MarkedStream.AnswerCounts` | src/data_stream.tpp:383-397 | how many elements a read gets, and that its answer is that number, below zero exactly if it got some and something unread was not got |
| `MarkedStream.DataStream.NcopyFromMarker` | src/data_stream.tpp:334-345 | the oldest unread elements that there is room for, where the beginning is computed in 32 bits; the newer ones stay unread |
| `MarkedStream.NextBegIsRight` | src/data_stream.tpp:343-343 | for every room that a stream could fill that beginning is the right one |
| `MarkedStream.WarnedForNothing` | src/data_stream.tpp:444-479 | after any copy from past what is there the next read warns although its client gets everything there is, or hands over an element that was never pushed without a warning |
| `MarkedStream.SilentLossExactly` | src/data_stream.tpp:383-397 | a loss goes unreported if and only if there is no room at all and two or more elements are to be read |
| `MarkedStream.ReadIsWindow` | src/data_stream.tpp:365-401 | what a read gets lies just before the new marker, and it leaves a gap after the old one exactly if it warns or had no room for two or more |
| `MarkedStream.Perform` | src/data_stream.tpp:170-479 | what an event does to a stream is what it does to the record over which runs are stated |
| `MarkedStream.WarnedExactly` | src/data_stream.tpp:365-401 | in that record a client is warned exactly by an answer below zero, is given what the read got, and starts anew with a copy |
| `MarkedStream.AnyRun` | src/data_stream.tpp:170-479 | over any run of pushes, resizings, copies that begin inside what is there, and reads with any room from any beginning, the client was given since the last copy exactly what lies between the markers, each element once and in order, as long as no read warned or lacked all room, and less than that otherwise |
| `MarkedStream.NothingLostExactly` | src/data_stream.tpp:170-479 | what it was given is all between the markers if and only if no read warned it and none lacked all room |

## Left out

- IntervalDeque.Buffer.GetByDatetime: the conversion of a calendar tuple to seconds is the standard library's and a parameter, with the daylight saving of the moment in it.
- DateTimes.AddShiftsExactly: assumes that local time and its inverse are inverse to each other, whole seconds, and a clock after 1970 (for `EveryDateTime`); daylight saving and fractions of a second in the epoch time are not modelled.
- MarkedStream.DataStream.Copy: the variant for strings, which copies nothing from an empty stream where this one copies one element, and the parallel deque of time stamps, which is indexed the same way.
- SharedRing.BufferReader.Extract: values stay bytes; their conversion to floats, integers and strings, and the truncation of strings to 39 characters before writing, are not modelled.
- StreamOwnership.AtEveryPoint: no addition leaves a gap; `GapTakesReference` shows what happens otherwise, and `StepBalancesExactly` which single requests keep the balance.
- ClientBlocks.Client.AddTo: blocks are values in a table under their names; the pointers under which the capture sets know them, and their deletion on another thread, are not modelled.
- IpcMessages.ParseIPCMessage: the topic table is a parameter; a topic stands for its name, and the type bits in its number are not modelled.
- The order in which sets and hash tables are walked is arbitrary here; the order of the original's sorted sets is not used.
- Rows and frames of `RawDataBlock`, and their data: a block's topics and items are two sets.
- Conversations with the DDE server, their late acknowledgements, and the `convos` table: only whether a request was acknowledged.
- `TOSDB_RemoveOrphanedStream`, which is documented as able to corrupt other clients' counts.
- Timeouts, sleeping and the tuning of the interval worker's clock: that a round was the last is an input, and so is an interval without data.
- The callback for completed intervals, and `stream_snapshot_between_datetimes`, which slices by the same offsets as `GetByDatetime`.
- Named pipes, mappings, security descriptors, services, logging, authentication, pickling, the Java wrapper, the shell and the daemons: library calls or plumbing.
- Type bits, `TOSDB_Generic`, `ILSet`, `SmartBuffer` and `TwoWayHashMap`: easy or finite.
