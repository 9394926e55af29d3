# Verification models

Dafny models of the hardest parts of the repository and proofs about them: the fiber runtime, the streaming of HTTP bodies,
the serialization of variants, the normalization loops of utf8proc, Julian day numbers, the DOM builder, and three small
state machines. `dafny verify dfyconfig.toml` checks everything.

## What is modelled

**Fiber runtime** (`Fiber*.dfy`). `FiberModel` is a step machine: any number of workers share one pool of fibers, each
critical section of a `boost::mutex` is one step, and a context switch and the lowering of `_isLocked` are steps of their
own, so that a wake-up may arrive between registering and yielding. `Event::set` takes several steps under the event's mutex:
it passes an entry when it notifies, and erases later what it has passed. The registration phase of `waitAny` takes several
steps under the notifier's mutex. `FiberInvariant` says where every fiber may be; `FiberRootSteps`, `FiberUserSteps`,
`FiberSyncSteps` and `FiberAnySteps` prove that each of the 30 steps keeps it; `FiberSafety` states what follows for every
run, `FiberHistory` what runs keep in order and in balance, `FiberEffects` what each call does to events, mutexes and fibers,
`FiberTasks` what becomes of the tasks, `FiberBounds` how many fibers there can be, and `FiberLocks` who waits for whose lock,
and when that ends in a deadlock. `FiberObjects` has the objects themselves, with the loops that erase while they wake; its
events may repeat in one `waitAny`. The step machine leaves three obligations to the callers, which the code does not check: a
mutex is unlocked by its holder (mutex.cpp:79-85 lets any fiber do it) and not locked twice by one fiber, `waitAny` is called
with distinct events, and `set(true)` on an auto-reset event happens only while no `waitAny` is registered there.

**HTTP bodies.** `Accumulator` is the doubly linked packet accumulator and its iterator as heap objects; `ChunkFormat` the
chunk grammar and the encoder; `BodyReader` the three extractors as functions over values; `ChunkedRoundTrip` the round trip;
`Framing` the headers that writer and reader settle on; `BodyExtractors` the extractors as objects over the real accumulator,
proved equal to `BodyReader`; `OutputBuffer` the granule buffer whose slices go to the encoder while it is still written.
A channel is an arbitrary sequence of non-empty packets.

**Variants.** `VariantBytes`, `VariantFormat`, `VariantRoundTrip` and `VariantEnvelope` are the format, the size pass, the
header and the round trip over values and pointer graphs; `VariantSerializer` has the writer and the reader with their
buffer, loops and key maps, proved equal to the functions; `VariantFields` sees the same data as a row of fields, and
`VariantWire` says byte by byte what is on the wire. A pointer is the name of a pointee in a heap, so cycles are ordinary
data. The order of variants as keys is any strict weak order, and the largest sizes of strings and containers are parameters
(`Library`).

**Text.** `CanonicalOrdering` is the back-stepping loop of `utf8proc_decompose`, `Utf8Codec` the conversion in both directions,
the reading loop over a piece of memory, and the re-encoding in place; `Utf8Standard` compares them with the definitions of
RFC 3629 and of the option flags. Combining classes are an arbitrary function.

**The rest.** `Julian` (with `Calendar`); `DomTree`, `DomParser` and `DomShape`, which says whose child each node is in the end;
`EventWaiters`; and `Phrases`.

## Where the code does not do what one expects

- A batch of packets that ends between the CR and the LF behind the data of a chunk makes the chunked reader fail, and so does
  one that ends more than 1024 bytes inside a size line or a line of the trailer (bodyExtractorChunked.cpp:85-101, 144-149).
  `ReaderTakesChunksApart` proves that a well-formed body does not fail in any other way, whatever its extensions and trailer
  fields; bodies as the encoder writes them fail only in the first way (`EncodedBodyIsRead`).
- `Event::set` takes the mutexes of notifiers while it holds the event's (event.cpp:29-91), and `waitAny` takes those of events
  while it holds the notifier's (event.cpp:160-184). Two fibers that begin to wait for the same two events in opposite orders,
  while two others set these events, never go on (`KnotComesUp`), whatever the others do (`KnotIsForEver`). `KnotsComeUpIff`
  proves that a pool can come to this if and only if it has at least four workers, and `RankedRunsGoOn` that it never happens
  when all calls of `waitAny` name their events in the order of one ranking.
- A task that was taken from the queue is dropped when the fiber that was found for it is still locked (worker.cpp:216-222).
  `TasksAreConserved` proves that no task is lost in any other way.
- `calcSize` reserves 4 bytes for a pointer key and `write` emits 8. `WrittenSize` gives the difference for all graphs, and
  `CalcSizeIsExact` and `MessageRoundTrip` say that the buffer is large enough exactly for values without pointers.
- `readBinary` casts a size to `int` before it compares it with what is left (variantSerialization.cpp:659): the length of a
  string or byte vector that is 2^31 or more can pass the test, and the bytes are copied from behind the buffer
  (`LargeLengthOverreads`). `StaysInBufferIff` proves for all data that this happens if and only if reading comes to a length
  that exceeds what is left while its cast does not; `ShortStringsStayInBuffer` that it never does where strings cannot be that
  long. Data that was written holds no such length.
- Strings, vectors and deques are brought to the size that the data states before any element is read, so a large one throws
  (`ReadThrowsIff`) however short the data is.
- The comment on the header says that the checksum covers all data; the code leaves out the last four bytes
  (`LastFourUnchecked`). `deserialize` does not look at the result of `read`: a reading that fails at the very end of the data
  counts as a success. `FailureAcceptedIff` says for which data that is: complete fields behind which more are expected, or
  whose last one is no type number or no date.
- The reading loop of `utf8proc_decompose` passes -1 as the length (utf8proc.cpp:393), so a truncated last character is completed
  by the bytes behind the text (`TruncatedIsCompleted`). `DecodeMemoryIff` says exactly when the loop does what it should; a
  terminator behind the text is enough (`TerminatedIsDecoded`).
- `advance` by a negative distance goes one byte too far for every buffer that it leaves (inputMessage.cpp:178-193): it is exact
  if and only if the distance ends in the buffer where it starts (`Iterator.Advance`).
- The limit on the number of fibers is checked and applied in two critical sections. `FiberLimit` proves the bound
  `maxFibers + W - 1`; `FiberLimitIsReached` proves it the least one for every positive limit and every number W of workers, so
  that all runs respect the limit if and only if there is one worker (`LimitIsRespectedIff`).
- `Event::wait` asserts that fewer than 200 fibers wait. `AssertionsHoldIff` proves that this assertion, and with it those
  on idle and ready sets, lock flags and notifiers, hold in all runs if and only if a pool cannot come to more than 200 fibers.
- `set(true)` on an auto-reset event goes on with an iterator that `erase` has invalidated when it has found a live notifier
  (event.cpp:57-69), and only then (`Event.Set`).
- `bodyFlush` leaves the body filters in place: the head of a further message on the same object goes through the filters of the
  messages before it (`OutputMessage.BodyFlush`).
- Right after `EventWaiter::wait` has first returned false, `current` indexes beyond the end (`EventWaiter.Current`); an event
  that is added from then on is never returned (`EventWaiter.Add`).
- `prepareBodyExtractor` compares a header value that was never set when there is no Connection header and the version is
  below 1.1. The value is a parameter of the model; `ReaderAtALoss` says when the reader has no extractor to pick, for every
  version and every such value.

## Model

| member | source | states |
|---|---|---|
| FiberSafety.StepKeeps | src/async/impl/worker.cpp:47-271 | every step of every worker, whatever the others are in the middle of, keeps the invariant on places, flags, queues, events, mutexes and notifiers |
| FiberSafety.RunInv | src/async/impl/fiber.cpp:121-189 | the invariant holds in every state of every run |
| FiberSafety.ParkedFiberHasOnePlace | src/async/impl/worker.cpp:47-139 | a parked fiber is held by exactly one of idle set, ready queue, a worker's hand, one event, one mutex tail or one unfired notifier, and only once; a running fiber is held by none |
| FiberSafety.FiberRunsOnOneWorker | src/async/impl/fiber.cpp:141-189 | a fiber is current on at most one worker, and its lock flag is up exactly then |
| FiberSafety.WakeUpIsKept | src/async/impl/event.cpp:112-133 | a fiber that has been woken stays woken until it runs, even when the wake-up came before it had yielded |
| FiberSafety.OnlyFrontIsPastLock | src/async/impl/mutex.cpp:44-59 | owners are fibers; only the front of them is past `lock`, a parked front has been woken, and owners leave in the order of arrival |
| FiberSafety.UnlockGrantsNext | src/async/impl/mutex.cpp:69-102 | `unlock` takes the front off and wakes exactly the next in line, who was not woken before |
| FiberSafety.SignalsAreConserved | src/async/impl/event.cpp:29-91 | signals given to an auto-reset event equal those taken, those cleared by `reset` and the stored one; a set event has nobody waiting |
| FiberSafety.SetFalseHandsOutOneSignal | src/async/impl/event.cpp:53-90 | `set(false)` passes over dead notifiers; then it answers the first live notifier of this event and wakes its initiator, or, when no notifier is left, wakes the first fiber that waits on this event, or, when nobody waits, stores the signal; after a notifier has been answered only the erasing of the entries up to it is left |
| FiberSafety.WaitAnyReturnsClean | src/async/impl/event.cpp:160-203 | `waitAny` returns with one answer that is one of its events; its notifier is registered with no event whose mutex is free, and no `set` in progress can come to it any more |
| FiberSafety.WaitAnyHearsEveryEvent | src/async/impl/event.cpp:166-190 | a `waitAny` that waits unanswered is registered with all its events |
| FiberSafety.FiberLimit | src/async/impl/worker.cpp:173-200 | with W workers there are never more than maxFibers + W - 1 fibers |
| FiberBounds.FullHouse | src/async/impl/worker.cpp:173-200 | for every positive limit and every number of workers some run comes to maxFibers + W - 1 fibers, all but one of which wait on one event |
| FiberBounds.FiberLimitIsReached | src/async/impl/worker.cpp:173-200 | the least bound on the number of fibers in all runs is maxFibers + W - 1, and 0 when no fiber is allowed |
| FiberBounds.LimitIsRespectedIff | src/async/impl/worker.cpp:173-200 | all runs respect the limit if and only if there is one worker or no fiber is allowed |
| FiberBounds.AssertionsHoldIff | src/async/impl/event.cpp:112-133 | the assertions on idle and ready sets, lock flags, waiters and notifiers hold in all runs if and only if the pool cannot come to more than 200 fibers |
| FiberLocks.GoesOnIff | src/async/impl/event.cpp:29-238 | in every reachable state a worker can do something if and only if its fiber, if it runs one, does not wait for the mutex of an event that somebody is setting or of a notifier that somebody is registering |
| FiberLocks.UserMayDo | src/async/impl/event.cpp:29-133 | which calls a fiber in user code can make: all but those that the callers owe, and those on an event that somebody else is setting |
| FiberLocks.KnotStays | src/async/impl/event.cpp:29-203 | fibers that all wait for locks held among them do so after every step of anybody |
| FiberLocks.KnotIsForEver | src/async/impl/event.cpp:29-203 | so they do for the rest of every run: a deadlock |
| FiberLocks.KnotNeedsFour | src/async/impl/event.cpp:29-203 | a deadlock takes at least four fibers, of which two set different events and two register different calls of `waitAny` |
| FiberLocks.RankedNeverKnots | src/async/impl/event.cpp:160-184 | when every `waitAny` names its events in rising order of one ranking, there is no deadlock in a reachable state |
| FiberLocks.SomebodyGoesOn | src/async/impl/event.cpp:29-203 | without a deadlock every worker waits, over a chain of others, for one that can go on |
| FiberLocks.RankedRunsGoOn | src/async/impl/event.cpp:160-184 | so in every run whose calls of `waitAny` keep to one ranking, whoever waits for a lock waits for somebody who can go on |
| FiberLocks.KnotComesUp | src/async/impl/event.cpp:29-184 | a run of a pool with any limit and at least four workers that ends in a deadlock |
| FiberLocks.KnotsComeUpIff | src/async/impl/event.cpp:29-184 | a pool can come to a deadlock on these mutexes if and only if it has at least four workers and may have fibers |
| FiberHistory.NobodyOvertakes | src/async/impl/worker.cpp:63-139 | as long as a ready fiber has not been popped, nobody who became ready later is popped or stands before it |
| FiberHistory.EverySignalIsUsedOnce | src/async/impl/event.cpp:29-203 | every signal given to an auto-reset event has ended one plain wait, or answers one call of `waitAny` with this event, or was cleared by `reset`, or is stored; no call is answered by two events |
| FiberHistory.TakenByWaits | src/async/impl/event.cpp:112-148 | the signals taken are the plain waits that ended and the notifiers whose key is this event |
| FiberEffects.ManualStaysSet | src/async/impl/event.cpp:36-51 | in every run a manual-reset event that is set, with no `set` in progress, stays so over every step but a reset |
| FiberEffects.FlagChanges | src/async/impl/event.cpp:29-221 | an event becomes set only by a `set`, which on an auto-reset event must have woken nobody; it becomes unset only by a reset, or when a wait or a `waitAny` consumes an auto-reset one |
| FiberEffects.OtherEventsStay | src/async/impl/event.cpp:29-238 | a step changes no event but its own, and no event changes its kind |
| FiberEffects.WaitOnSet | src/async/impl/event.cpp:117-125 | a wait on a set event returns at once; afterwards the event is set if and only if it is a manual-reset one |
| FiberEffects.WaitOnUnset | src/async/impl/event.cpp:127-132 | a wait on an unset event puts the caller behind those that wait, and parks it |
| FiberEffects.ResetUnsets | src/async/impl/event.cpp:94-103 | after a reset the event is unset, and nobody who waited is lost |
| FiberEffects.SetStarts | src/async/impl/event.cpp:29-55 | `set` does nothing to a set event; an unset one it takes, and sets at once when it is a manual-reset one |
| FiberEffects.SetMeetsNotifier | src/async/impl/event.cpp:57-69 | the first notifier is answered with this event and its initiator becomes ready, or, answered before, it is passed |
| FiberEffects.SetMeetsWaiter | src/async/impl/event.cpp:73-84 | behind the notifiers the first fiber that waits becomes ready; with set(false) that is the end |
| FiberEffects.SetEnds | src/async/impl/event.cpp:29-91 | for each kind of event and of `set`: who may still wait when it is over, and whether the event is set |
| FiberEffects.BroadcastReachesAll | src/async/impl/event.cpp:29-91 | over all runs: from the beginning to the end of a `set` on a manual-reset event, or of a set(true), the fibers that waited become ready, each once, in the order in which they came, and every registered `waitAny` is answered |
| FiberEffects.AnyStarts | src/async/impl/event.cpp:160-167 | `waitAny` begins with an unanswered notifier of its own for the caller and the events asked for |
| FiberEffects.AnyMeetsEvent | src/async/impl/event.cpp:168-221 | the next event, when set, is the answer, and is unset if and only if it is an auto-reset one; otherwise the call is registered behind the others |
| FiberEffects.AnyParks | src/async/impl/event.cpp:184-187 | when no event was set the caller parks, with the notifier unlocked |
| FiberEffects.CancelKeepsOthers | src/async/impl/event.cpp:223-238 | taking back a registration takes at most one entry, of the caller's own, off one event's list, and leaves the others in order |
| FiberEffects.NotifiersStay | src/async/impl/event.cpp:136-148 | a call of `waitAny` keeps its initiator and events, and its answer once it has one |
| FiberEffects.LockTakesOrParks | src/async/impl/mutex.cpp:44-59 | `lock` makes the caller the last owner; it goes on when the mutex was free and parks when it was held |
| FiberEffects.TryLockNeverParks | src/async/impl/mutex.cpp:29-41 | `tryLock` makes the caller the owner of a free mutex and changes nothing of a held one |
| FiberEffects.OtherMutexesStay | src/async/impl/mutex.cpp:29-102 | a step changes no mutex but the one that it locks or unlocks |
| FiberEffects.HandingOver | src/async/impl/worker.cpp:47-271 | a fiber whose task is done is idle, one that yields is the last of the ready ones |
| FiberEffects.EnteredGoesOn | src/async/impl/fiber.cpp:121-189 | a fiber that is entered goes on in user code, or, behind the yield of a `waitAny`, with taking back its registrations |
| FiberEffects.PassKeepsOrder | src/async/impl/worker.cpp:97-139 | fibers that could not be entered go back behind the ready ones in the order in which they were popped |
| FiberTasks.TasksAreConserved | src/async/impl/worker.cpp:142-248 | over all runs: tasks at the beginning and tasks given to `exec` equal those in the queue, in workers' hands, begun and dropped; dropped are only tasks taken from the queue whose fiber was still locked |
| FiberTasks.ExecPhases | src/async/impl/worker.cpp:142-264 | the order of the phases of `exec`, and when each is left |
| FiberTasks.TaskIsTaken | src/async/impl/worker.cpp:163-170 | a worker takes a task from the queue exactly when there is one |
| FiberTasks.FiberIsSought | src/async/impl/worker.cpp:171-206 | an idle fiber is taken when there is one; else a new one may be created if and only if fewer than the limit have been counted |
| FiberTasks.FiberIsCreated | src/async/impl/worker.cpp:177-200 | a created fiber is counted and is the worker's; after a failure there is no fiber for the task |
| FiberTasks.OwnTaskIsLast | src/async/impl/worker.cpp:208-241 | the task that `exec` was called with is begun only when the queue was seen empty, and otherwise given to the queue |
| FiberSafety.AssertionsHold | src/async/impl/worker.cpp:51-68 | the assertions of the source on idle and ready sets, lock flags, waiters and notifiers hold before every step of a reachable state, except in a wait on an event on which 200 fibers wait |
| FiberObjects.MultiNotifier.NotifyReady | src/async/impl/event.cpp:136-148 | the first notification sets the key and wakes the initiator, later ones do nothing |
| FiberObjects.Event.Wait | src/async/impl/event.cpp:112-133 | a set event is consumed when it is auto-reset, otherwise the fiber is appended to the waiters and must park |
| FiberObjects.Event.Reset | src/async/impl/event.cpp:94-103 | the event is unset and no waiter is lost |
| FiberObjects.Event.MnWait | src/async/impl/event.cpp:206-221 | a set event is consumed, otherwise the registration is appended |
| FiberObjects.Event.MnCancel | src/async/impl/event.cpp:224-238 | one entry of the notifier is taken off, if it has any, and the entries of all others stay in their order |
| FiberObjects.Event.Set | src/async/impl/event.cpp:29-91 | manual-reset: all live notifiers fire, once each, and all waiters wake in order; auto-reset: one live notifier, else one waiter (or all), else the event stays set; set(true) on an auto-reset event is not defined if and only if a notifier is live |
| FiberObjects.Event.NotifyLoop | src/async/impl/event.cpp:57-69 | the loop stops at the first live notifier, whose key it sets, erases the entries up to it, and changes no other notifier |
| FiberObjects.Event.NotifyFirst | src/async/impl/event.cpp:57-69 | so it fires if and only if a live notifier is registered, and the fiber that becomes ready is the first of their initiators |
| FiberObjects.Event.WakeWaiters | src/async/impl/event.cpp:73-84 | the waiters that are woken are a prefix of the list, in order |
| FiberObjects.Event.SetManual | src/async/impl/event.cpp:36-51 | all unfired initiators in the order of their first entries, then all waiters, become ready, and both lists are empty |
| FiberObjects.TakenBack | src/async/impl/event.cpp:176-179 | taking back all registrations with a row of events, in which events may repeat, leaves the list as it was before |
| FiberObjects.RollBack | src/async/impl/event.cpp:176-179 | each event before the answer loses as many of the notifier's entries as it has places there, and nothing else changes |
| FiberObjects.RegisterUntilSet | src/async/impl/event.cpp:166-184 | the loop registers with one event after another up to the first that is set, whose signal it takes |
| FiberObjects.Register | src/async/impl/event.cpp:166-184 | either one set event answers and no list has changed, or the notifier stands at the end of the list of every event, once for each of its places |
| FiberObjects.CancelRest | src/async/impl/event.cpp:190-200 | each event loses as many of the notifier's entries as it has places other than the answer's, so that none is left, and all others stay in their order |
| FiberObjects.Mutex.TryLock | src/async/impl/mutex.cpp:29-41 | lets a fiber in exactly when everybody who came has released; grants stay a prefix of the arrivals |
| FiberObjects.Mutex.Lock | src/async/impl/mutex.cpp:44-59 | a fiber is let in at once exactly when nobody holds the mutex, and otherwise parks; grants follow arrivals, and at most one granted fiber has not released |
| FiberObjects.Mutex.Unlock | src/async/impl/mutex.cpp:69-102 | the mutex is granted to whoever came next, who becomes ready; unlocking a free mutex is an error that changes nothing |
| Packets.DropBytesIsSuffix | src/http/impl/contentDecoderAccumuler.cpp:111-173 | dropping n bytes from packets leaves the bytes behind them and no empty packet |
| Packets.DropBytesAt | src/http/impl/contentDecoderAccumuler.cpp:111-173 | which packets remain when the place to drop up to lies inside or at the end of one of them |
| Accumulator.ContentDecoderAccumuler.Push | src/http/impl/contentDecoderAccumuler.cpp:39-65 | the packet is appended; links agree in both directions, offsets count the bytes before, the size is the total |
| Accumulator.ContentDecoderAccumuler.Link | src/http/impl/contentDecoderAccumuler.cpp:46-60 | the node becomes the last one, with consistent links |
| Accumulator.ContentDecoderAccumuler.DropFirst | src/http/impl/contentDecoderAccumuler.cpp:126-139 | the first buffer is unlinked and its bytes are no longer counted |
| Accumulator.ContentDecoderAccumuler.CutFirst | src/http/impl/contentDecoderAccumuler.cpp:158-162 | the first buffer starts later and the size shrinks by as much |
| Accumulator.ContentDecoderAccumuler.DropBefore | src/http/impl/contentDecoderAccumuler.cpp:124-140 | the loop drops exactly the buffers before the bound |
| Accumulator.ContentDecoderAccumuler.Renumber | src/http/impl/contentDecoderAccumuler.cpp:164-173 | afterwards each offset is the sum of the sizes before it, and the last sum is the size |
| Accumulator.ContentDecoderAccumuler.DropFront | src/http/impl/contentDecoderAccumuler.cpp:111-173 | exactly the bytes before the position are gone, and the list is consistent again |
| Accumulator.ContentDecoderAccumuler.Begin | src/http/impl/contentDecoderAccumuler.cpp:86-95 | a position with absolute index 0, or an iterator without a buffer when there are no bytes |
| Accumulator.ContentDecoderAccumuler.End | src/http/impl/contentDecoderAccumuler.cpp:98-102 | a position whose absolute index is the size |
| Accumulator.ContentDecoderAccumuler.Consume | src/http/impl/bodyExtractor.cpp:164-165 | `dropFront(begin() + n)` removes the first n bytes of the sequence |
| Accumulator.ContentDecoderAccumuler.Bytes | src/http/impl/bodyExtractorChunked.cpp:79-95 | what a grammar reads between `begin` and `end` is the byte sequence of the accumulator |
| Accumulator.Iterator.AbsoluteIsIndex | src/http/inputMessage.cpp:37-44 | the absolute position is an index into the byte sequence, and the byte there is the one shown |
| Accumulator.Iterator.Dereference | src/http/inputMessage.cpp:83-90 | returns the byte at the absolute position |
| Accumulator.Iterator.Normalize | src/http/inputMessage.cpp:59-80 | the position is no longer at the end of an inner buffer, and its absolute value is the same; an iterator without a buffer stays as it is |
| Accumulator.Iterator.Increment | src/http/inputMessage.cpp:99-118 | raises the absolute position by one |
| Accumulator.Iterator.Decrement | src/http/inputMessage.cpp:121-140 | lowers it by one and points at a byte |
| Accumulator.Iterator.Leap | src/http/inputMessage.cpp:150-175 | one round of the forward loop keeps the sum of position and remaining distance |
| Accumulator.Iterator.LeapBack | src/http/inputMessage.cpp:179-193 | one round of the backward loop ends in this buffer, or leaves it and loses one byte more, or runs off the front |
| Accumulator.Iterator.Advance | src/http/inputMessage.cpp:143-194 | forward it raises the absolute position by exactly the distance, across buffers; backward it goes one byte too far for every buffer left, so it is exact if and only if the distance ends in the first one |
| Accumulator.NormalIsUnique | src/http/inputMessage.cpp:93-96 | normal positions with the same absolute value are the same place |
| ChunkFormat.HexRoundTrip | src/http/impl/contentEncoderChunked.cpp:85-87 | the hexadecimal size is read back as the number it was printed from |
| ChunkFormat.HexIsPositional | src/http/impl/bodyExtractorChunked.cpp:84-90 | a hexadecimal digit counts sixteen times as much as the one behind it, for digits of any case |
| ChunkFormat.HexDigits | src/http/impl/contentEncoderChunked.cpp:85-87 | the digits written are 0 to 9 and lower-case a to f, with no zero in front but for 0 itself |
| ChunkFormat.SizeFitsHeader | src/http/impl/contentEncoderChunked.cpp:82-87 | a 64 bit size has at most 16 digits, so the header fits its 34 characters |
| ChunkFormat.FramesAreWire | src/http/impl/contentEncoderChunked.cpp:77-122 | the frames of any chunks and the end of the body are the bytes that a reader at its first caption expects |
| ChunkFormat.BadCutIsInside | src/http/impl/bodyExtractorChunked.cpp:85-101 | a bad cut lies strictly inside the chunked body |
| ChunkFormat.EncodedChunksKeepBytes | src/http/impl/contentEncoderChunked.cpp:28-47 | the chunks made of any pushes are non-empty, hold exactly the pushed bytes, and all but the last have at least a granule |
| ChunkFormat.ContentEncoderChunked.Push | src/http/impl/contentEncoderChunked.cpp:28-47 | bytes collect until there are at least a granule, and then leave as one chunk |
| ChunkFormat.ContentEncoderChunked.Push2Upstream | src/http/impl/contentEncoderChunked.cpp:77-112 | what is pending leaves as one frame, nothing when nothing is pending |
| ChunkFormat.ContentEncoderChunked.PushChunks | src/http/impl/contentEncoderChunked.cpp:98-105 | the pending packets are passed on in order |
| ChunkFormat.ContentEncoderChunked.Flush | src/http/impl/contentEncoderChunked.cpp:50-58 | upstream has the frames of all chunks and the last chunk, and the chunks hold all pushed bytes |
| ChunkFormat.Encode | src/http/impl/contentEncoderChunked.cpp:28-122 | for any granule and pushes the output is the frames of `EncodedChunks` and the last chunk |
| BodyReader.Reader.StepShrinks | src/http/impl/bodyExtractor.cpp:125-142 | a step that succeeds takes bytes off the stream, one that fails takes none: the source's own assertion |
| BodyReader.Reader.RunKeeps | src/http/impl/bodyExtractor.cpp:121-145 | the processing loop ends, and waiting for more data is not an error |
| BodyReader.Reader.FailedStaysFailed | src/http/impl/bodyExtractorChunked.cpp:36-66 | only a chunked reader fails; after a bad line each further step is an error and changes nothing |
| ChunkedRoundTrip.WholeCaption | src/http/impl/bodyExtractorChunked.cpp:85-95 | a whole caption with any extension, with or without the line end of the data before, is matched up to its end |
| ChunkedRoundTrip.PartOfCaption | src/http/impl/bodyExtractorChunked.cpp:97-107 | an incomplete caption is kept for later up to 1024 bytes, except a lone CR where a line end is due, which is an error |
| ChunkedRoundTrip.TrailerLine | src/http/impl/bodyExtractorChunked.cpp:138-165 | every line without CR is taken up to its end, and exactly the empty one ends the trailer |
| ChunkedRoundTrip.PartOfTrailerLine | src/http/impl/bodyExtractorChunked.cpp:142-153 | an incomplete line of the trailer is kept for later up to 1024 bytes |
| ChunkedRoundTrip.CaptionOnAnyBytes | src/http/impl/bodyExtractorChunked.cpp:84-121 | whatever bytes stand where a size line is due: no size, or one beyond 64 bits, fails at once; otherwise the size and the first line end count, and without a line end the reader waits for at most 1024 bytes |
| ChunkedRoundTrip.TrailerOnAnyBytes | src/http/impl/bodyExtractorChunked.cpp:138-165 | the same where a line of the trailer is due |
| ChunkedRoundTrip.StepAgrees | src/http/impl/bodyExtractorChunked.cpp:36-66 | one step moves the reader to the next stage and loses nothing, waits at an incomplete line, or fails at a bad cut |
| ChunkedRoundTrip.RunAgrees | src/http/impl/bodyExtractor.cpp:121-145 | processing a batch fails exactly when the batch ends at a bad cut |
| ChunkedRoundTrip.ReadAgrees | src/http/impl/bodyExtractor.cpp:67-102 | reading fails exactly when some batch ends at a bad cut; otherwise body and tail are complete, and nothing stays in the stream |
| ChunkedRoundTrip.BadCutsAre | src/http/impl/bodyExtractorChunked.cpp:85-153 | the bad cuts are exactly one byte before the end of the frame of a chunk, and more than 1024 bytes inside a size line or a line of the trailer |
| ChunkedRoundTrip.ReaderTakesChunksApart | src/http/impl/bodyExtractorChunked.cpp:36-169 | for any chunks with any extensions, any trailer fields, any tail and every packetization: bad message if and only if a batch ends inside the line end behind chunk data or far inside a long line; else the body is the data, the whole trailer is taken, and the tail is recovered exactly |
| ChunkedRoundTrip.ShortLinesAreKept | src/http/impl/bodyExtractorChunked.cpp:97-107 | when no line is longer than 1025 bytes with its ends, only the first kind of cut is left |
| ChunkedRoundTrip.EncodedBodyIsRead | src/http/impl/contentEncoderChunked.cpp:28-122 | the same for the output of the encoder, for any pushes and granule: the body read is the bytes pushed |
| Framing.SizedRun | src/http/impl/bodyExtractorSized.cpp:27-34 | all bytes that came in are split at the remaining length into body and tail |
| Framing.SizedReaderTakesSize | src/http/impl/bodyExtractor.cpp:21-102 | a sized body is the first n bytes, the rest is the tail, and fewer than n bytes are an unexpected end |
| Framing.UntilCloseReaderTakesAll | src/http/impl/bodyExtractorUntilClose.cpp:20-55 | everything up to the close is the body, and the end of the stream is no error |
| Framing.OutputFraming.WriteSystemHeaders | src/http/impl/outputMessage.cpp:431-528 | the branches settle the length, coding, chunks and connection, and print just these |
| Framing.WhatIsSettled | src/http/impl/outputMessage.cpp:431-528 | the coding asked for is kept unless a length is declared that is 0 or compression is switched off; a length is kept unless the body is coded, chunks unless a length is left, keep-alive unless neither is left |
| Framing.SettledStays | src/http/impl/outputMessage.cpp:431-528 | settling twice is settling once |
| Framing.ReaderChooses | src/http/impl/inputMessage.cpp:394-453 | from any headers: a length goes before chunks, chunks before the end of the connection, and the coding is the one named |
| Framing.ReaderAtALoss | src/http/impl/inputMessage.cpp:431-452 | for every version and every never-set value, the reader finds no extractor if and only if keep-alive was not set, chunks were not asked for, no length is left, and an old reader does not happen to find the value for closing; a length excludes coding and chunks; a kept connection has a delimited body |
| Framing.FramingAgrees | src/http/impl/inputMessage.cpp:394-453 | with keep-alive set, the reader's extractor recovers the body from the writer's framing for every packetization, and undoes the coding that was applied |
| BodyExtractors.BodyExtractor.ProcessBody | src/http/impl/bodyExtractor.cpp:148-185 | at most the first packet and at most the remaining length goes to the body decoder |
| BodyExtractors.BodyExtractor.ProcessTail | src/http/impl/bodyExtractor.cpp:188-201 | the first packet goes to the tail decoder |
| BodyExtractors.BodyExtractor.ProcessCaption | src/http/impl/bodyExtractorChunked.cpp:69-122 | the object does what the value-level reader does |
| BodyExtractors.BodyExtractor.ProcessTrailerHeader | src/http/impl/bodyExtractorChunked.cpp:125-169 | the object does what the value-level reader does |
| BodyExtractors.BodyExtractor.ProcessChunked | src/http/impl/bodyExtractorChunked.cpp:36-66 | the state machine of the chunked extractor over the real accumulator |
| BodyExtractors.BodyExtractor.ProcessOnce | src/http/impl/bodyExtractorSized.cpp:27-34 | one step of whichever extractor it is |
| BodyExtractors.BodyExtractor.Process | src/http/impl/bodyExtractor.cpp:121-145 | the loop equals the recursive run of the value-level reader |
| BodyExtractors.BodyExtractor.Read | src/http/impl/bodyExtractor.cpp:67-102 | reading from the channel equals the value-level reading |
| BodyExtractors.BodyExtractor.ReadRest | src/http/impl/bodyExtractor.cpp:21-64 | the packets behind the headers are pushed and processed |
| BodyExtractors.ReadBody | src/http/impl/inputMessage.cpp:145-171 | the whole reading of a body equals `ReadMessage`, to which the round trips apply |
| OutputBuffer.OutputMessage.BufferEnsure | src/http/impl/outputMessage.cpp:355-371 | there is a buffer with room, and no slice changes |
| OutputBuffer.OutputMessage.BufferFlush | src/http/impl/outputMessage.cpp:374-407 | the pending bytes become one slice, none when nothing is pending; a full buffer is let go |
| OutputBuffer.OutputMessage.BufferNext | src/http/impl/outputMessage.cpp:410-420 | a flush, then room for more |
| OutputBuffer.OutputMessage.BufferGet | src/http/impl/outputMessage.cpp:262-274 | the place and the number of bytes that fit, at least one |
| OutputBuffer.OutputMessage.BufferInc | src/http/impl/outputMessage.cpp:277-287 | the bytes filled in are appended to everything written |
| OutputBuffer.OutputMessage.Copy | src/http/impl/outputMessage.cpp:299 | copying into the buffer changes no slice that was given away |
| OutputBuffer.OutputMessage.Write | src/http/impl/outputMessage.cpp:290-309 | for any data and granule, slices and pending bytes make up everything written in order, and old slices are unchanged |
| OutputBuffer.OutputMessage.Put | src/http/impl/outputMessage.cpp:665-685 | one byte through the iterator |
| OutputBuffer.OutputMessage.SetupBodyFilters | src/http/impl/outputMessage.cpp:531-547 | chunks and, around them, compression, as far as they are asked for, are put around the filters that earlier messages have left |
| OutputBuffer.BodyFiltersAre | src/http/impl/outputMessage.cpp:531-547 | compression, when asked for, is the last filter, which the data meets first; each filter is there if and only if it was asked for, once |
| OutputBuffer.OutputMessage.EndHeaders | src/http/impl/outputMessage.cpp:622-642 | the head goes out completely before the body filters are set up |
| OutputBuffer.OutputMessage.EnsureMode | src/http/impl/outputMessage.cpp:550-662 | the line ends and headers between two modes are written, once |
| OutputBuffer.OutputMessage.Header | src/http/impl/outputMessage.cpp:108-120 | a header line with its line end, after the first line has been ended |
| OutputBuffer.OutputMessage.Body | src/http/impl/outputMessage.cpp:207-215 | body bytes follow the complete head |
| OutputBuffer.OutputMessage.BodyFlush | src/http/impl/outputMessage.cpp:240-259 | no slice mixes head and body; for any number of messages on one object, the head goes through the filters that were there when the message began, and the body through those and its own, in that order |
| OutputBuffer.OutputMessage.WriteHead | src/http/impl/outputMessage.cpp:89-120 | the head is the first line, the header lines, the system headers and the empty line, each with its line end |
| OutputBuffer.OutputMessage.WriteMessage | src/http/impl/outputMessage.cpp:89-259 | for any lines, headers and body parts on an object that has sent any messages before: all bytes of the head go through the earlier filters, all bytes of the body through those and the ones asked for, and nothing stays behind |
| VariantBytes.FieldRoundTrip | src/utils/variantSerialization.cpp:349-355 | a signed or unsigned number of any width is read back from its bytes |
| VariantBytes.TakeFieldsBack | src/utils/variantSerialization.cpp:941-970 | a row of fields is read back and what follows is left |
| VariantBytes.TakeStringBack | src/utils/variantSerialization.cpp:688-708 | a string is read back and what follows is left |
| VariantBytes.BitsetRoundTrip | src/utils/variantSerialization.cpp:369-383 | a bit set is read back bit by bit |
| VariantWire.TypeOnWire | src/utils/variantSerialization.cpp:420-428 | every value begins with its type number in two bytes, a null with the negative number and nothing else |
| VariantWire.TypeNumbers | src/utils/variantSerialization.cpp:834-1043 | which type numbers the kinds of values have |
| VariantWire.ValuesAre | src/utils/variantSerialization.cpp:428-627 | which values can be written: type numbers, numbers of fields and their ranges, sizes of bit sets, kinds of keys, and what may be inside |
| VariantWire.FlatIs | src/utils/variantSerialization.cpp:428-594 | how many fields each type has that is a row of fixed fields, their widths, and whether they are signed |
| VariantWire.DatesAre | src/utils/variantSerialization.cpp:874-898 | dates go from the year 1400 to 9999, with the leap years of the Gregorian calendar |
| VariantWire.OtherTypesRead | src/utils/variantSerialization.cpp:803-836 | the negative of a type number is read as a null of that type, every number that is no type fails |
| VariantWire.NumberRange | src/utils/variantSerialization.cpp:447-480 | which numbers fit each numeric type: its width and whether it is signed |
| VariantWire.NumberOnWire | src/utils/variantSerialization.cpp:349-355 | a number is its bytes in two's complement, the low ones first |
| VariantWire.RowOnWire | src/utils/variantSerialization.cpp:516-594 | a broken-down time is nine signed numbers of four bytes in order, a Uuid sixteen bytes |
| VariantWire.DurationOnWire | src/utils/variantSerialization.cpp:558-563 | a duration is its days in four bytes, then its microseconds in eight |
| VariantWire.StringOnWire | src/utils/variantSerialization.cpp:358-366 | a string or byte vector is its length in eight bytes, then its bytes |
| VariantWire.BoolOnWire | src/utils/variantSerialization.cpp:513-515 | a bool is one byte, 0 or 1 |
| VariantWire.DateOnWire | src/utils/variantSerialization.cpp:482-505 | a date is its decimal digits as one number, with the microseconds of the day behind it when it has a time |
| VariantWire.BitsetOnWire | src/utils/variantSerialization.cpp:369-383 | bit i is bit i % 8 of byte i / 8 |
| VariantWire.SeqOnWire | src/utils/variantSerialization.cpp:404-417 | a sequence is its type, its count and its items |
| VariantWire.ItemsInOrder | src/utils/variantSerialization.cpp:404-417 | the bytes of each item stand behind those of the items before, and the pointers met there are known |
| VariantWire.MapOnWire | src/utils/variantSerialization.cpp:386-401 | a map is its type, its count and its entries |
| VariantWire.EntryOnWire | src/utils/variantSerialization.cpp:386-401 | a key stands before its value; it is a bare string in types 17 and 31 and a variant in types 30 and 32 |
| VariantWire.EntriesInOrder | src/utils/variantSerialization.cpp:386-401 | the bytes of each entry stand behind those of the entries before |
| VariantWire.PointerOnWire | src/utils/variantSerialization.cpp:595-622 | a pointer is 0, or the key that its pointee was given, or the next key with the pointee behind it |
| VariantWire.BoolRead | src/utils/variantSerialization.cpp:931-940 | every byte but 0 is read as true |
| VariantWire.YearWraps | src/utils/variantSerialization.cpp:482-491 | the year that is read goes through 16 bits, so numbers that differ by 65536 years are the same date |
| VariantWire.LargeCount | src/utils/variantSerialization.cpp:758-800 | a count beyond what the container can have makes vectors and deques throw, and a list fail for want of items |
| VariantWire.LessIsLexicographic | src/utils/variantSerialization.cpp:743-753 | string keys are ordered by the first byte that differs, a proper prefix first |
| VariantWire.RepeatedKey | src/utils/variantSerialization.cpp:743-753 | an entry whose key is there already is dropped by types 17 and 30 and only by them |
| VariantWire.NewKey | src/utils/variantSerialization.cpp:743-753 | an entry with a new key is kept |
| VariantFormat.DateRoundTrip | src/utils/variantSerialization.cpp:482-491 | a valid date is recovered from its decimal packing in 32 bits |
| VariantFormat.InsertOrderedLast | src/utils/variantSerialization.cpp:743-753 | inserting entries in their order rebuilds the map or multimap, with string keys or with variant keys in any strict weak order |
| VariantFormat.InsertKeepsOrdered | src/utils/variantSerialization.cpp:743-753 | inserting any entry keeps a map or multimap in order, and brings in nothing else |
| VariantRoundTrip.LeafBack | src/utils/variantSerialization.cpp:838-1043 | every scalar, date, duration, bit set, string and byte vector is read back |
| VariantRoundTrip.ValueBack | src/utils/variantSerialization.cpp:803-1084 | in the middle of a graph: the value is read back with pointers renamed, the pointees met on the way are rebuilt, and what follows is left |
| VariantRoundTrip.BodyBack | src/utils/variantSerialization.cpp:834-1043 | the same behind the type number |
| VariantRoundTrip.NewPointerBack | src/utils/variantSerialization.cpp:595-622 | a pointee met for the first time gets the next key and is written once; reading makes one object for it, known before its value is read |
| VariantRoundTrip.OldPointerBack | src/utils/variantSerialization.cpp:1053-1072 | a key that is known, or 0, gives the same object, or none |
| VariantRoundTrip.ItemsBack | src/utils/variantSerialization.cpp:404-417 | the items of a vector, deque or list come back in order |
| VariantRoundTrip.EntryKeyBack | src/utils/variantSerialization.cpp:743-748 | a key, a string or a variant without pointers, is read back as it was, and meets no pointee |
| VariantRoundTrip.EntriesBack | src/utils/variantSerialization.cpp:386-401 | the entries of a map or multimap come back in order, whichever kind of key it has |
| VariantRoundTrip.GraphRoundTrip | src/utils/variantSerialization.cpp:420-627 | for every graph, shared or cyclic, reading `write(v)` followed by any bytes gives the same graph under a one to one renaming of its pointees, and leaves exactly those bytes |
| VariantRoundTrip.RenameInjective | src/utils/variantSerialization.cpp:1044-1076 | values that are equal after the renaming were equal before, so two pointers alias exactly when they did |
| VariantRoundTrip.TreeRoundTrip | src/utils/variantSerialization.cpp:803-1084 | a value without pointers comes back unchanged, and what follows is left |
| VariantEnvelope.LeafSizeIsWritten | src/utils/variantSerialization.cpp:144-312 | the sizes listed in `calcSize` are the lengths written |
| VariantEnvelope.WrittenSize | src/utils/variantSerialization.cpp:313-338 | the bytes written are those reckoned and four more for each pointer met; both passes give the same keys |
| VariantEnvelope.PointersMet | src/utils/variantSerialization.cpp:313-333 | no pointer is met if and only if there is none in the value |
| VariantEnvelope.CalcSizeIsExact | src/utils/variantSerialization.cpp:129-338 | `calcSize` equals the number of bytes written if and only if the value has no pointer |
| VariantEnvelope.MessageParts | src/utils/variantSerialization.cpp:51-77 | the header of a message is accepted for every checksum function, and the data is found behind it |
| VariantWire.HeaderSays | src/utils/variantSerialization.cpp:86-109 | the header is accepted if and only if there are 14 bytes, the signature is right, bytes 2 and 3 are the checksum of bytes 4 to |m| - 4, and bytes 4 to 12 the size of the data |
| VariantWire.CorruptionIsSeen | src/utils/variantSerialization.cpp:101-109 | of two messages with the same signature and checksum whose covered bytes have different checksums at most one is accepted |
| VariantWire.SerializedHeader | src/utils/variantSerialization.cpp:51-77 | the same equations for what `serialize` writes, with the data behind the header |
| VariantEnvelope.MessageRoundTrip | src/utils/variantSerialization.cpp:51-124 | serializing stays in its buffer if and only if there is no pointer, and then deserializing gives the value back |
| VariantEnvelope.LastFourUnchecked | src/utils/variantSerialization.cpp:101-106 | messages that differ only in their last four bytes pass the same checks |
| VariantEnvelope.FailureAtEndAccepted | src/utils/variantSerialization.cpp:108-124 | a concrete message whose reading fails is accepted |
| VariantEnvelope.LargeLengthOverreads | src/utils/variantSerialization.cpp:657-669 | for every length whose cast is not positive, a message that says so much of a string or byte vector and has none of it passes all checks, and its reading runs behind the buffer |
| VariantFields.ReadIsScan | src/utils/variantSerialization.cpp:803-1084 | reading a value takes the same fields as a scan that only knows what field comes next, and stops at the same place |
| VariantFields.StaysInBufferIff | src/utils/variantSerialization.cpp:657-669 | for all data: reading stays in the buffer if and only if it comes to no length that exceeds what is left and whose cast to int does not |
| VariantFields.ShortStringsStayInBuffer | src/utils/variantSerialization.cpp:688-708 | reading any data stays in the buffer when no string and no byte vector can have 2^31 bytes |
| VariantFields.ReadOutcomeIff | src/utils/variantSerialization.cpp:657-1084 | for all data: reading fails with a given rest if and only if the data is a row of complete fields and that rest, and either a longer field is expected there and seen to be longer, or the last field is no type number or ends what is no date; it succeeds if and only if the fields make up one value |
| VariantFields.ReadThrowsIff | src/utils/variantSerialization.cpp:688-800 | for all data: reading throws if and only if it comes to a size too large for its string, vector or deque |
| VariantFields.ReadIsHeld | src/utils/variantSerialization.cpp:743-800 | whatever the data, maps and multimaps that have been read are in order, and nothing is larger than its container allows |
| VariantFields.FailureAcceptedIff | src/utils/variantSerialization.cpp:80-124 | for all messages and checksum functions: which messages are accepted although reading them fails, which hold a value, and which pass all checks and make the reading run behind the buffer |
| VariantSerializer.Writer.WriteBinary | src/utils/variantSerialization.cpp:341-346 | the bytes are appended at the iterator, what was written stays |
| VariantSerializer.Writer.WriteIntegral | src/utils/variantSerialization.cpp:349-355 | the number is appended in its width |
| VariantSerializer.Writer.WriteString | src/utils/variantSerialization.cpp:358-366 | size and characters are appended |
| VariantSerializer.PackByte | src/utils/variantSerialization.cpp:375-381 | the bit loop assembles the byte of eight bits |
| VariantSerializer.Writer.WriteLeaf | src/utils/variantSerialization.cpp:428-594 | appends what the format says, for every type without parts |
| VariantSerializer.Writer.WriteVariant | src/utils/variantSerialization.cpp:420-627 | the recursive writer with its key map appends exactly `Write` and ends on every graph |
| VariantSerializer.Writer.WritePointer | src/utils/variantSerialization.cpp:595-622 | a new pointee is entered in the key map before it is written |
| VariantSerializer.Writer.WriteSeq | src/utils/variantSerialization.cpp:404-417 | the loop over a sequence |
| VariantSerializer.Writer.WriteEntryKey | src/utils/variantSerialization.cpp:389-395 | a key is appended as a string or as a variant |
| VariantSerializer.Writer.WriteMap | src/utils/variantSerialization.cpp:386-401 | the loop over a map or multimap with either kind of key |
| VariantSerializer.Reader.ReadBinary | src/utils/variantSerialization.cpp:657-669 | bytes are taken; or nothing moves when the cast size exceeds what is left; or, when only the size itself does, the reading runs behind the buffer |
| VariantSerializer.Reader.ReadString | src/utils/variantSerialization.cpp:688-708 | a string is taken, or the place of failure is kept, or it throws before it looks for the bytes |
| VariantSerializer.UnpackBits | src/utils/variantSerialization.cpp:720-727 | the bit loop takes bytes apart |
| VariantSerializer.Reader.ReadVariant | src/utils/variantSerialization.cpp:803-1084 | the recursive reader with its object map gives exactly `Read`, including where it stops when it fails, and when it throws or runs behind the buffer |
| VariantSerializer.Reader.ReadPointer | src/utils/variantSerialization.cpp:1044-1076 | the object is entered before its value is read |
| VariantSerializer.Reader.ReadSeq | src/utils/variantSerialization.cpp:758-800 | the loop over a sequence |
| VariantSerializer.Reader.FillSeq | src/utils/variantSerialization.cpp:758-800 | the loop that reads the items in order |
| VariantSerializer.Reader.ReadEntryKey | src/utils/variantSerialization.cpp:743-748 | a key is read as a string or as a variant |
| VariantSerializer.Reader.FillMap | src/utils/variantSerialization.cpp:743-753 | the loop that inserts entries, whichever kind of key they have |
| CanonicalOrdering.SwapKeepsProjections | src/utf8proc/utf8proc.cpp:432-435 | an exchange keeps, for every class c, the order of the characters of class 0 and c |
| CanonicalOrdering.SwapLowersWeight | src/utf8proc/utf8proc.cpp:432-436 | an exchange lowers the sum of classes weighted by their distance to the end, so the loop terminates |
| CanonicalOrdering.OrderedIsUnique | src/utf8proc/utf8proc.cpp:423-441 | there is only one ordered sequence with given projections |
| CanonicalOrdering.CanonicalOrders | src/utf8proc/utf8proc.cpp:423-441 | stable insertion of marks gives an ordered permutation that moves no mark across a character of class 0 and keeps equal classes in order |
| CanonicalOrdering.CanonicalIdempotent | src/utf8proc/utf8proc.cpp:423-441 | ordered text stays as it is, ordering twice is ordering once |
| CanonicalOrdering.Order | src/utf8proc/utf8proc.cpp:423-441 | the back-stepping loop terminates and leaves the canonical order in the buffer |
| Utf8Codec.EncodeThenIterate | src/utf8proc/utf8proc.cpp:119-157 | the encoding of a valid code point is taken back with its length, whatever follows |
| Utf8Codec.IterateThenEncode | src/utf8proc/utf8proc.cpp:166-194 | what is accepted is the encoding of a valid code point |
| Utf8Codec.IterateAcceptsEncodings | src/utf8proc/utf8proc.cpp:119-164 | iterating succeeds if and only if the text begins with the encoding of a valid code point |
| Utf8Codec.IterateLoop | src/utf8proc/utf8proc.cpp:119-157 | the loop over the continuation bytes, with a length and, when that is negative, without |
| Utf8Codec.TextRoundTrip | src/utf8proc/utf8proc.cpp:119-194 | a sequence of valid code points is recovered from its encoding |
| Utf8Codec.DecodeAllEncodes | src/utf8proc/utf8proc.cpp:119-194 | a text of known end that is taken apart without an error is the encoding of the result |
| Utf8Codec.DecodeMemoryIff | src/utf8proc/utf8proc.cpp:391-405 | for all memories, lengths and both ways with invalid bytes, the loop takes the text apart as it should if and only if it comes to no character that begins in the text and is completed behind it |
| Utf8Codec.TerminatedIsDecoded | src/utf8proc/utf8proc.cpp:391-405 | it does whenever the byte behind the text continues no character |
| Utf8Codec.TruncatedIsCompleted | src/utf8proc/utf8proc.cpp:391-405 | a text of one byte is read as two |
| Utf8Codec.DecodedTextEncodes | src/utf8proc/utf8proc.cpp:364-405 | what the loop has read without an error encodes its result, valid code points; this is the text, or up to three bytes more exactly when the last character is completed behind it |
| Utf8Codec.MemoryRoundTrip | src/utf8proc/utf8proc.cpp:364-405 | the encoding of any valid code points is taken back, whatever lies behind it |
| Utf8Codec.ZeroEndsText | src/utf8proc/utf8proc.cpp:371-389 | a text that ends at the first zero is always taken apart as it should |
| Utf8Codec.DecodeLoop | src/utf8proc/utf8proc.cpp:364-405 | the reading loop over a piece of memory, with and without skipping invalid bytes, as the code calls it |
| Utf8Codec.EncodeAt | src/utf8proc/utf8proc.cpp:166-194 | writes the bytes of one code point and nothing else |
| Utf8Codec.Reencode | src/utf8proc/utf8proc.cpp:548-557 | in one piece of memory the bytes written equal the encodings of all words, writing never reaches an unread word, and the terminator fits |
| Utf8Codec.NormalizeNewlines | src/utf8proc/utf8proc.cpp:448-481 | the in-place loop computes `Newlines` and writes no further than it has read |
| Utf8Codec.NewlinesAreNormal | src/utf8proc/utf8proc.cpp:448-481 | no other newline and, when asked for, no control character is left, and a second pass changes nothing |
| Utf8Standard.ValidIs | src/utf8proc/utf8proc.cpp:119-164 | the code points that are taken: up to 10FFFF, no surrogates, none of FDD0 to FDEF, none that ends in FFFE or FFFF |
| Utf8Standard.EncodeCharIs | src/utf8proc/utf8proc.cpp:166-194 | the encoding of a code point in the bits of RFC 3629, section 3, in the shortest form |
| Utf8Standard.TakenApart | src/utf8proc/utf8proc.cpp:391-405 | an encoding in front is taken whole; a byte at which none begins is skipped alone, or makes the text fail |
| Utf8Standard.WordIs | src/utf8proc/utf8proc.cpp:548-557 | a word of memory is four bytes, the low one first |
| Utf8Standard.NewlinesApart | src/utf8proc/utf8proc.cpp:448-481 | texts that are not parted inside a CR LF are normalized one by one |
| Utf8Standard.NewlineIs | src/utf8proc/utf8proc.cpp:448-465 | which character each newline option stands for |
| Utf8Standard.NewlineBecomes | src/utf8proc/utf8proc.cpp:448-465 | CR, LF, CR LF and NEL, and where controls are stripped vertical tabs and form feeds, become one newline |
| Utf8Standard.OthersBecome | src/utf8proc/utf8proc.cpp:466-477 | where controls are stripped a tab becomes a space and the other controls go; every other character stays |
| Utf8Standard.PlainTextStays | src/utf8proc/utf8proc.cpp:448-481 | a text without newlines and control characters stays as it is |
| Julian.TomorrowIsNext | include/utils/julian.hpp:7-30 | from every date to the next calendar day the formula grows by exactly one |
| Julian.DayNumberCounts | include/utils/julian.hpp:7-30 | the date n days after the first one is a date and has day number n |
| Julian.InverseOfDayNumber | include/utils/julian.hpp:32-56 | the inverse formula takes every date back from its day number |
| Julian.CountingMeetsEveryDate | include/utils/julian.hpp:7-56 | dates from the first one on and day numbers from 0 on correspond one to one |
| Julian.Date2J | include/utils/julian.hpp:7-30 | for every valid date that `IS_VALID_JULIAN` accepts no step leaves signed 32 bits, and the result is the number of days counted from the first date |
| Julian.J2Date | include/utils/julian.hpp:32-56 | for every non-negative 32 bit day number the result is the date reached by counting |
| Julian.FirstAndEpoch | include/utils/julian.hpp:58-75 | the first date has number 0, and 2000-01-01 the number the header states |
| DomTree.FlattenedPreOrder | include/htmlcxx/html/tree.h:962-987 | `flatten` preserves pre-order |
| DomTree.AppendedPreOrder | include/htmlcxx/html/tree.h:693-719 | appending preserves pre-order if and only if it happens on the right edge |
| DomTree.FlattenedLinked | include/htmlcxx/html/tree.h:962-987 | the rewired links are the sibling links of the new tree |
| DomTree.AppendedLinked | include/htmlcxx/html/tree.h:693-719 | the links after appending are those of the new tree |
| DomTree.Tree.AppendChild | include/htmlcxx/html/tree.h:693-719 | below any node: the new node becomes the last child, and all links are consistent; the numbers of the nodes stay their pre-order if and only if that node is on the right edge |
| DomTree.Tree.Flatten | include/htmlcxx/html/tree.h:962-987 | the children become siblings right behind the node, all links are consistent |
| DomTree.Tree.MoveChildren | include/htmlcxx/html/tree.h:969-973 | the loop over the children changes the parents of exactly these |
| DomTree.Tree.Increment | include/htmlcxx/html/tree.h:1549-1565 | following the links leads from each node to the one made next, and from the last one to the end |
| DomTree.Tree.Walk | include/htmlcxx/html/tree.h:1549-1565 | pre-order meets all nodes in the order in which they were made |
| DomParser.AddOpenKeeps | src/htmlcxx/html/ParserDom.cc:54-60 | an opening tag keeps the document invariant |
| DomParser.CloseKeeps | src/htmlcxx/html/ParserDom.cc:61-124 | so does a closing tag, matched or not |
| DomParser.FlattenAllIsRehung | src/htmlcxx/html/ParserDom.cc:104-113 | flattening the unclosed tags one by one hangs everything below them from the closed tag |
| DomParser.StepKeeps | src/htmlcxx/html/ParserDom.cc:40-125 | every finding keeps: numbers in pre-order, the current node on the right edge, only tags have children, and a tag with children is the root, open, or explicitly closed |
| DomParser.Run | src/htmlcxx/html/ParserDom.cc:22-125 | so the invariant holds after every sequence of findings |
| DomParser.DocumentOrder | src/htmlcxx/html/ParserDom.cc:22-125 | the nodes in pre-order are the findings in document order, without the closing tags that match |
| DomParser.ParserDom.constructor | src/htmlcxx/html/ParserDom.cc:22-32 | a new document is its root |
| DomParser.ParserDom.FoundContent | src/htmlcxx/html/ParserDom.cc:40-50 | text and comments become leaves of the current tag |
| DomParser.ParserDom.OpenTag | src/htmlcxx/html/ParserDom.cc:54-60 | an opening tag becomes current |
| DomParser.FindOpen | src/htmlcxx/html/ParserDom.cc:66-102 | the climb finds the innermost open tag of the name, in any case of letters, and collects the tags passed |
| DomParser.ParserDom.FlattenPath | src/htmlcxx/html/ParserDom.cc:104-113 | the loop over the collected tags |
| DomParser.ParserDom.CloseTag | src/htmlcxx/html/ParserDom.cc:61-124 | does what the machine with a stack does |
| DomParser.ParserDom.FoundTag | src/htmlcxx/html/ParserDom.cc:52-125 | does what the machine with a stack does |
| DomParser.ParseAll | src/htmlcxx/html/ParserDom.cc:22-125 | for every sequence of findings the tree that was built is the machine's document |
| DomShape.SameNameIs | src/htmlcxx/html/ParserDom.cc:76-81 | tag names match if and only if they have the same length and the same letters up to the case of ASCII letters |
| DomShape.SameNameIsEquivalence | src/htmlcxx/html/ParserDom.cc:76-81 | so matching is an equivalence |
| DomShape.MatchIsInnermost | src/htmlcxx/html/ParserDom.cc:66-102 | a closing tag closes the innermost open tag of its name, and none if and only if there is none |
| DomShape.ClosingIs | src/htmlcxx/html/ParserDom.cc:86-124 | what closing leaves open and marks as closed; an unmatched closing tag becomes a comment |
| DomShape.AddingIs | src/htmlcxx/html/ParserDom.cc:40-60 | what is found becomes the last node, a child of the current one |
| DomShape.ParentIsInnermostKept | src/htmlcxx/html/ParserDom.cc:22-125 | for all findings: in the end each node hangs from the innermost of the tags open when it was found that has not been flattened |
| EventWaiters.EventWaiter.Add | include/async/eventWaiter.hpp:143-149 | the event is appended under its number; it will be returned if and only if no wait has returned false yet |
| EventWaiters.EventWaiter.BringForward | include/async/eventWaiter.hpp:177-182 | both containers undergo the same exchange |
| EventWaiters.EventWaiter.Wait | include/async/eventWaiter.hpp:152-184 | whichever event `waitAny` answers becomes current, its index is recorded, and both containers stay the same permutation of what was added |
| EventWaiters.EventWaiter.Current | include/async/eventWaiter.hpp:196-215 | the current holder, an exception, or an index beyond the end exactly when current equals the number of events |
| EventWaiters.EachReturnedOnce | include/async/eventWaiter.hpp:152-189 | when a wait has returned false every original index has been returned exactly once |
| EventWaiters.WaitForAll | include/async/eventWaiter.hpp:152-189 | waiting until false, whatever `waitAny` answers each time, takes one successful wait for each event and returns each event once under its number |
| Phrases.RankBelowProduct | src/spider/phrase.hpp:73-96 | every choice of words has a rank below the number of combinations |
| Phrases.RankInjective | src/spider/phrase.hpp:73-96 | different choices have different ranks |
| Phrases.RankFirst | src/spider/phrase.hpp:86-94 | the first place is the rank modulo the size of the first bucket |
| Phrases.CarryKeepsRank | src/spider/phrase.hpp:87-94 | a carry does not change the rank |
| Phrases.Phrase.Carry | src/spider/phrase.hpp:87-94 | the carry loop brings the indices back into their buckets without changing the rank |
| Phrases.Phrase.NextCombination | src/spider/phrase.hpp:73-96 | each call returns, of every bucket, the word at the current index, and raises the rank of the indices by one; at the product it returns false and changes nothing |
| Phrases.AllPicks | src/spider/phrase.hpp:73-96 | asking until false gives every choice of indices exactly once, in mixed radix order |
| Phrases.AllCombinations | src/spider/phrase.hpp:73-96 | so every choice of one word from each bucket comes out, none twice unless a bucket repeats a word, and nothing else; the first place changes with every answer |
| Phrases.WordIndexInArea | src/spider/phraseStreamer.hpp:18-42 | the places of a window are one and a gap apart, lie in its area, and the last one ends it |
| Phrases.PhraseStreamer.Next | src/spider/phraseStreamer.hpp:61-79 | call k gives the words at their places from k on, as long as the window lies in the text, all indices in bounds |
| Phrases.AllWindows | src/spider/phraseStreamer.hpp:61-79 | asking until false gives every window of the text exactly once, from left to right, each word at its place |

## Left out

- Sockets, SSL, timers, resolver, acceptor, process start-up, logging and options: plumbing of Boost.Asio.
- `ucontext` and Windows fibers, thread-local storage and the joining of threads: only which fiber runs on which worker and the lock flag are modelled.
- Liveness and fairness of the fiber runtime; fibers that wait for events or mutexes in a circle of their own making.
- FiberLocks.KnotsComeUpIff: is about the mutexes of events and notifiers; all others are held for one step.
- Tasks of the worker pool are counted, not identified; `exec` inside a fiber, which just calls the task, is not a step; destructors of events and mutexes are not modelled.
- FiberSafety.SignalsAreConserved: counts a `set` that finds the event unset; a `set` on a set event gives no signal, as in the code.
- FiberSafety.ParkedFiberHasOnePlace: a fiber that a `set` on a manual-reset event has made ready counts as taken off the waiters; the source clears that list at the end of the loop, under the same mutex.
- FiberSafety.StepKeeps: `waitAny` over repeated events is not in the step machine; one call at a time, `FiberObjects.Register` has it.
- FiberObjects.Event.Set: says nothing of the state that set(true) on an auto-reset event leaves once its iterator is invalid.
- FiberObjects.Register: has no lock, because one phase of `waitAny` is one call there; the interleaving is in the step machine.
- zlib coders and `dropTail`: the coding is a name that writer and reader must agree on, and the tail goes to an abstract sink.
- `TokFinder` and the reading of header lines; a forward `advance` beyond the end of the stream, which an assertion forbids.
- Errors of an upstream encoder, of a decoder or of the channel other than its end.
- ChunkedRoundTrip.ReaderTakesChunksApart: is about well-formed bodies; what other bytes do is said line by line in `CaptionOnAnyBytes` and `TrailerOnAnyBytes`.
- ChunkFormat.ParseCaption: does not model that a caption that is not matched may already have overwritten the body size, which is only read after a match.
- The printing and parsing of header lines: the settled headers are passed on as values.
- OutputBuffer.OutputMessage.EnsureMode: takes the text of the system headers as a parameter.
- OutputBuffer.OutputMessage.BufferInc: the bytes that the caller has put into the buffer are a ghost parameter.
- VariantSerializer.Writer.WriteVariant: its values contain no sets and no multisets, for the reason given next.
- VariantSerializer.Reader.ReadVariant: stops without a result where such a value begins.
- Sets and multisets in the variant format: they are read through a placeholder inside the set that is changed in place.
- VariantRoundTrip.GraphRoundTrip: keys of maps hold no pointers, because the order of variants compares pointers by address, which reading changes.
- Times of day beyond a day, which the calendar library carries into the date, and special values of dates and durations.
- VariantSerializer.Reader.ReadBinary: says nothing of what is found behind the buffer; a `ptrdiff_t` of 64 bits and an `int` of 32 are taken for granted.
- VariantEnvelope.Deserialize: the checksum is any function to 16 bits.
- VariantFields.ReadThrowsIff: the largest sizes are parameters; memory that runs out below them is not modelled.
- Unicode data tables, decomposition mappings, composition and lumping in utf8proc: combining classes are an arbitrary function.
- Utf8Codec.DecodeLoop: decomposes nothing; the same loop for a text that ends at a zero is a function only (`DecodeToZero`).
- Utf8Codec.Reencode: is the last loop on bytes; the newline loop is modelled on words, and the composition loop is not part of this model.
- Julian.J2Date: says nothing of negative day numbers, for which the code wraps modulo 2^32.
- `TMODULO`, `time2t` and `dt2time`.
- DomTree.Tree.Flatten: is stated for trees whose numbers are their pre-order, which are those that the parser makes.
- The nodes of the tree live in rows of links instead of separate allocations, and of a node's data only its kind, name and whether it was closed are kept.
- The rest of `tree.h`, `endParsing`, and the scanner that finds tags and text.
- `getCombinationsAmount`, which adds bucket sizes, and the resetting of a phrase between windows.
- The spider service, SQLite and libpq wrappers, spelling and character set conversion.
