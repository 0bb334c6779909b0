# Verified model of the d4np utility library

A Dafny 4.11 model of the core algorithms of a C++ utility library, with proofs.
`dafny verify dfyconfig.toml` checks all of it.

## What is modelled

| modules | component | form |
|---|---|---|
| `LockFreeQueue`, `LockFreeQueueTheorems`, `LockFreeQueueAnswers`, `LockFreeQueueRing` | the bounded multi-producer, multi-consumer ring | a machine whose steps are single atomic accesses, run by any schedule of any threads; an object that makes each access in place |
| `JsonText`, `JsonScan`, `JsonWalk`, `JsonSound`, `JsonUnique`, `JsonParser` | the pull parser | the grammar of RFC 8259 as trees and their printing, the parser as a step function, both directions between them, and the parser object proved to take those steps |
| `JsonDecode`, `Utf8` | string decoding | the decoder against escapes, surrogate pairs and RFC 3629 |
| `ReaderWriterLock`, `ReaderWriterLockEntry` | the writer-preferring lock | a monitor with wait sets, time-outs, spurious wake-ups and owed notifications as steps; an object for its critical sections |
| `LoggerCore`, `Logger`, `LoggerAnswers`, `LoggerObject` | the logger's queue, pump, flush tickets and shutdown | the same |
| `TaskFuture`, `PriorityHeap`, `ThreadPool`, `ThreadPoolOutcomes` | the pool, its heap and the hand-off of outcomes | the same, over a binary heap with its sift loops |
| `CliGrammar`, `CliForms`, `CliNormal`, `CliParser` | the command line parser | what a line says, a normal form of it, and the parser object |
| `FlatMap`, `FlatMapBuild` | the sorted-vector map | an object searched by bisection, against a linear scan |
| `StringFormatter` | the format validator and renderer | one grammar that both are measured by |
| `FileStream` | the buffered stream | an object over an abstract system of short, interrupted and failing transfers |
| `HashMixing`, `HashVectors`, `Sha256Padding`, `Sha256`, `Sha256Constants` | FNV-1a, MurmurHash3, SHA-256 | words of 32 and 64 bits; loops against recurrences |

The concurrent components share one shape.  A deterministic `Step` takes an action, a schedule is
any sequence of actions, and a theorem about every schedule is a theorem about every
interleaving.  Whatever the scheduler, the clock or a spurious wake-up decides is an action or a
parameter of one.  The methods of the objects are the critical sections (or, for the ring, the
atomic accesses), each proved equal to the function the step uses.

## Where code and documentation differ

- `rounded_capacity` (`lock_free_queue.hpp:119-125`) accepts a capacity of one, at which the queue
  loses values: the code of a filled slot is the code of the next vacancy.
  `CapacityBoundary` says two slots are needed and enough; `CapacityOneWedgesPops` says the value
  that survives cannot be popped either.
- The comment at `logger.cpp:350-352` says a stopping logger has already drained and flushed.
  While shutdown drains it has not, and a `flush` that starts then returns at once.
  `StoppingFlushIsABarrierIff` says exactly when such a call is a barrier.  A caller can rely on
  it when the call was issued a ticket (`FlushIsABarrier`) or when a shutdown has returned
  (`FlushAfterShutdownIsABarrier`).  To know only that stopping has begun is not enough, for either
  of two reasons: `FlushCanReturnBeforeTheDrain`, `FlushCanReturnBeforeTheLastFlush`.
- `cli_parser.hpp:203` says `-ab` equals `-a -b`.  They spell the same commands if and only if the
  second part does not start with a `-`, which can be a registered short name:
  `SplitIsHarmlessIff`, with `SplitAtDashIsNot` as a witness.
- `hash.hpp:119-120` multiplies the length by eight in 64 bits.  The padding agrees with the
  standard below 2^61 bytes, which is as far as the standard goes.

## Model

| member | source | states |
|---|---|---|
| `LockFreeQueue.ReachableInv` | src/main/cpp/it/d4np/util/lock_free_queue.hpp:65-109 | every interleaving, from any capacity of at least 2 and any threads, keeps the global invariant that ties slot sequences, ticket counters and program points together |
| `LockFreeQueue.StepKeepsRing` | src/main/cpp/it/d4np/util/lock_free_queue.hpp:65-109 | each single atomic access keeps the part of it that concerns the ring, spurious compare-and-swap failures included |
| `LockFreeQueue.SlotHasOneOwner` | src/main/cpp/it/d4np/util/lock_free_queue.hpp:71-75 | between its compare-and-swap and its sequence store a thread shares its slot with no other owner |
| `LockFreeQueue.PushTestsAgree` | src/main/cpp/it/d4np/util/lock_free_queue.hpp:69-81 | the signed wrapping `gap` test of `try_push` decides as the unbounded tickets do while a stale ticket lags by at most 2^63 - capacity, so that the gap fits a signed word |
| `LockFreeQueue.PopTestsAgree` | src/main/cpp/it/d4np/util/lock_free_queue.hpp:92-106 | the same for `try_pop` |
| `LockFreeQueue.ClaimTestsAgree` | src/main/cpp/it/d4np/util/lock_free_queue.hpp:72-95 | a compare-and-swap on stored words succeeds exactly when the unbounded ticket is current |
| `LockFreeQueue.SlotOfIsRemainder` | src/main/cpp/it/d4np/util/lock_free_queue.hpp:48-68 | the slot of a ticket is the remainder by the capacity, which for a power of two is the mask |
| `LockFreeQueueTheorems.NothingLostOrInvented` | src/main/cpp/it/d4np/util/lock_free_queue.hpp:65-109 | after any run every claimed ticket is accounted for once, with the value it was pushed with: waiting in its slot, still with its pusher, with its one popper, or returned |
| `LockFreeQueueTheorems.ReturnedIsPrefixOfPushed` | src/main/cpp/it/d4np/util/lock_free_queue.hpp:65-109 | when no pop is in flight the values returned, in ticket order, are a prefix of the values pushed |
| `LockFreeQueueTheorems.FifoPerThread` | src/main/cpp/it/d4np/util/lock_free_queue.hpp:65-109 | tickets follow the order of calls of each producer, and one consumer receives them in that order |
| `LockFreeQueueTheorems.PopReturnsItsPush` | src/main/cpp/it/d4np/util/lock_free_queue.hpp:93-100 | a finished pop returned exactly the value of the push that claimed the same ticket |
| `LockFreeQueueTheorems.OwnersAreAlone` | src/main/cpp/it/d4np/util/lock_free_queue.hpp:71-75 | in every reachable state two owners own different slots |
| `LockFreeQueueTheorems.FullIffLapNotVacated` | src/main/cpp/it/d4np/util/lock_free_queue.hpp:78-79 | `try_push` reports full if and only if the ticket one lap back is not yet vacated at its sequence load |
| `LockFreeQueueTheorems.EmptyIffNotPublished` | src/main/cpp/it/d4np/util/lock_free_queue.hpp:103-104 | `try_pop` reports empty if and only if its ticket is not yet published at its sequence load |
| `LockFreeQueueTheorems.ShortRunsAreLagBounded` | src/main/cpp/it/d4np/util/lock_free_queue.hpp:70-93 | the lag assumption holds by itself for every run of at most 2^63 - capacity accesses |
| `LockFreeQueueTheorems.PushAloneFills` | src/main/cpp/it/d4np/util/lock_free_queue.hpp:65-84 | a push that runs alone stores its value in the slot whose sequence is its ticket, whatever that slot holds |
| `LockFreeQueueTheorems.CapacityOneOverwrites` | src/main/cpp/it/d4np/util/lock_free_queue.hpp:119-125 | with the one-slot capacity that `rounded_capacity` accepts, a second push succeeds over the first, for any threads and values, and ticket 0 is no longer anywhere |
| `LockFreeQueueTheorems.CapacityOneWedgesPops` | src/main/cpp/it/d4np/util/lock_free_queue.hpp:91-107 | after that a pop never returns: in every run without further pushes, by any threads, it reads a gap of one and reloads the same ticket |
| `LockFreeQueueTheorems.CapacityBoundary` | src/main/cpp/it/d4np/util/lock_free_queue.hpp:119-125 | for any set of threads and any inhabited type, conservation over all runs that keep the lag bound holds if and only if the capacity is at least 2 or there is no thread |
| `LockFreeQueueAnswers.AnswersAreRight` | src/main/cpp/it/d4np/util/lock_free_queue.hpp:65-109 | in every run, whatever step ends a call: full or empty is answered only at the load of a sequence, and only if the ticket one lap back is not vacated or the ticket not published; success only at the last store, for the ticket claimed and its value |
| `LockFreeQueueAnswers.PopGoesOn` | src/main/cpp/it/d4np/util/lock_free_queue.hpp:89-107 | a pop loads the current ticket; its claim succeeds exactly when the ticket is current and the compare-and-swap does not fail spuriously; a lost claim goes on with the current ticket and changes nothing else |
| `LockFreeQueueAnswers.PushGoesOn` | src/main/cpp/it/d4np/util/lock_free_queue.hpp:66-82 | the same for a push |
| `LockFreeQueueAnswers.PopAloneTakes` | src/main/cpp/it/d4np/util/lock_free_queue.hpp:88-109 | in every reachable state whose oldest ticket is published, a pop that runs alone returns that value in six accesses and vacates the slot for the next lap |
| `LockFreeQueueRing.RoundedCapacity` | src/main/cpp/it/d4np/util/lock_free_queue.hpp:119-125 | the least power of two that holds the request; refused if zero or above 2^63 |
| `LockFreeQueueRing.Ring.constructor` | src/main/cpp/it/d4np/util/lock_free_queue.hpp:47-52 | the slots are numbered and vacant: the initial state of the machine |
| `LockFreeQueueRing.Ring.Advance` | src/main/cpp/it/d4np/util/lock_free_queue.hpp:65-109 | one atomic access made in place is exactly one step of the machine |
| `LockFreeQueueRing.Ring.TryPush` | src/main/cpp/it/d4np/util/lock_free_queue.hpp:65-84 | with no other thread moving, appends unless the ring is full, whatever number of spurious failures |
| `LockFreeQueueRing.Ring.TryPop` | src/main/cpp/it/d4np/util/lock_free_queue.hpp:88-109 | with no other thread moving, removes and returns the oldest element, or nothing from an empty ring |
| `JsonSound.AcceptsExactlyJson` | src/main/cpp/it/d4np/util/json_parser.hpp:110-134 | repeated `next` reaches `end` exactly on the JSON texts of RFC 8259 nested at most MaxDepth; on every other source it ends in `error` |
| `JsonSound.EndedIsDocument` | src/main/cpp/it/d4np/util/json_parser.hpp:110-134 | a run that reaches `end` has returned the pre-order walk of a tree that prints as the source, then `end` |
| `JsonSound.RunStops` | src/main/cpp/it/d4np/util/json_parser.hpp:110-134 | every run stops within one call more than the source has characters |
| `JsonSound.Sticky` | src/main/cpp/it/d4np/util/json_parser.hpp:111-116 | `end` and `error` are for good: every later call returns the same |
| `JsonSound.NextConsumes` | src/main/cpp/it/d4np/util/json_parser.hpp:118-133 | a call that goes on takes at least one character of the source |
| `JsonSound.ValueRead` | src/main/cpp/it/d4np/util/json_parser.hpp:329-374 | soundness of one value: what `start_value` and the calls after it took is the text of a value of the grammar, their events its walk |
| `JsonSound.MembersRead` | src/main/cpp/it/d4np/util/json_parser.hpp:261-296 | soundness of the rest of an object: names, colons, commas and the closing brace, no trailing comma |
| `JsonSound.ElementsRead` | src/main/cpp/it/d4np/util/json_parser.hpp:298-316 | soundness of the rest of an array |
| `JsonWalk.PrintedIsWalked` | src/main/cpp/it/d4np/util/json_parser.hpp:261-493 | every tree nested at most MaxDepth, printed with any white space the grammar allows, is walked to `end` without an error |
| `JsonWalk.ValueRuns` | src/main/cpp/it/d4np/util/json_parser.hpp:329-374 | completeness of one value, followed by anything that may follow a value |
| `JsonWalk.MembersRun` | src/main/cpp/it/d4np/util/json_parser.hpp:261-296 | completeness of the rest of an object |
| `JsonWalk.ElementsRun` | src/main/cpp/it/d4np/util/json_parser.hpp:298-316 | completeness of the rest of an array |
| `JsonUnique.TreeIsUnique` | src/main/cpp/it/d4np/util/json_parser.hpp:71-90 | a text has one tree, white space included, so the walk is the walk of the one parse tree |
| `JsonUnique.NumberOneToOne` | src/main/cpp/it/d4np/util/json_parser.hpp:445-485 | a number literal is read into parts in one way |
| `JsonScan.BodyTaken` | src/main/cpp/it/d4np/util/json_parser.hpp:381-407 | the string scanner takes all of what section 7 of RFC 8259 lets stand between quotes |
| `JsonScan.BodyGiven` | src/main/cpp/it/d4np/util/json_parser.hpp:381-443 | and what it takes is such a sequence of plain characters and escapes |
| `JsonScan.NumberTaken` | src/main/cpp/it/d4np/util/json_parser.hpp:446-485 | the number scanner takes exactly a literal of section 6 of RFC 8259 that is followed by a delimiter |
| `JsonScan.NumberGiven` | src/main/cpp/it/d4np/util/json_parser.hpp:446-485 | and what it takes is such a literal: no leading zero, digits where they are due |
| `JsonScan.SkipsWs` | src/main/cpp/it/d4np/util/json_parser.hpp:497-506 | white space of section 2 of RFC 8259 is skipped, all of it |
| `JsonParser.JsonParser.constructor` | src/main/cpp/it/d4np/util/json_parser.hpp:106-106 | a new parser is the initial configuration |
| `JsonParser.JsonParser.MakeError` | src/main/cpp/it/d4np/util/json_parser.hpp:511-518 | the first error is kept with its offset |
| `JsonParser.JsonParser.SkipWhitespace` | src/main/cpp/it/d4np/util/json_parser.hpp:497-506 | moves the position past the white space ahead |
| `JsonParser.JsonParser.ValidateEscape` | src/main/cpp/it/d4np/util/json_parser.hpp:410-443 | succeeds exactly on an escape of the grammar and moves past it |
| `JsonParser.JsonParser.ScanRaw` | src/main/cpp/it/d4np/util/json_parser.hpp:381-407 | returns the raw content exactly when the string is closed and well made; latches an error otherwise |
| `JsonParser.JsonParser.ScanNumber` | src/main/cpp/it/d4np/util/json_parser.hpp:446-485 | returns the literal the grammar gives, or latches an error |
| `JsonParser.JsonParser.ScanLiteral` | src/main/cpp/it/d4np/util/json_parser.hpp:487-493 | takes the literal if the source goes on with it |
| `JsonParser.JsonParser.OpenFrame` | src/main/cpp/it/d4np/util/json_parser.hpp:366-374 | pushes a frame unless MaxDepth is reached |
| `JsonParser.JsonParser.BeginValue` | src/main/cpp/it/d4np/util/json_parser.hpp:329-364 | `start_value` in place is its step function |
| `JsonParser.JsonParser.NextInObject` | src/main/cpp/it/d4np/util/json_parser.hpp:261-296 | `next_in_object` in place is its step function |
| `JsonParser.JsonParser.NextInArray` | src/main/cpp/it/d4np/util/json_parser.hpp:298-316 | `next_in_array` in place is its step function |
| `JsonParser.JsonParser.Next` | src/main/cpp/it/d4np/util/json_parser.hpp:110-134 | each call of `next` is one step of the walk; the step that fails notes the offset where it stopped, and no later call changes it |
| `JsonParser.ReadAll` | src/main/cpp/it/d4np/util/json_parser.hpp:71-95 | pulling a fresh parser dry succeeds if and only if the source is JSON nested at most MaxDepth, and then the events are those of every tree printed as the source, then `end` |
| `JsonDecode.DecodeString` | src/main/cpp/it/d4np/util/json_parser.hpp:172-238 | the loop computes the decoding, and fails exactly when that fails, on any text |
| `JsonDecode.ReadHex4` | src/main/cpp/it/d4np/util/json_parser.hpp:527-547 | reads four hexadecimal digits, or fails when they are not there |
| `JsonDecode.AppendUtf8` | src/main/cpp/it/d4np/util/json_parser.hpp:550-566 | appends the encoding of a code point |
| `JsonDecode.UnitsDecoded` | src/main/cpp/it/d4np/util/json_parser.hpp:172-238 | on what the scanner lets through, decoding fails exactly when a surrogate stands outside a high-then-low pair; otherwise it gives what the units mean |
| `JsonDecode.SliceDecoded` | src/main/cpp/it/d4np/util/json_parser.hpp:168-238 | a scanned slice is decoded unless a surrogate is misplaced, and the output is well-formed UTF-8 if and only if the slice was |
| `JsonDecode.EscapedDecoded` | src/main/cpp/it/d4np/util/json_parser.hpp:212-232 | any sequence of code points, escaped with surrogate pairs and hexadecimal letters in any mix of cases, decodes to their UTF-8 |
| `JsonDecode.SpelledIsRead` | src/main/cpp/it/d4np/util/json_parser.hpp:527-547 | four digits taken from 0-9, a-f and A-F by the value of each nibble are read as their number |
| `JsonDecode.EscapesAre` | src/main/cpp/it/d4np/util/json_parser.hpp:187-211 | each short escape stands for the code point section 7 of RFC 8259 gives it |
| `JsonDecode.HexDigitsAre` | src/main/cpp/it/d4np/util/json_parser.hpp:522-524 | the hexadecimal digits are 0-9, a-f and A-F and no others |
| `JsonDecode.EscapeLettersAre` | src/main/cpp/it/d4np/util/json_parser.hpp:418-428 | the short escapes are those the standard lists and no others |
| `JsonDecode.SameSteps` | src/main/cpp/it/d4np/util/json_parser.hpp:172-238 | an automaton for UTF-8 goes the same way over the raw slice and over the output |
| `Utf8.RecognisesWellFormed` | src/main/cpp/it/d4np/util/json_parser.hpp:549-566 | that automaton recognises exactly the byte sequences of section 4 of RFC 3629 |
| `Utf8.EncodeIsChar` | src/main/cpp/it/d4np/util/json_parser.hpp:550-566 | `append_utf8` writes one well-formed character that carries the code point, for every scalar value |
| `Utf8.CharIsEncoded` | src/main/cpp/it/d4np/util/json_parser.hpp:550-566 | every well-formed character is what `append_utf8` writes for the scalar value it carries |
| `ReaderWriterLock.ReachableInv` | src/main/cpp/it/d4np/util/reader_writer_lock.hpp:48-180 | over every run, with barging, timeouts and spurious wake-ups, the fields count the threads and no wake-up is lost |
| `ReaderWriterLock.WriterExcludesAll` | src/main/cpp/it/d4np/util/reader_writer_lock.hpp:48-54 | a writer excludes every other writer and every reader |
| `ReaderWriterLock.WaitingWriterHoldsReadersBack` | src/main/cpp/it/d4np/util/reader_writer_lock.hpp:103-120 | no step adds a reader while a writer waits |
| `ReaderWriterLock.NoWakeupIsEverLost` | src/main/cpp/it/d4np/util/reader_writer_lock.hpp:85-180 | a parked thread that could enter always has a notification on its way or an awake writer before it, also after a timed writer gave up |
| `ReaderWriterLock.SomebodyCanMove` | src/main/cpp/it/d4np/util/reader_writer_lock.hpp:48-180 | where a thread is parked, some thread holds the lock, is awake, or owes a notification |
| `ReaderWriterLock.StepKeepsCounts` | src/main/cpp/it/d4np/util/reader_writer_lock.hpp:48-180 | each critical section keeps the three fields true counts |
| `ReaderWriterLock.StepKeepsWakeups` | src/main/cpp/it/d4np/util/reader_writer_lock.hpp:85-180 | each critical section, notification and wake-up keeps every wake-up |
| `ReaderWriterLockEntry.WriterEntersIffFree` | src/main/cpp/it/d4np/util/reader_writer_lock.hpp:48-65 | in every run a writer gets in exactly when no thread reads or writes; otherwise `try_lock` leaves it outside and `lock` parks it |
| `ReaderWriterLockEntry.ReaderEntersIffUnclaimed` | src/main/cpp/it/d4np/util/reader_writer_lock.hpp:105-120 | in every run a reader gets in exactly when no writer holds or awaits the lock; otherwise it is left outside or parked |
| `ReaderWriterLockEntry.WokenLooksAgain` | src/main/cpp/it/d4np/util/reader_writer_lock.hpp:48-180 | a woken thread looks again by the same rule and gives up only out of time; a writer who does owes the readers a notification exactly when nobody else holds them back |
| `ReaderWriterLockEntry.LeavingOwes` | src/main/cpp/it/d4np/util/reader_writer_lock.hpp:87-158 | who leaves owes a waiting writer a notification, or the readers, or nobody, told from the threads alone |
| `ReaderWriterLockEntry.NotificationWakes` | src/main/cpp/it/d4np/util/reader_writer_lock.hpp:94-157 | a notification wakes one parked writer, or all parked readers, and nobody else |
| `ReaderWriterLock.Monitor.BeginLock` | src/main/cpp/it/d4np/util/reader_writer_lock.hpp:48-54 | the first critical section of `lock` and of the timed variants |
| `ReaderWriterLock.Monitor.ResumeLock` | src/main/cpp/it/d4np/util/reader_writer_lock.hpp:163-180 | a woken writer enters, waits on, or gives up and owes the readers it held back a notification |
| `ReaderWriterLock.Monitor.TryLock` | src/main/cpp/it/d4np/util/reader_writer_lock.hpp:58-65 | enters exactly when free |
| `ReaderWriterLock.Monitor.Unlock` | src/main/cpp/it/d4np/util/reader_writer_lock.hpp:87-99 | leaves, owing a waiting writer or else the readers |
| `ReaderWriterLock.Monitor.LookShared` | src/main/cpp/it/d4np/util/reader_writer_lock.hpp:105-144 | a reader enters exactly when no writer holds or awaits the lock |
| `ReaderWriterLock.Monitor.TryLockShared` | src/main/cpp/it/d4np/util/reader_writer_lock.hpp:113-120 | the same without waiting |
| `ReaderWriterLock.Monitor.UnlockShared` | src/main/cpp/it/d4np/util/reader_writer_lock.hpp:148-158 | the last reader owes a waiting writer a notification |
| `Logger.NothingLostOrReordered` | src/main/cpp/it/d4np/util/logger.cpp:363-421 | items taken by the pump followed by the queue are the accepted items in order, and the records taken are delivered in order |
| `Logger.FlushIsABarrier` | src/main/cpp/it/d4np/util/logger.cpp:345-361 | a `flush` that was issued a ticket returns only after every record accepted before it was delivered and the sinks were flushed after that |
| `Logger.ReturnedPumpLeavesNothing` | src/main/cpp/it/d4np/util/logger.cpp:413-421 | when the pump has returned every accepted record is delivered and flushed, no ticket is open and no flusher sleeps |
| `Logger.CapacityHolds` | src/main/cpp/it/d4np/util/logger.cpp:363-387 | the queue never holds more records than its capacity, however many markers bypass the bound |
| `Logger.NoWakeupIsEverLost` | src/main/cpp/it/d4np/util/logger.cpp:363-421 | no producer sleeps on a free slot, the pump on work, or a flusher on a completed ticket, without a wake-up on its way; shutdown releases all producers |
| `Logger.NothingAcceptedWhileStopping` | src/main/cpp/it/d4np/util/logger.cpp:333-383 | once stopping, nothing more is accepted |
| `Logger.StoppingFlushIsABarrierIff` | src/main/cpp/it/d4np/util/logger.cpp:350-352 | a `flush` that finds the logger stopping gets no ticket and returns at once; it is a barrier if and only if every accepted record is delivered and the last thing the sinks saw was a flush |
| `Logger.StoppingFlushIsABarrierAtTheEnd` | src/main/cpp/it/d4np/util/logger.cpp:413-421 | so it is one from the pump's final flush on |
| `Logger.FlushAfterShutdownIsABarrier` | src/main/cpp/it/d4np/util/logger.cpp:333-352 | in every run, a `flush` called after some `shutdown` has returned is a barrier |
| `Logger.FlushCanReturnBeforeTheDrain` | src/main/cpp/it/d4np/util/logger.cpp:350-352 | that stopping has begun is not enough: at any capacity and policy there is a run where the call returns with a record undelivered |
| `Logger.FlushCanReturnBeforeTheLastFlush` | src/main/cpp/it/d4np/util/logger.cpp:350-415 | and one where every record is delivered and the sinks are unflushed |
| `Logger.ReachableInv` | src/main/cpp/it/d4np/util/logger.cpp:333-421 | every run keeps the invariants of the queue, the deliveries, the tickets, the barriers and the wake-ups |
| `LoggerCore.PumpKeepsInv` | src/main/cpp/it/d4np/util/logger.cpp:389-421 | every move of the pump, from the top of its loop to its return, keeps them |
| `LoggerCore.RecordKeepsInv` | src/main/cpp/it/d4np/util/logger.cpp:384-384 | accepting a record keeps them |
| `LoggerCore.MarkerKeepsInv` | src/main/cpp/it/d4np/util/logger.cpp:353-358 | issuing a ticket keeps them |
| `LoggerAnswers.BlockNeverDropsDropNeverBlocks` | src/main/cpp/it/d4np/util/logger.cpp:369-378 | in every run the block policy drops nothing and under the drop policy nobody waits |
| `LoggerAnswers.LogAnswers` | src/main/cpp/it/d4np/util/logger.cpp:363-387 | in every run a call of `log` is refused when stopping; its own record is accepted exactly when there is room; on a full queue it parks or is dropped and counted, by the policy |
| `LoggerAnswers.WaitingProducerAnswers` | src/main/cpp/it/d4np/util/logger.cpp:377-386 | a producer that waited is refused, accepted with its own record, or waits on |
| `LoggerAnswers.DroppedCounts` | src/main/cpp/it/d4np/util/logger.cpp:370-373 | `dropped` counts exactly those answers, and the records sinks could not queue |
| `LoggerAnswers.WaitingKeepsMessage` | src/main/cpp/it/d4np/util/logger.cpp:363-384 | a waiting producer keeps the message of its call |
| `LoggerAnswers.FlushAnswers` | src/main/cpp/it/d4np/util/logger.cpp:349-360 | a flush of a running logger is issued the next ticket, and its marker is queued |
| `LoggerAnswers.WokenFlushAnswers` | src/main/cpp/it/d4np/util/logger.cpp:360-360 | a woken flush returns exactly when its ticket is completed |
| `LoggerAnswers.AcceptedReturns` | src/main/cpp/it/d4np/util/logger.cpp:385-387 | a caller whose record was accepted wakes the pump and returns |
| `LoggerAnswers.ShutdownAnswers` | src/main/cpp/it/d4np/util/logger.cpp:333-343 | a shutdown stops the logger, wakes the pump and every waiting producer, and returns exactly when the pump has |
| `LoggerAnswers.SinkLogAnswers` | src/main/cpp/it/d4np/util/logger.cpp:366-385 | a sink that logs is accepted where there is room |
| `LoggerAnswers.CompletedHolds` | src/main/cpp/it/d4np/util/logger.cpp:402-419 | in every run each marker the pump is done with is completed |
| `LoggerAnswers.PumpDrains` | src/main/cpp/it/d4np/util/logger.cpp:389-421 | left to itself the pump delivers everything accepted, completes every ticket, and sleeps or, when stopping, returns, within a bounded number of moves |
| `LoggerObject.Monitor.Enqueue` | src/main/cpp/it/d4np/util/logger.cpp:363-387 | refuses, drops, parks or accepts, in place |
| `LoggerObject.Monitor.BeginFlush` | src/main/cpp/it/d4np/util/logger.cpp:345-361 | issues the next ticket with its marker, or returns at once when stopping |
| `LoggerObject.Monitor.Stop` | src/main/cpp/it/d4np/util/logger.cpp:333-337 | marks the logger stopping |
| `LoggerObject.Monitor.Take` | src/main/cpp/it/d4np/util/logger.cpp:392-400 | the pump parks, leaves its loop, or takes the first item |
| `LoggerObject.Monitor.Complete` | src/main/cpp/it/d4np/util/logger.cpp:404-419 | completes a ticket, or on the way out all of them |
| `LoggerObject.Deliver` | src/main/cpp/it/d4np/util/logger.cpp:423-442 | a failing sink is counted and starves no other sink |
| `ThreadPool.EachTaskStartsOnce` | src/main/cpp/it/d4np/util/thread_pool.hpp:109-209 | every accepted task is queued or has started, never both, and starts at most once |
| `ThreadPool.EachTaskSettlesOnce` | src/main/cpp/it/d4np/util/thread_pool.hpp:115-141 | a task's shared state leaves empty at most once, for a value or an exception, never abandoned |
| `ThreadPool.NoWorkerCrashes` | src/main/cpp/it/d4np/util/thread_pool.hpp:117-128 | storing an outcome never throws out of a task |
| `ThreadPool.DrainedWhenAllReturned` | src/main/cpp/it/d4np/util/thread_pool.hpp:151-209 | when all workers have returned the heap is empty and every accepted task has its outcome |
| `ThreadPool.NoWakeupIsEverLost` | src/main/cpp/it/d4np/util/thread_pool.hpp:129-209 | no worker sleeps on a task without a wake-up on its way |
| `ThreadPool.TakeIsHeadOfStableSort` | src/main/cpp/it/d4np/util/thread_pool.hpp:184-206 | a dequeue takes the head of the stable sort of what is queued |
| `ThreadPool.StartsInStableOrder` | src/main/cpp/it/d4np/util/thread_pool.hpp:184-209 | without new submissions tasks start in the stable sort of submission order by priority, however workers interleave |
| `ThreadPool.ReachableInv` | src/main/cpp/it/d4np/util/thread_pool.hpp:109-209 | every run keeps the invariants of tasks, workers and wake-ups |
| `ThreadPoolOutcomes.OutcomeIsWhatTheTaskCameTo` | src/main/cpp/it/d4np/util/thread_pool.hpp:117-127 | in every run a settled task's shared state is a value if and only if the task returned, and that value; an exception if and only if it threw, and that one |
| `ThreadPoolOutcomes.EveryOutcomeIsDelivered` | src/main/cpp/it/d4np/util/thread_pool.hpp:117-209 | when all workers have returned that is so of every accepted task |
| `ThreadPoolOutcomes.SubmitAnswers` | src/main/cpp/it/d4np/util/thread_pool.hpp:129-141 | a submission is refused when stopping, and otherwise queues its own task with the next sequence number |
| `ThreadPoolOutcomes.ShutdownAnswers` | src/main/cpp/it/d4np/util/thread_pool.hpp:153-164 | a shutdown stops admissions, wakes every worker, and comes back exactly when all have returned |
| `ThreadPoolOutcomes.WorkerTakes` | src/main/cpp/it/d4np/util/thread_pool.hpp:194-206 | a worker takes the queued task of highest priority, the earliest among equals; on an empty queue it sleeps or, when stopping, returns |
| `ThreadPoolOutcomes.WorkerGoesOn` | src/main/cpp/it/d4np/util/thread_pool.hpp:207-208 | it runs what it took, stores what that came to, drops the promise and looks again |
| `ThreadPoolOutcomes.RunTask` | src/main/cpp/it/d4np/util/thread_pool.hpp:117-128 | the wrapper round a task stores exactly what the task came to, once |
| `ThreadPool.Monitor.Submit` | src/main/cpp/it/d4np/util/thread_pool.hpp:129-141 | queues the task with the next sequence number, or refuses once stopping |
| `ThreadPool.Monitor.Stop` | src/main/cpp/it/d4np/util/thread_pool.hpp:153-157 | marks the pool stopping |
| `ThreadPool.Monitor.Take` | src/main/cpp/it/d4np/util/thread_pool.hpp:194-206 | parks, returns, or takes the one task that runs before all others |
| `PriorityHeap.Heap.Push` | src/main/cpp/it/d4np/util/thread_pool.hpp:134-138 | the sift-up keeps the heap order and adds exactly the task |
| `PriorityHeap.Heap.Pop` | src/main/cpp/it/d4np/util/thread_pool.hpp:203-205 | the sift-down keeps the heap order and removes a task that runs first |
| `PriorityHeap.Heap.Drain` | src/main/cpp/it/d4np/util/thread_pool.hpp:197-205 | popping until empty gives an ordered rearrangement of what was in the heap |
| `PriorityHeap.HeapRunsFirst` | src/main/cpp/it/d4np/util/thread_pool.hpp:182-189 | the top of a heap runs before every other task |
| `PriorityHeap.FirstIsUnique` | src/main/cpp/it/d4np/util/thread_pool.hpp:184-189 | with distinct sequence numbers only one task runs first |
| `PriorityHeap.OrderIsUnique` | src/main/cpp/it/d4np/util/thread_pool.hpp:184-189 | there is one order in which tasks can be run |
| `PriorityHeap.StableSortInOrder` | src/main/cpp/it/d4np/util/thread_pool.hpp:106-108 | the stable sort by priority, defined by insertion, is such an order |
| `PriorityHeap.InOrderMeans` | src/main/cpp/it/d4np/util/thread_pool.hpp:182-189 | that order is by higher priority, then earlier submission |
| `PriorityHeap.DrainIsStableSort` | src/main/cpp/it/d4np/util/thread_pool.hpp:106-108 | so a drain runs tasks in the stable sort of submission order by priority |
| `TaskFuture.FirstWriteDecides` | src/main/cpp/it/d4np/util/task_future.hpp:50-82 | over any run of set and abandon the first one decides for good |
| `TaskFuture.SharedTaskState.SetValue` | src/main/cpp/it/d4np/util/task_future.hpp:50-57 | takes effect and succeeds exactly on an empty state |
| `TaskFuture.SharedTaskState.SetException` | src/main/cpp/it/d4np/util/task_future.hpp:59-66 | takes effect and succeeds exactly on an empty state |
| `TaskFuture.SharedTaskState.Abandon` | src/main/cpp/it/d4np/util/task_future.hpp:70-82 | marks an empty state and leaves any other alone |
| `TaskFuture.Future.Get` | src/main/cpp/it/d4np/util/task_future.hpp:189-195 | delivers the value, the exception or the broken promise, and the future is spent |
| `TaskFuture.Promise.GetFuture` | src/main/cpp/it/d4np/util/task_future.hpp:241-248 | one future, none on a second call or after a move |
| `TaskFuture.Promise.SetValue` | src/main/cpp/it/d4np/util/task_future.hpp:254-256 | as the shared state; refused after a move |
| `TaskFuture.Promise.SetException` | src/main/cpp/it/d4np/util/task_future.hpp:269-274 | as the shared state; a null error is refused |
| `TaskFuture.Promise.MoveAssign` | src/main/cpp/it/d4np/util/task_future.hpp:228-235 | abandons what was owned and unsatisfied, then takes over the other promise; nothing on self-assignment |
| `TaskFuture.Promise.Destroy` | src/main/cpp/it/d4np/util/task_future.hpp:237-237 | abandons an unsatisfied state |
| `CliNormal.NormalFormParsesAlike` | src/main/cpp/it/d4np/util/cli_parser.hpp:281-573 | for every argv the parse of its normal form has the same result code and leaves the same bound values |
| `CliNormal.NormaliseSays` | src/main/cpp/it/d4np/util/cli_parser.hpp:281-323 | because the normal form spells the same commands |
| `CliNormal.NormaliseIsNormal` | src/main/cpp/it/d4np/util/cli_parser.hpp:201-205 | the result is a normal form for every argv: up to `--` or a token that stops the line, no cluster can be split, no value is glued to its letter, no long value option carries its value |
| `CliNormal.NormalIsFixed` | src/main/cpp/it/d4np/util/cli_parser.hpp:201-205 | a line already in normal form is left alone |
| `CliNormal.NormalIffFixed` | src/main/cpp/it/d4np/util/cli_parser.hpp:201-205 | the normal lines are exactly those left alone |
| `CliNormal.NormaliseTwice` | src/main/cpp/it/d4np/util/cli_parser.hpp:201-205 | so normalising twice is normalising once |
| `CliNormal.SplitIsHarmlessIff` | src/main/cpp/it/d4np/util/cli_parser.hpp:203-203 | for any flags, argv and grammar, `-ab` spells the same commands as `-a -b` if and only if the second part does not start with '-' |
| `CliNormal.SplitIsHarmless` | src/main/cpp/it/d4np/util/cli_parser.hpp:203-203 | where it does not, the split is harmless whatever the second part is, value letters and unknown ones included |
| `CliNormal.SplitAtDashIsNot` | src/main/cpp/it/d4np/util/cli_parser.hpp:295-309 | a witness: cut off before a registered '-' flag, a cluster turns into the end-of-options mark |
| `CliForms.LongValueForms` | src/main/cpp/it/d4np/util/cli_parser.hpp:448-489 | `--name value` and `--name=value` give the option that value; without one it is an error |
| `CliForms.LongFlagForms` | src/main/cpp/it/d4np/util/cli_parser.hpp:468-476 | `--name` sets a flag; with a value it is an error |
| `CliForms.LongStops` | src/main/cpp/it/d4np/util/cli_parser.hpp:458-466 | an unknown long name is an error, and help stops the line with a value or without |
| `CliForms.ShortValueForms` | src/main/cpp/it/d4np/util/cli_parser.hpp:515-527 | `-n value`, `-n=value` and `-nvalue` give the option that value, the equals sign dropped; without one it is an error |
| `CliForms.ClusterValueForms` | src/main/cpp/it/d4np/util/cli_parser.hpp:494-527 | and behind any flags in a cluster |
| `CliForms.ShortFlagForms` | src/main/cpp/it/d4np/util/cli_parser.hpp:494-513 | flags combine; an unknown letter is an error and help stops the line |
| `CliForms.PositionalForms` | src/main/cpp/it/d4np/util/cli_parser.hpp:295-316 | everything else is positional: no leading dash, a dash alone, anything after `--` |
| `CliParser.SuccessMeans` | src/main/cpp/it/d4np/util/cli_parser.hpp:207-211 | a parse succeeds if and only if nothing stops it, every value converts, every positional has room and everything required is given; then each bound variable holds its last given value or its prior one; only a line acceptable in itself is reported to lack something required |
| `CliParser.FailureKeepsPrefix` | src/main/cpp/it/d4np/util/cli_parser.hpp:207-211 | a failed parse has carried out exactly the commands before the one that failed, and that one decides the error code |
| `CliParser.DoAllMeans` | src/main/cpp/it/d4np/util/cli_parser.hpp:478-573 | the outcome and the state after any list of commands, from the list alone |
| `CliParser.CliParser.Parse` | src/main/cpp/it/d4np/util/cli_parser.hpp:281-323 | for any tokens and any prior values the loop has the outcome of the commands the tokens spell, starting from a clean seen-state |
| `CliParser.CliParser.ParseToken` | src/main/cpp/it/d4np/util/cli_parser.hpp:300-319 | one round of the loop carries out the commands of its token |
| `CliParser.CliParser.ParseLong` | src/main/cpp/it/d4np/util/cli_parser.hpp:448-489 | `--name`, `--name=value` and `--name value`, with every error |
| `CliParser.CliParser.ParseShort` | src/main/cpp/it/d4np/util/cli_parser.hpp:493-530 | clusters letter by letter, with glued, `=` and separate values and every error |
| `CliParser.CliParser.FindLong` | src/main/cpp/it/d4np/util/cli_parser.hpp:420-427 | the first option with that long name |
| `CliParser.CliParser.FindShort` | src/main/cpp/it/d4np/util/cli_parser.hpp:429-436 | the first option with that letter |
| `CliParser.CliParser.MarkFlag` | src/main/cpp/it/d4np/util/cli_parser.hpp:473-475 | sets the variable and the seen mark of one option |
| `CliParser.CliParser.AssignOption` | src/main/cpp/it/d4np/util/cli_parser.hpp:533-540 | stores and marks if the text converts; changes nothing otherwise |
| `CliParser.CliParser.ConsumePositional` | src/main/cpp/it/d4np/util/cli_parser.hpp:543-556 | fills the next positional; overflow and conversion errors |
| `CliParser.CliParser.CheckRequired` | src/main/cpp/it/d4np/util/cli_parser.hpp:559-573 | fails exactly when something required was not seen |
| `FlatMapBuild.ConstructionsAgree` | src/main/cpp/it/d4np/util/flat_map.hpp:183-198 | for every strict weak order, input and stable sort, both constructions yield the identical vector |
| `FlatMapBuild.BuildByInsertion` | src/main/cpp/it/d4np/util/flat_map.hpp:184-187 | repeated insertion gives a sorted vector that answers as a scan of the input |
| `FlatMapBuild.BuildBySorting` | src/main/cpp/it/d4np/util/flat_map.hpp:188-197 | stable sort, then unique, gives one too |
| `FlatMapBuild.StableSort` | src/main/cpp/it/d4np/util/flat_map.hpp:189-192 | an insertion sort keeps the promise of `std::stable_sort` |
| `FlatMapBuild.StableSortKeepsLookup` | src/main/cpp/it/d4np/util/flat_map.hpp:190-192 | a stable sort does not change what a scan finds |
| `FlatMapBuild.UniqueKeepsLookup` | src/main/cpp/it/d4np/util/flat_map.hpp:193-196 | nor does dropping later equivalents of a sorted vector |
| `FlatMapBuild.UniqueIsSorted` | src/main/cpp/it/d4np/util/flat_map.hpp:193-196 | which leaves it strictly sorted |
| `FlatMapBuild.RunAll` | src/main/cpp/it/d4np/util/flat_map.hpp:107-152 | after any run of insert, `operator[]` and erase lookups agree with an unsorted list searched linearly |
| `FlatMapBuild.NaiveLookup` | src/main/cpp/it/d4np/util/flat_map.hpp:107-152 | what such a list finds after each operation |
| `FlatMap.LookupDetermines` | src/main/cpp/it/d4np/util/flat_map.hpp:89-105 | two strictly sorted vectors that answer alike are equal |
| `FlatMap.LowerBoundFinds` | src/main/cpp/it/d4np/util/flat_map.hpp:95-101 | the test after the lower bound finds what a scan finds |
| `FlatMap.InsertLookup` | src/main/cpp/it/d4np/util/flat_map.hpp:175-181 | what is found after inserting at the lower bound |
| `FlatMap.RemoveLookup` | src/main/cpp/it/d4np/util/flat_map.hpp:144-151 | what is found after erasing an entry |
| `FlatMap.FlatMap.LowerBound` | src/main/cpp/it/d4np/util/flat_map.hpp:89-91 | the binary search parts the vector at the key |
| `FlatMap.FlatMap.UpperBound` | src/main/cpp/it/d4np/util/flat_map.hpp:92-94 | the first entry above the key |
| `FlatMap.FlatMap.Find` | src/main/cpp/it/d4np/util/flat_map.hpp:95-101 | the position a scan finds, or the end |
| `FlatMap.FlatMap.At` | src/main/cpp/it/d4np/util/flat_map.hpp:108-121 | the entry a scan finds, or out of range |
| `FlatMap.FlatMap.Insert` | src/main/cpp/it/d4np/util/flat_map.hpp:175-181 | inserts exactly when absent; an existing entry stays |
| `FlatMap.FlatMap.Index` | src/main/cpp/it/d4np/util/flat_map.hpp:124-130 | finds the entry or adds a default one |
| `FlatMap.FlatMap.Assign` | src/main/cpp/it/d4np/util/flat_map.hpp:124-130 | assignment through `operator[]` |
| `FlatMap.FlatMap.Erase` | src/main/cpp/it/d4np/util/flat_map.hpp:144-151 | removes the key's entry, if any, and no other |
| `StringFormatter.CheckFormatString` | src/main/cpp/it/d4np/util/string_formatter.hpp:50-80 | accepts exactly the texts that spell literals and placeholders with the right number of placeholders, and names the first error of the others |
| `StringFormatter.VerdictNamesTheBrace` | src/main/cpp/it/d4np/util/string_formatter.hpp:54-79 | an error names an unterminated or a stray brace exactly when sound text leads up to one, and a mismatch exactly when the text is sound for another number |
| `StringFormatter.SoundIffSpelled` | src/main/cpp/it/d4np/util/string_formatter.hpp:50-80 | soundness of a text and being such a spelling are the same |
| `StringFormatter.SpelledIsRead` | src/main/cpp/it/d4np/util/string_formatter.hpp:47-80 | every spelling is read back |
| `StringFormatter.ReadIsSpelled` | src/main/cpp/it/d4np/util/string_formatter.hpp:47-80 | everything read is a spelling |
| `StringFormatter.AdvanceToPlaceholder` | src/main/cpp/it/d4np/util/string_formatter.hpp:182-204 | on a sound text never indexes past it; appends the literals before the next placeholder and leaves what follows it |
| `StringFormatter.AppendSegment` | src/main/cpp/it/d4np/util/string_formatter.hpp:207-211 | one argument takes one placeholder |
| `StringFormatter.FormatTo` | src/main/cpp/it/d4np/util/string_formatter.hpp:245-250 | on an accepted text every argument consumes one placeholder, the trailing call finds none, and the output is the literals interleaved with the arguments |
| `StringFormatter.Format` | src/main/cpp/it/d4np/util/string_formatter.hpp:235-240 | from an empty builder, exactly that rendering |
| `StringFormatter.DoubledRendersBack` | src/main/cpp/it/d4np/util/string_formatter.hpp:217-222 | any text, its braces doubled, is a sound format text that renders back to it |
| `FileStream.Serve` | src/main/cpp/it/d4np/util/file_stream.cpp:263-322 | any mix of `read` and `read_line` on a fault-free system of arbitrary short transfers and any buffer size gives the answers the file alone determines |
| `FileStream.NothingSkipped` | src/main/cpp/it/d4np/util/file_stream.cpp:263-322 | those answers take the bytes of the file in order, none skipped and none twice |
| `FileStream.ReadLines` | src/main/cpp/it/d4np/util/file_stream.cpp:287-322 | reading to the end gives the LF split with one CR dropped before each LF |
| `FileStream.JoinedLines` | src/main/cpp/it/d4np/util/file_stream.cpp:306-321 | lines written with any mix of LF and CRLF, and an unterminated rest, are the lines read; a line under CRLF keeps any CR of its own |
| `FileStream.WriteAndClose` | src/main/cpp/it/d4np/util/file_stream.cpp:324-382 | blocks of any sizes, then close: success if and only if there was no fault, and then the system has exactly their join |
| `FileStream.FileStream.constructor` | src/main/cpp/it/d4np/util/file_stream.cpp:218-230 | a failure to open leaves a closed stream with the error |
| `FileStream.FileStream.FillBuffer` | src/main/cpp/it/d4np/util/file_stream.cpp:232-247 | the reader's remaining bytes are unchanged; a byte, the end or an error |
| `FileStream.FileStream.FlushBuffer` | src/main/cpp/it/d4np/util/file_stream.cpp:249-261 | hands everything pending on, or keeps the buffer and records the error |
| `FileStream.FileStream.ReadInto` | src/main/cpp/it/d4np/util/file_stream.cpp:263-285 | all that fits or remains without a fault, a prefix with one; closed and wrong-mode streams |
| `FileStream.FileStream.ReadBlock` | src/main/cpp/it/d4np/util/file_stream.cpp:270-284 | the loop of `read`, to the byte |
| `FileStream.FileStream.ReadLine` | src/main/cpp/it/d4np/util/file_stream.cpp:287-322 | the next line; end, error, closed and wrong mode |
| `FileStream.FileStream.ReadOneLine` | src/main/cpp/it/d4np/util/file_stream.cpp:294-321 | a line folded, an unterminated rest, the end or an error, to the byte |
| `FileStream.FileStream.CollectLine` | src/main/cpp/it/d4np/util/file_stream.cpp:295-314 | the loop of `read_line`: everything up to a line feed, the end or a fault |
| `FileStream.FileStream.WriteBytes` | src/main/cpp/it/d4np/util/file_stream.cpp:324-351 | written bytes followed by pending bytes grow by exactly the block; on a fault a proper part went out |
| `FileStream.FileStream.WriteLarge` | src/main/cpp/it/d4np/util/file_stream.cpp:331-342 | a block as long as the buffer bypasses it, in order |
| `FileStream.FileStream.WriteSmall` | src/main/cpp/it/d4np/util/file_stream.cpp:343-350 | a shorter one is buffered, after a flush where it does not fit |
| `FileStream.FileStream.Flush` | src/main/cpp/it/d4np/util/file_stream.cpp:355-363 | nothing stays pending; nothing to do for a reader |
| `FileStream.FileStream.Close` | src/main/cpp/it/d4np/util/file_stream.cpp:365-382 | flushes once; closing again is harmless |
| `FileStream.Os.ReadSome` | src/main/cpp/it/d4np/util/file_stream.cpp:146-158 | interrupted reads are repeated |
| `FileStream.Os.WriteAll` | src/main/cpp/it/d4np/util/file_stream.cpp:160-175 | everything, however little each call takes, or a proper part and an error |
| `HashMixing.OneBlockNeverCollides` | src/main/cpp/it/d4np/util/hash.hpp:45-92 | inputs of one length that differ only inside one aligned block of four bytes, or only inside the tail, never collide, for any seed |
| `HashMixing.SeedsNeverCollide` | src/main/cpp/it/d4np/util/hash.hpp:45-92 | different seeds give one input different hashes |
| `HashMixing.BodyOneToOne` | src/main/cpp/it/d4np/util/hash.hpp:54-63 | the block loop is one-to-one in the seed and in any one block |
| `HashMixing.MixOneToOne` | src/main/cpp/it/d4np/util/hash.hpp:56-62 | a block step is one-to-one in the state and in the block |
| `HashMixing.ScrambleUndone` | src/main/cpp/it/d4np/util/hash.hpp:57-59 | multiply, rotate, multiply is undone by the inverses modulo 2^32 |
| `HashMixing.StirUndone` | src/main/cpp/it/d4np/util/hash.hpp:61-62 | so is rotate, multiply and add |
| `HashMixing.FinishUndone` | src/main/cpp/it/d4np/util/hash.hpp:86-90 | so is the finaliser |
| `HashMixing.TailOneToOne` | src/main/cpp/it/d4np/util/hash.hpp:65-79 | the tail word tells the tail |
| `HashMixing.Fnv32OneByte` | src/main/cpp/it/d4np/util/hash.hpp:35-42 | 32-bit FNV-1a: inputs of one length that differ in one byte never collide |
| `HashMixing.Fnv64OneByte` | src/main/cpp/it/d4np/util/hash.hpp:25-32 | 64-bit FNV-1a: the same |
| `HashVectors.WordIsNumber` | src/main/cpp/it/d4np/util/hash.hpp:52-56 | a block is the number whose base-2^8 digits are its bytes, the first least |
| `HashVectors.TailWordIsNumber` | src/main/cpp/it/d4np/util/hash.hpp:65-75 | and so is a tail |
| `HashVectors.FnvVectors` | src/main/cpp/it/d4np/util/hash.hpp:25-42 | published values of FNV-1a |
| `HashVectors.MurmurOfHello` | src/main/cpp/it/d4np/util/hash.hpp:45-92 | the published value for a block and a tail |
| `HashVectors.MurmurOfAbc` | src/main/cpp/it/d4np/util/hash.hpp:45-92 | the published value for a tail of three |
| `HashVectors.MurmurOfNothing` | src/main/cpp/it/d4np/util/hash.hpp:45-92 | and for nothing, with and without a seed |
| `HashMixing.Murmur3X86` | src/main/cpp/it/d4np/util/hash.hpp:45-92 | the loop and its falling-through tail compute the hash the theorems are about |
| `HashMixing.MixTail` | src/main/cpp/it/d4np/util/hash.hpp:65-83 | the cases of the tail, each falling through to the next |
| `HashMixing.Fnv1a32` | src/main/cpp/it/d4np/util/hash.hpp:35-42 | the loop computes the fold |
| `HashMixing.Fnv1a64` | src/main/cpp/it/d4np/util/hash.hpp:25-32 | the loop computes the fold |
| `Sha256Padding.PaddedIsStandard` | src/main/cpp/it/d4np/util/hash.hpp:119-141 | the padded bytes are, bit for bit, the padding of section 5.1.1 of FIPS 180-4, with its least number of zeros, for lengths below 2^61 |
| `Sha256Padding.PaddedAtIs` | src/main/cpp/it/d4np/util/hash.hpp:129-141 | `padded` is the byte of the materialised padding at every index |
| `Sha256Padding.CountTotal` | src/main/cpp/it/d4np/util/hash.hpp:121-125 | the counting loop finds the least multiple of 64 that is at least len + 9 |
| `Sha256Padding.PaddingIsOneToOne` | src/main/cpp/it/d4np/util/hash.hpp:119-141 | no two messages, up to the largest size an object can have, pad to the same bytes |
| `Sha256.Sha256` | src/main/cpp/it/d4np/util/hash.hpp:115-200 | the program's loops compute section 6.2.2 of FIPS 180-4 over the padded message |
| `Sha256.AddBlock` | src/main/cpp/it/d4np/util/hash.hpp:143-190 | one round of the block loop is one application of the compression function |
| `Sha256.LoadBlock` | src/main/cpp/it/d4np/util/hash.hpp:144-149 | sixteen big-endian words from bytes computed on demand |
| `Sha256.ExtendSchedule` | src/main/cpp/it/d4np/util/hash.hpp:150-154 | the schedule filled in place is the recurrence W(t) |
| `Sha256.RunRounds` | src/main/cpp/it/d4np/util/hash.hpp:156-180 | the eight variables that move along are the 64 rounds |
| `Sha256.WriteDigest` | src/main/cpp/it/d4np/util/hash.hpp:192-198 | the digest is the hash words in big-endian bytes |
| `Sha256Constants.RoundConstants` | src/main/cpp/it/d4np/util/hash.hpp:96-104 | each round constant is the first 32 bits of the fraction of the cube root of its prime |
| `Sha256Constants.StartConstants` | src/main/cpp/it/d4np/util/hash.hpp:116-117 | each word of the first hash value is those of a square root |
| `Sha256Constants.SigmasOfTopBit` | src/main/cpp/it/d4np/util/hash.hpp:151-169 | a bit goes where the rotations of section 4.1.2 of FIPS 180-4 send it, or falls off a shift |
| `Sha256Constants.SigmasOfLowBit` | src/main/cpp/it/d4np/util/hash.hpp:151-169 | the same round the corner |
| `Sha256Constants.ChChooses` | src/main/cpp/it/d4np/util/hash.hpp:167-167 | the first argument chooses between the others |
| `Sha256Constants.MajIsMajority` | src/main/cpp/it/d4np/util/hash.hpp:170-170 | two arguments that agree outvote the third |
| `Sha256Constants.WordIsNumber` | src/main/cpp/it/d4np/util/hash.hpp:146-148 | a message word is the number whose base-2^8 digits are its bytes, the first most |
| `Sha256Constants.WordBytesAreDigits` | src/main/cpp/it/d4np/util/hash.hpp:192-198 | and the digest's bytes are such digits of the hash words |

## Left out

- LockFreeQueueTheorems.NothingLostOrInvented: assumes that a stale ticket lags by at most 2^63 - capacity, the most at which every gap fits a signed word, and that atomic accesses are sequentially consistent; the argument for the memory orders in `docs/adr/0016-lock-free-queue-bounded-vyukov-mpmc.md` is a separate one.
- LockFreeQueueTheorems.ReturnedIsPrefixOfPushed: the same two assumptions hold for every theorem over runs of the queue.
- LockFreeQueueRing.Ring.TryPush: the retry loop as one method runs with no other thread moving; with others moving it is the machine, access by access.
- LockFreeQueueRing.Ring.TryPop: as above.
- ReaderWriterLock.Monitor.UnlockShared: requires a reader to hold the lock, as the documentation does of its callers; `Unlock` likewise requires a writer.
- FileStream.FileStream.ReadInto: after a fault only a prefix is promised, as in the code, and a fault between two transfers can lose the part of a line already collected; the exact theorems are for calls without a fault.
- FileStream.FileStream.FlushBuffer: a failed flush keeps the whole buffer although a part of it went out, as in the code; no theorem covers a retry after that.
- FileStream.Os.WriteAll: assumes that a write of at least one byte that does not fail makes progress, and that a call is interrupted finitely often.
- ThreadPool.EachTaskSettlesOnce: assumes that tasks terminate and that storing an outcome does not itself throw; values and exceptions are numbers, and a task that submits is modelled as one more client.
- Liveness: fairness of schedulers, clocks and durations. Time is a wake-up that may come at any moment, and progress is stated as wake-ups that are never lost.
- Mutexes and condition variables themselves: a critical section is one step.
- Logger sinks: line rendering, thread ids, rotation and console output; a sink is something that takes a line or throws, and the refusals of `flush` and of a blocking `log` called from a sink are not errors here but steps that change nothing.
- TaskFuture waiting: `wait`, `wait_for`, `wait_until` and `ready` are not modelled; `Future.Get` is the call once its wait is over.
- CliParser texts: help, messages and the guards of registration; a result keeps its code. Conversions are a predicate on texts, and targets are distinct. The front end that skips `argv[0]` is left out.
- JSON numbers: `to_number` converts with the C++ library. Messages of errors are left out; offsets are kept.
- StringFormatter arguments: an argument is the text it renders to; integers and floating point are rendered by the C++ library.
- FlatMap iterators, capacity and comparison operators, and `erase` by position.
- FileStream: opening files, moving streams, and the Windows branch of the system calls.
- SHA-256: that the 64 primes are the first 64 is read off their list; `sha256_hex` is a table look-up per digit.
- Easier members of families already covered: FlatSet, Semaphore, CircularBuffer, ObjectPool, StackAllocator, HeapArray, UniqueRef, StringBuilder, StringSplitter, BinarySerializer, Stopwatch, version and type traits.
- Sockets, servers, stack traces, benchmarks, fuzz harnesses and tools: input and output, or scripts.
