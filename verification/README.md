# A verified model of the proxy's protocol cores

This project models the stateful cores of the LLM reverse proxy in Dafny and proves what they
promise, for every input, every run and every interleaving. Verify it with
`dafny verify dfyconfig.toml`.

The parts, from the hardest down:

| files | what they model |
|---|---|
| `Bytes`, `Xor`, `Crc32`, `Polynomials`, `CrcRemainders`, `Utf8`, `Segments`, `Headers`, `Frames`, `Decoder`, `Refusals` | the streaming decoder of Amazon event stream frames: CRC-32 (section 8 of RFC 1952) computed bit by bit and proved to be the remainder it is meant to be, strict UTF-8 (section 4 of RFC 3629) to UTF-16 (section 2.1 of RFC 2781), ten header value types, an iterator over byte segments, and its relation to one flat parser |
| `LockSteps`, `SlotLocks` | per-slot FIFO ticket locks with abandonment: the steps on values, and the classes that carry them out on linked objects |
| `SlotStore` | the authoritative key store (value and mark in one transaction, merge of buffered writes) and the write buffer of one execution |
| `Sessions`, `SharedSlots`, `Readings`, `Progress`, `HeldTables` | handler executions that share the locks and the store, every interleaving of their mutex sections, table updates and transactions; what a slot holds and what is read from it, by the history of the run; how executions come to their end; and the table of tickets of one execution |
| `Replies`, `ReplyHistories` | the reply state machine of an execution and the ways it ends |
| `Budgets`, `Pools`, `Borrowings`, `Lendings`, `Closings`, `InstancePools` | script instances lent by pools under a process-wide budget, every interleaving of borrowers, returners and closers; when a borrower is served; how often an instance is lent; what a closed pool owns; and the classes that carry out whole runs |
| `Text`, `PackagePaths`, `Modules` | finding and loading the modules of a package: path cleaning, cache, evaluation stack |
| `Sources`, `Deadlines`, `BodyCloses`, `OutboundSources` | an outbound response: single consumption, deadlines, one terminal error; how often its body is closed, by `close()` and by the goroutine that reads frames; and the class that carries out whole runs |
| `Paths`, `PathTexts` | reading, writing and merging nested values along parsed paths |
| `Rotations`, `Registries` | the index of model groups and members, name resolution, and round-robin selection |
| `ServerEvents`, `WireEvents` | printing and scanning server-sent events (section 9.2.6 of the WHATWG HTML standard, except that the scanner also emits a pending frame at the end of the input) |
| `EvictGates` | the token bucket in front of plugin evictions |

Concurrent parts are state machines: a step is one mutex section, one channel or wait-group
operation, one table update or one transaction, and a run is any sequence of possible steps.
The classes next to them update fields in place, and each of their methods is proved to do
exactly the corresponding step; `RunTable` and `Replay` drive them through whole runs.

## Where the code does less than one might expect

The proofs follow the code. In these places a plausible promise fails, and the exact condition
is proved instead:

- A handler does not see its own buffered deletion of a value that is still stored
  (`SlotStore.HandlerGetMisses`, `SlotStore.HandlerGetExample`).
- Before the first write under the lock, a merge by another execution can change a slot under
  its holder (`SharedSlots.Interference`, `SharedSlots.RacingExample`); once the slot is marked
  this is impossible.
- An execution can report success without any answer when it commits to JSON and swallows the
  failure (`Replies.SilentSuccess`, `Replies.SilentSuccessExample`), and can report failure after
  ending a stream that it never opened (`Replies.AnsweredFailure`,
  `Replies.AnsweredFailureExample`). Stream frames can be written without a successful start
  (`Replies.UnopenedStream`, `Replies.UnopenedStreamExample`).
- A module's `require` yields what was handed over last, which is the wrong module when a cached
  file is required after another one was loaded (`Modules.HooksEnv.Require`,
  `Modules.RightIff`, `Modules.RequireExample`).
- When a pool is closed twice at the same time, one Close can return while the other still
  destroys an instance (`Closings.ClosedOwns`, `Closings.ClosedTwiceExample`); a pool that is
  closed once owns nothing ever again (`Closings.ClosedOnce`).
- The body of a response can be closed twice: `close()` does so at most once, and so does the
  goroutine that reads frames (`internal/transport/stream.go:69-75`), without knowing of each
  other. A reading of frames that comes to its end has always closed the body twice
  (`BodyCloses.EndClosesTwice`, `BodyCloses.TwiceExample`), and the body stays closed at most
  once, whatever happens later, exactly when that goroutine is not started and cannot be any
  more (`BodyCloses.OnceIff`).
- A source that was closed without dying reports a failure from every later call, not once
  (`Sources.AfterFailure`, `Sources.FailsAgainExample`).
- Writing along a path replaces a container of the other kind (`Paths.SetReplaces`,
  `Paths.SetReplacesExample`), and a negative index stops the write half way
  (`Paths.SetNegative`, `Paths.SetNegativeExample`).
- A 64-bit counter keeps the rotation going across its wrap only when the number of candidates
  divides 2^64 (`Rotations.WrapGoesOn`, `Rotations.WrapRepeats`, `Rotations.RotateMany`).
- The comment at `internal/upstream/registry.go:672` calls an overflow of the poll counter
  harmless. From 2^63 on the signed index is negative, and a pick panics unless the number of
  groups divides what is left to 2^64 (`Registries.Registry.Pick`); of any two consecutive picks
  at least one does (`Registries.UpperHalfPanics`).
- A frame survives printing and scanning exactly when it is clean
  (`ServerEvents.SurvivesIff`, `ServerEvents.MultiLineExample`).
- The comment at `internal/plugin/storagetx.go:15` says that a buffer without a base refuses
  writes; the code buffers them, and the model follows the code.

## Model

| member | source | states |
|---|---|---|
| Segments.Crc32Of | internal/plugin/jshelper/eventstream.js:2-13 | the checksum over a list of segments is the flat checksum of the first `length` bytes of their concatenation, however they are cut |
| CrcRemainders.ChecksumIff | internal/plugin/jshelper/eventstream.js:2-13 | a number is the checksum of a message if and only if, reversed and complemented, it is the remainder over the field of two elements of the bit-reflected message, its first 32 bits complemented, divided by the polynomial with exponents 32, 26, 23, 22, 16, 12, 11, 10, 8, 7, 5, 4, 2, 1, 0 |
| Segments.FeedByte | internal/plugin/jshelper/eventstream.js:7-8 | the eight shift steps of one byte compute the register update |
| Segments.ReadU32 | internal/plugin/jshelper/eventstream.js:15-17 | four bytes across segment borders read as one big-endian number, or the frame is truncated, and never anything else |
| Segments.ByteAt | internal/plugin/jshelper/eventstream.js:19-25 | the byte at an offset of the concatenation, or truncated exactly past its end |
| Segments.CopyRange | internal/plugin/jshelper/eventstream.js:27-43 | a range of the concatenation, or truncated exactly when it does not fit; the empty range always succeeds |
| Crc32.RegisterInjective | internal/plugin/jshelper/eventstream.js:2-13 | feeding any bytes is a bijection of the register: different registers stay different |
| Crc32.BurstDetected | internal/plugin/jshelper/eventstream.js:2-13 | two texts that differ only within at most four adjacent bytes have different checksums, whatever surrounds them |
| Polynomials.RemainderUnique | internal/plugin/jshelper/eventstream.js:2-13 | there is one such remainder only |
| Utf8.DecodeUtf8 | internal/plugin/jshelper/eventstream.js:45-70 | the decoding loop computes the character-wise decoding, error cases included |
| Utf8.NextPoint | internal/plugin/jshelper/eventstream.js:48-62 | one round of the loop accepts exactly one character of the RFC 3629 grammar and yields its code point |
| Utf8.DecodeAccepts | internal/plugin/jshelper/eventstream.js:45-70 | decoding succeeds if and only if the bytes are a sequence of characters of the RFC 3629 grammar |
| Utf8.DecodeInverse | internal/plugin/jshelper/eventstream.js:45-70 | the UTF-16 that comes out encodes back to the same bytes, for inputs of any length |
| Utf8.EncodeInverse | internal/plugin/jshelper/eventstream.js:45-70 | every well-formed UTF-16 text is decoded from its encoding |
| Utf8.DecodeInjective | internal/plugin/jshelper/eventstream.js:45-70 | different accepted byte strings give different texts, so header names cannot be confused |
| Utf8.Examples | internal/plugin/jshelper/eventstream.js:45-70 | the examples of RFC 3629 and RFC 2781 |
| Headers.DecodeHeaders | internal/plugin/jshelper/eventstream.js:72-118 | the header loop computes the flat header decoding, duplicate names refused |
| Headers.ReadHeader | internal/plugin/jshelper/eventstream.js:76-80 | one name and value from a position, consuming exactly what the flat decoding consumes, or its error |
| Headers.ReadValue | internal/plugin/jshelper/eventstream.js:81-113 | the ten value types with their bounds checks; unknown types refused |
| Headers.ReadUnsigned | internal/plugin/runtime.go:457-466 | a big-endian number of the given width, or truncated |
| Headers.ReadSigned | internal/plugin/runtime.go:457-466 | the two's complement reading of the same bytes |
| Headers.EncodeDecodeFrom | internal/plugin/jshelper/eventstream.js:72-118 | any well-formed header list with distinct names, encoded and decoded, comes back with order and types |
| Headers.DecodeEncodeFrom | internal/plugin/jshelper/eventstream.js:72-118 | any accepted header bytes are exactly the encoding of the list that was decoded, and that list is well-formed |
| Headers.WireForm | internal/plugin/jshelper/eventstream.js:76-113 | the bytes of a header in numbers: length of the name, name, number of the type, big-endian value |
| Headers.ValidIff | internal/plugin/jshelper/eventstream.js:81-113 | which values there are, in numbers: the integer ranges, and lengths from 1 to 32767 |
| Refusals.ValueErrors | internal/plugin/jshelper/eventstream.js:81-113 | which error each wrong value ends in; a number or identifier with enough bytes is never refused |
| Refusals.HeaderErrors | internal/plugin/jshelper/eventstream.js:76-80 | which error each wrong name ends in |
| Refusals.SecondOfAName | internal/plugin/jshelper/eventstream.js:114 | a second header of a name is refused as a duplicate |
| Frames.NextStable | internal/plugin/jshelper/eventstream.js:144-152 | bytes that arrive later never change a decision that was already possible |
| Frames.NextLocal | internal/plugin/jshelper/eventstream.js:144-152 | a frame depends on its own bytes only |
| Frames.RoundTrip | internal/plugin/jshelper/eventstream.js:144-171 | an encoded well-formed frame is decoded to itself, consuming exactly its bytes, whatever follows |
| Frames.Inverse | internal/plugin/jshelper/eventstream.js:144-171 | every accepted frame is well-formed and re-encodes to exactly the bytes that were consumed |
| Frames.WireForm | internal/plugin/jshelper/eventstream.js:144-155 | the bytes of a frame in numbers: lengths, their checksum at 8, headers at 12, payload, checksum in the last four; no other bytes encode it, and the decoder takes them for it |
| Refusals.TruncatedEnd | internal/plugin/jshelper/eventstream.js:174 | input that ends within a frame: the frames before it, and then a truncated frame, or the source's own error |
| Refusals.BadLengths | internal/plugin/jshelper/eventstream.js:148 | impossible lengths under a right checksum are refused as such |
| Frames.EncodeThenParse | internal/plugin/jshelper/eventstream.js:132-174 | a list of well-formed frames, encoded, parses to the list and ends cleanly |
| Frames.ParseThenEncode | internal/plugin/jshelper/eventstream.js:132-174 | if parsing ends cleanly the input is the encoding of what came out |
| Frames.BurstRefused | internal/plugin/jshelper/eventstream.js:147-150 | a change within four adjacent bytes that lies on one side of every checksum border makes the decoder refuse, without yielding the frame |
| Frames.ByteRefused | internal/plugin/jshelper/eventstream.js:147-150 | any single changed byte anywhere in a valid frame, length fields and checksums included, ends in a checksum error |
| Frames.DamageStopsParse | internal/plugin/jshelper/eventstream.js:144-174 | the frames before a damaged one come out, then a checksum error, and nothing else |
| Refusals.DamageKind | internal/plugin/jshelper/eventstream.js:147-150 | a changed byte in the first twelve ends in the prelude checksum error, one behind them in the message checksum error |
| Decoder.Decoder.Next | internal/plugin/jshelper/eventstream.js:190-195 | the next frame of the flat parse of all bytes the source will deliver, or its end, and what is left is the rest of that parse; the source's return() is called once on failure and never on a clean end |
| Decoder.Decoder.Resume | internal/plugin/jshelper/eventstream.js:131-189 | one run of the generator from yield to yield agrees with the flat parse of pending and future bytes |
| Decoder.Decoder.TryFrame | internal/plugin/jshelper/eventstream.js:145-153 | a frame, a refusal or a wait, as the flat parser decides on the bytes at hand |
| Decoder.Decoder.Consume | internal/plugin/jshelper/eventstream.js:154-170 | the segment list afterwards holds exactly the bytes after the frame |
| Decoder.Decoder.Return | internal/plugin/jshelper/eventstream.js:196-204 | stopping early calls the source's return() once while running and never again; only its exception gets out, and the answer carries the given value, the source's own answer before the first next(), or nothing once stopped |
| Decoder.Decoder.Throw | internal/plugin/jshelper/eventstream.js:205-216 | the given error always comes back; an iterator that was never started over a source without return() stays usable, any other is finished |
| Decoder.DecodeAll | internal/plugin/jshelper/eventstream.js:122-221 | for every source, calling next() to the end gives the same frames in the same order and the same end as one flat parse of the concatenation |
| Decoder.DecodeChunks | internal/plugin/jshelper/eventstream.js:122-221 | how bytes are cut into chunks, empty ones included, makes no difference |
| Decoder.DamageInChunks | internal/plugin/jshelper/eventstream.js:122-221 | a damaged byte is detected under every chunking, after exactly the frames before it |
| Decoder.EncodedInChunks | internal/plugin/jshelper/eventstream.js:122-221 | encoded frames come back under every chunking |
| Refusals.FramesThenForeign | internal/plugin/jshelper/eventstream.js:136-140 | frames under any chunking and then a chunk that is no buffer: the frames come out, and then that error |
| LockSteps.AcquireKeeps | internal/plugin/slotlock.go:42-81 | acquiring keeps the lock invariant: one live ticket per slot, queues hold exactly the waiting in arrival order behind an owner, each waiter is one of waiting, granted or abandoned, grants follow arrival |
| LockSteps.AbandonKeeps | internal/plugin/slotlock.go:84-98 | giving up keeps the lock invariant |
| LockSteps.ReleaseKeeps | internal/plugin/slotlock.go:101-119 | releasing keeps the lock invariant, also with a stale ticket |
| LockSteps.AbandonMeaning | internal/plugin/slotlock.go:54-69 | giving up fails exactly when the waiter was already granted, so the blocking receive that follows never hangs |
| LockSteps.ReleaseOnce | internal/plugin/slotlock.go:101-106 | after a release, whatever anybody acquires, abandons or releases in between, every later release with the same ticket changes nothing |
| LockSteps.ReleaseHandsOver | internal/plugin/slotlock.go:107-118 | a release makes the longest waiting the owner, or frees the slot when nobody waits |
| SlotLocks.SlotLocks.Acquire | internal/plugin/slotlock.go:42-81 | the objects after the locked section are those of the value step: a live ticket at once, or a queued waiter |
| SlotLocks.SlotLocks.Abandon | internal/plugin/slotlock.go:84-98 | the object is taken out of the queue and marked, or it has been granted and holds a ticket |
| SlotLocks.SlotLocks.Release | internal/plugin/slotlock.go:101-119 | the objects follow the value step: the ticket is consumed, the head of the queue gets a new one and is granted |
| SlotLocks.SlotLocks.Held | internal/plugin/slotlock.go:122-127 | a slot counts as held exactly when a live ticket for it exists |
| SlotStore.SlotStore.GetAuth | internal/plugin/slotstore.go:30-48 | value and mark of one snapshot, a missing value as the empty text, or failure with neither |
| SlotStore.SlotStore.UnlockWrite | internal/plugin/slotstore.go:69-94 | value and mark land together or nothing changes |
| SlotStore.SlotStore.Delete | internal/plugin/slotstore.go:107-113 | the value goes, the mark stays |
| SlotStore.SlotStore.Merge | internal/plugin/slotstore.go:128-159 | all or nothing in any map order: the store overridden by the writes to unmarked keys, and exactly the marked ones reported, each once |
| SlotStore.StorageTx.Get | internal/plugin/storagetx.go:63-76 | reads the base overridden by the buffer |
| SlotStore.StorageTx.Set | internal/plugin/storagetx.go:78-84 | the view changes at one key |
| SlotStore.StorageTx.Delete | internal/plugin/storagetx.go:86-90 | the view loses one key |
| SlotStore.StorageTx.Snapshot | internal/plugin/storagetx.go:53-61 | a copy of all buffered writes |
| SlotStore.StorageTx.Commit | internal/plugin/storagetx.go:28-43 | the base becomes the view, or some part of the writes has landed when one fails; the buffer is empty either way |
| SlotStore.StorageTx.Drop | internal/plugin/storagetx.go:46-50 | the view is the base again |
| SlotStore.HandlerGetMisses | internal/plugin/handlerctx.go:250-266 | a handler reads its own writes to unmarked keys except, exactly, deletions of values still stored |
| SlotStore.HandlerGetExample | internal/plugin/handlerctx.go:250-266 | such a deletion |
| HeldTables.HeldTable.Register | internal/plugin/handler.go:223-231 | the table after the section is that of the registration step, which a cancelled execution is refused |
| HeldTables.HeldTable.Take | internal/plugin/handler.go:234-244 | a ticket comes out exactly when the removal step is possible, and then table and position are those of the step |
| HeldTables.HeldTable.TakeAll | internal/plugin/handler.go:405-409 | table and tickets to release are those of the final swap step |
| HeldTables.RunTable | internal/plugin/handler.go:217-244 | over any interleaving of all executions, the table of one of them holds exactly what the steps of the run say |
| Sessions.StepKeepsLocks | internal/plugin/handlerctx.go:296-356 | under every step of every execution each owned slot belongs to exactly one execution, which has its live ticket, and waiters match waiting executions one to one |
| SharedSlots.StepKeepsData | internal/plugin/handlerctx.go:296-356 | every step keeps: marks never disappear, marked slots hold the latest write, readings of marked slots are current, and whoever can write has a fresh reading |
| SharedSlots.NoLostUpdate | internal/plugin/handlerctx.go:296-356 | over every interleaving with failures, timeouts and cancellations, a reading of a marked slot is the latest earlier successful write, and every write answers a reading with no write between |
| Readings.StoreFollows | internal/plugin/slotstore.go:30-159 | over every interleaving, a slot, marked or not, stores the latest of the values written under its lock and the merges that reached it unmarked, or else its first value, and its accesses are those of the history, each reading being the value that stands at that moment |
| Readings.ReadsWhatStands | internal/plugin/handlerctx.go:316-325 | a successful getWithLock reads what its slot holds then, and whether it is marked |
| Readings.RegistersIff | internal/plugin/handler.go:223-231 | an acquired slot is registered if and only if its execution was not cancelled before; otherwise it is let go |
| Readings.Replay | internal/plugin/slotstore.go:30-159 | any interleaving, carried out on one store: it holds, and its readings are, what the steps say |
| SharedSlots.StoreIsCurrent | internal/plugin/handler.go:382-413 | whatever is buffered and merged, a marked slot stores the latest value written under its lock |
| SharedSlots.UpdatesAddUp | internal/plugin/handlerctx.go:296-356 | executions that replace what they read by f of it compose: n writes leave f applied n times |
| SharedSlots.Interference | internal/plugin/slotstore.go:128-159 | under a holder, another execution changes the stored value if and only if it merges a different value into an unmarked slot |
| SharedSlots.RacingExample | internal/plugin/handler.go:396-404 | a run in which that happens |
| SharedSlots.UnlockReleases | internal/plugin/handlerctx.go:316-353 | after unlocking with or without a value, a failed write or read, or a late cancellation, an execution does nothing else before it has released the slot and somebody else or nobody owns it, whatever others do in between |
| SharedSlots.LeavingReleases | internal/plugin/handler.go:234-244 | an execution that lets go of a slot does nothing else, over any interleaving, until it has released it |
| SharedSlots.ReleaseLoses | internal/plugin/slotlock.go:101-119 | after the release the slot is owned by somebody else or by nobody |
| SharedSlots.MergePrecedesRelease | internal/plugin/handler.go:396-412 | in every run, what an execution still holds at its end is released only after its merge |
| SharedSlots.NothingLeftBehind | internal/plugin/handler.go:405-412 | a waiter waits for an execution that has not ended, and one that has ended owns nothing |
| SharedSlots.AllDoneFreesAll | internal/plugin/handler.go:405-412 | once all executions have ended no slot is owned and nobody waits |
| Progress.WaiterMoves | internal/plugin/slotlock.go:54-70 | a waiter that was granted the lock can wake up with its ticket, and one that was not succeeds in giving up and goes on |
| Progress.HandlerCan | internal/plugin/handlerctx.go:269-345 | handler code may write exactly what nobody has locked, lock what it does not hold, and unlock what it holds |
| Progress.NeverStuck | internal/plugin/handlerctx.go:296-356 | whatever the others do, an execution that has not ended can make a move towards its end, which changes its position and lowers its rank; cancelling, buffering and asking for locks do not count |
| Progress.EndsByItself | internal/plugin/handler.go:382-413 | from every state of the lock invariant an execution reaches its end by its own moves alone, in no more of them than its rank |
| Progress.MovesAreFew | internal/plugin/handler.go:382-413 | over any interleaving it makes at most as many moves towards its end as its rank and six more for every slot it asks for |
| Replies.Exchange.Claim | internal/plugin/handlerctx.go:678-691 | the first call commits to a form; another form or a finished reply is refused |
| Replies.Exchange.ReplyWithJson | internal/plugin/handlerctx.go:426-449 | one call makes exactly the attempt and state change of the reply automaton, and throws exactly when nothing was written |
| Replies.Exchange.StartStream | internal/plugin/handlerctx.go:450-460 | the same for starting a stream |
| Replies.Exchange.SendEvent | internal/plugin/handlerctx.go:465-485 | the same for an event |
| Replies.Exchange.EndStream | internal/plugin/handlerctx.go:486-502 | the same for the regular end |
| Replies.Exchange.SendError | internal/plugin/handlerctx.go:503-527 | the same for an error frame |
| Replies.Exchange.TerminalError | internal/plugin/handler.go:352-368 | the end after an exception follows the automaton |
| Replies.Exchange.NormalTerminal | internal/plugin/handler.go:371-379 | the end after a return follows the automaton |
| Replies.Exchange.Run | internal/plugin/handler.go:247-289 | a whole execution is the automaton's run, and a failing preparation writes nothing |
| Replies.PrepareIsSilent | internal/plugin/handlerctx.go:428-430 | no sequence of calls during preparation has any effect |
| Replies.PlayKeeps | internal/plugin/handlerctx.go:422-527 | the invariant that ties the four flags to what the sink was asked |
| ReplyHistories.ReachesSink | internal/plugin/handlerctx.go:422-527 | for every sequence of calls, which of them reach the sink and with what, said of the calls alone; a JSON answer carries the status given, and 200 if none was |
| ReplyHistories.StatusIsGiven | internal/plugin/handlerctx.go:431-443 | every JSON answer in the sink was asked for by one call with that status, and 200 exactly where the call gave none or 200 |
| ReplyHistories.FirstJsonGoesOut | internal/plugin/handlerctx.go:431-446 | the first reply.json of a plain request after preparation goes out if no stream was asked for before |
| ReplyHistories.ThrowsIff | internal/plugin/handlerctx.go:422-527 | a call throws if and only if it does not reach the sink or the sink refuses |
| ReplyHistories.EndFollows | internal/plugin/handler.go:352-379 | the final error frame and the outcome of run(), said of the calls alone |
| Replies.Outcome | internal/plugin/handler.go:352-379 | for every call sequence, sink failure and outcome: one form only, nothing after a successful terminal write, and success after a started stream means a terminal frame was tried last |
| Replies.SilentSuccess | internal/plugin/handler.go:371-379 | success without an answer happens if and only if the handler returned, committed to JSON, with nothing written |
| Replies.SilentSuccessExample | internal/plugin/handlerctx.go:438-443 | such a run |
| Replies.AnsweredFailure | internal/plugin/handler.go:352-368 | failure after a finished reply happens if and only if the handler threw after ending a stream it never opened |
| Replies.AnsweredFailureExample | internal/plugin/handler.go:352-368 | such a run |
| Replies.UnopenedStream | internal/plugin/handlerctx.go:471-473 | exactly when a stream frame is attempted before any successful start |
| Replies.UnopenedStreamExample | internal/plugin/handlerctx.go:450-455 | a plain request that sees a stream frame |
| Budgets.AcquireSound | internal/plugin/pool.go:34-43 | acquiring keeps the total equal to the sum of the package counters and both within their caps |
| Budgets.ReleaseSound | internal/plugin/pool.go:46-59 | a release panics exactly when the package has nothing, and keeps the sums and positive entries |
| Budgets.ReleaseUndoes | internal/plugin/pool.go:34-59 | a release undoes an acquisition, leaving no empty entry |
| Budgets.VmBudget.Acquire | internal/plugin/pool.go:34-43 | the fields follow the value step |
| Borrowings.GrantedIff | internal/plugin/pool.go:34-43 | in every run a try succeeds if and only if fewer than 128 instances exist and fewer than 64 of the package; then the borrower builds, otherwise it waits |
| Borrowings.GetsNew | internal/plugin/pool.go:85-135 | a borrower of an open pool gets a new instance by its own moves, whatever position it is in, as long as there is room |
| Borrowings.GetsIdle | internal/plugin/handlerpool.go:75-77 | a waiting borrower takes the instance that has been idle longest |
| Borrowings.ComesBack | internal/plugin/handlerpool.go:116-133 | an instance that is neither broken nor worn out is kept by an open pool with room |
| Borrowings.BuildFails | internal/plugin/pool.go:119-123 | a build that fails hands nothing out and gives its budget back |
| Borrowings.RefusedWhenClosed | internal/plugin/pool.go:105-110 | a borrower that finds the pool closed after its short wait leaves everything as it was |
| Borrowings.GivesUp | internal/plugin/pool.go:99-102 | so does one that gives up |
| Borrowings.CloserEnds | internal/plugin/pool.go:165-179 | a closer past the wait destroys what is idle, one by one, and returns |
| Budgets.VmBudget.GiveBack | internal/plugin/pool.go:46-59 | the fields follow the value step, or it panics and changes nothing |
| InstancePools.InstancePool.Join | internal/plugin/pool.go:86-92 | testing the flag and joining the group are the entering step |
| InstancePools.InstancePool.Leave | internal/plugin/pool.go:138-139 | leaving the group is the leaving step, with its panic below zero |
| InstancePools.InstancePool.Receive | internal/plugin/handlerpool.go:75-77 | what leaves the channel is what the borrowing or draining step takes, and nothing exactly when there is no such step |
| InstancePools.InstancePool.Offer | internal/plugin/handlerpool.go:129-133 | channel and borrower are those of the sending step, and a full channel sends the instance to its destruction |
| InstancePools.InstancePool.MarkClosed | internal/plugin/pool.go:166-168 | the pool is that of the closing step |
| InstancePools.Perform | internal/plugin/pool.go:85-179 | budget and pool carry out every move of borrowers and closers, and no release panics |
| InstancePools.Replay | internal/plugin/pool.go:85-179 | any interleaving of borrowers and closers of one pool, carried out on one budget and one pool, ends as the steps say, lending counts included |
| Pools.StepKeeps | internal/plugin/pool.go:85-179 | every step of every process keeps: counters count instances, groups count borrowers, every instance is in one place, lending limits hold, closers past the wait have an unused closed pool |
| Pools.Accounting | internal/plugin/pool.go:34-59 | in every run the total equals idle plus lent plus unfinished instances and the sum over packages, within 128 and 64 |
| Pools.NeverPanics | internal/plugin/pool.go:49-54 | the underflow panics of budget and wait groups are unreachable |
| Lendings.CountsLending | internal/plugin/handlerpool.go:75-77 | the number kept with an instance counts exactly how often it was lent |
| Lendings.LentAtMost | internal/plugin/handlerpool.go:116-133 | from its acquisition on and over any interleaving, an instance is handed to a borrower at most as often as its pool allows (once, when the limit is zero) |
| Lendings.LentSafely | internal/plugin/handlerpool.go:116-133 | no instance is in two hands, and none has been lent more often than its pool allows |
| Lendings.RetiredNeverLent | internal/plugin/handlerpool.go:116-140 | an instance that is broken or exhausted, comes back to a closed pool, or is refused by the full channel is never lent again over any continuation, unless it was destroyed first and its name used anew |
| Lendings.DiscardedForGood | internal/plugin/handlerpool.go:137-140 | up to its destruction such an instance stays with the process that destroys it and is in use by nobody |
| Lendings.DestroyRemoves | internal/plugin/pool.go:159-162 | destroying an instance removes it and gives its budget back without panic |
| Closings.ClosedOwns | internal/plugin/pool.go:165-179 | after Close has returned its pool owns exactly what other closers are still destroying |
| Closings.AfterClose | internal/plugin/pool.go:165-179 | if nobody is destroying an instance of the pool when Close returns, the pool owns none in any continuation |
| Closings.ClosedOnce | internal/plugin/pool.go:165-179 | if Close was called at most once on a pool and has returned, the pool owns no instance and holds nothing of any budget in any continuation, further calls of Close included |
| Closings.ClosedTwiceExample | internal/plugin/handlerpool.go:143-157 | a run in which another Close is at work |
| PackagePaths.RefusedMeaning | internal/plugin/hooks.go:220-223 | a relative path is refused if and only if walking along it leads above the package at some point |
| PackagePaths.RequiredFromAnywhere | internal/plugin/hooks.go:208-230 | every file of a package can be required from every other one, by going up to the root and down again, however deep either lies |
| PackagePaths.StandsFor | internal/plugin/hooks.go:208-230 | what any require() in any file stands for: nothing if the walk leaves the package, else the first that is a file of the destination, the destination with .js, and its index.js |
| PackagePaths.NothingFoundIff | internal/plugin/hooks.go:208-230 | nothing is found if and only if the path is refused or none of the three exists |
| PackagePaths.StandsForNames | internal/plugin/hooks.go:208-230 | the way up to the root and down along names stands for the file of that name, else for that script, else for that directory |
| Modules.HooksEnv.Load | internal/plugin/hooks.go:128-200 | terminates, restores the stack, keeps the cache, adds only files reachable from the one asked for, behind their own requires and with exports of their own, and fails only with a dead end that continues the stack |
| Modules.HooksEnv.LoadEntry | internal/plugin/hooks.go:128-200 | an entry file, or a require() that a function of any module makes after all evaluation, loads if and only if it stands for a file from which everything reachable is in order and without a circle, whatever was loaded before |
| Modules.EntryNames | internal/plugin/hooks.go:136-138 | an entry file is asked for by its name; a relative name is refused |
| Modules.HooksEnv.Evaluate | internal/plugin/hooks.go:149-200 | a successful evaluation caches the file with fresh exports; a failing one leaves it uncached |
| Modules.HooksEnv.RunBody | internal/plugin/hooks.go:183-188 | the requires of a module in order up to the first that fails, and for each of them what was loaded and which exports were seen |
| Modules.HooksEnv.Require | internal/plugin/hooks.go:76-79 | the value the script sees is right if and only if the file was loaded just now or was handed over last |
| Modules.RightIff | internal/plugin/hooks.go:76-79 | in every load, each require of every loaded module yielded the right exports if and only if no other file was evaluated after the one it asked for |
| Modules.RequireExample | internal/plugin/hooks.go:139-141 | loading a module that requires a, b and a again: the third require yields the exports of b |
| Modules.CachedLoadable | internal/plugin/hooks.go:139-141 | everything in the cache is loadable, so a cached answer never hides a circle |
| Modules.LoadableMeaning | internal/plugin/hooks.go:142-188 | loadable means every file reached exists, compiles, does not throw and finds what it requires, and none is on a circle |
| OutboundSources.OutboundSource.ClaimConsume | internal/plugin/handlerhttp.go:251-260 | the fields follow the arbitration |
| OutboundSources.OutboundSource.LookAt | internal/plugin/handlerhttp.go:477-494 | the first section of a next() answers from the flags, and makes the channel of frames exactly when it goes on |
| OutboundSources.OutboundSource.TerminateSource | internal/plugin/handlerhttp.go:451-473 | the first to end the source records its error, others are told what was recorded |
| OutboundSources.OutboundSource.ReceiveItem | internal/plugin/handlerhttp.go:374-415 | the section after an item arrived, with all its early exits |
| OutboundSources.Replay | internal/plugin/handlerhttp.go:244-580 | any interleaving of readers and closers, carried out on one source, leaves its fields as the steps say |
| Sources.StepKeeps | internal/plugin/handlerhttp.go:244-580 | every step of readers and closers keeps the invariant of flags, closing and what was reported |
| Sources.RunKeeps | internal/plugin/handlerhttp.go:229-240 | flags only rise, the terminal error and the outcome of closing are written once |
| Sources.ConsumedOnce | internal/plugin/handlerhttp.go:294-344 | at most one of all attempts to consume is granted |
| Sources.ClosedOnce | internal/plugin/handlerhttp.go:262-288 | `close()` closes the body at most once and all who call it are told the same |
| BodyCloses.AtMostTwice | internal/plugin/handlerhttp.go:262-288 | over any run `close()` closes the body at most once, the pump at most once and only when it reads frames, so together at most twice |
| BodyCloses.EndClosesTwice | internal/transport/stream.go:69-75 | when a reading of frames has come to the end of the stream and `close()` has returned, the body was closed exactly twice |
| BodyCloses.OnceIff | internal/plugin/handlerhttp.go:491-493 | the body stays closed at most once in every continuation if and only if the pump of frames is started in none, and that if and only if it has not been started and the reading is another one, or frames do not suit, or the source is dead or closed |
| BodyCloses.TwiceExample | internal/plugin/handlerhttp.go:531-536 | one reader that asks for frames up to the end closes the body twice and is told nothing |
| Sources.OneTerminalError | internal/plugin/handlerhttp.go:451-473 | all reported failures other than cancellations and foreign closes are one and the same |
| Sources.LateCallsEnd | internal/plugin/handlerhttp.go:347-353 | a call that begins after the source died says that there is nothing more |
| Sources.AfterFailure | internal/plugin/handlerhttp.go:347-361 | over any run, every call that begins after a failed one ends if the source has died, and otherwise fails anew, with the news of the close or its own cancellation |
| Sources.FailsAgainExample | internal/plugin/handlerhttp.go:354-361 | a run in which two successive calls fail |
| Sources.DataInTime | internal/plugin/handlerhttp.go:394-415 | data comes out only before both deadlines, without cancellation, from a live and open source, and is the data delivered |
| Deadlines.DataArrives | internal/plugin/handlerhttp.go:394-415 | data that arrives before both deadlines is handed out unchanged; data that arrives too late ends the source with the deadline that has passed, the total one first |
| Deadlines.NothingArrives | internal/plugin/handlerhttp.go:418-425 | whichever timer fires ends the source with the deadline that has passed, the total one first |
| Deadlines.TimersWait | internal/plugin/handlerhttp.go:368-373 | no timer fires before its deadline |
| Deadlines.CancelledWhileWaiting | internal/plugin/handlerhttp.go:416-417 | a cancelled call ends the source with the reason, whether or not data is there |
| Deadlines.ErrorArrives | internal/plugin/handlerhttp.go:441-449 | a read error ends the source as broken, or as timed out when it came of a context |
| Deadlines.Reports | internal/plugin/handlerhttp.go:467-472 | a reader that has ended the source closes the body and then reports its error |
| Deadlines.GrantedIff | internal/plugin/handlerhttp.go:293-344 | a reading is granted if and only if there was none before, the source is alive and open, and the response suits it |
| Deadlines.Overtaken | internal/plugin/handlerhttp.go:451-465 | a reader whose source was ended meanwhile is told its own cancellation first, then the recorded error, then the close |
| Sources.DeathCloses | internal/plugin/handlerhttp.go:467-472 | a source that died is closed or somebody is about to close it |
| Paths.GetPath | internal/plugin/runtime.go:302-320 | the loop with its early exits reads along the path |
| Paths.GetSet | internal/plugin/runtime.go:336-366 | reading what was written gives it back, for every value and every path without negative index |
| Paths.SetSet | internal/plugin/runtime.go:336-366 | the second of two writes to one path wins |
| Paths.SetBack | internal/plugin/runtime.go:336-366 | writing back what was read changes nothing if and only if something was there |
| Paths.SetField | internal/plugin/runtime.go:354-366 | a write of a field changes this field and no other |
| Paths.SetItem | internal/plugin/runtime.go:342-352 | a write of an item changes this item and lengthens the array with Nulls just up to it |
| Paths.SetElsewhere | internal/plugin/runtime.go:336-366 | a path that parts at a segment of the same kind reads as before, even when containers are created, extended or replaced |
| Paths.SetReplaces | internal/plugin/runtime.go:346-358 | a path that parts at a segment of the other kind reads as missing afterwards, so it is unchanged if and only if it was missing |
| Paths.SetReplacesExample | internal/plugin/runtime.go:346-358 | a value that is lost that way |
| Paths.SetAbove | internal/plugin/runtime.go:336-366 | above the written place stands the old container, written along the rest |
| Paths.SetNegative | internal/plugin/runtime.go:339-341 | a negative index turns the write into writing back what is above it |
| Paths.SetNegativeExample | internal/plugin/runtime.go:339-341 | two writes that do not land |
| Paths.SetPathLands | internal/plugin/runtime.go:323-333 | a write lands if and only if the path starts with a key |
| Paths.MergeReads | internal/plugin/runtime.go:277-292 | along any keys a merge reads as the first map where the second says nothing, as the merge where both have objects, and as the second everywhere else |
| Paths.MergeKeys | internal/plugin/runtime.go:277-292 | a merge has the keys of both maps and no others |
| Paths.SplitPath | internal/plugin/runtime.go:377-408 | the two nested loops compute the part-wise parse and terminate on every text |
| Paths.ShowThenParse | internal/plugin/runtime.go:376-408 | writing any list of plain segments as a.b[0].c and splitting it gives the list back |
| PathTexts.TextParsed | internal/plugin/runtime.go:376-408 | every written path, with names, brackets holding a number or any text, brackets left open and empty parts, stands for exactly its segments |
| PathTexts.PartOf | internal/plugin/runtime.go:379-406 | every text between dots is such a part |
| PathTexts.AtoiIff | internal/plugin/runtime.go:387-391 | what is read as a number: digits, perhaps behind a sign, within 64 bits, and nothing else |
| Text.AtoiDecimal | internal/plugin/runtime.go:387-391 | a written number is read back exactly when it fits 64 bits |
| Rotations.Fair | internal/plugin/keys.go:137-148 | over any n consecutive counter values each of L candidates comes up n/L times, rounded down or up |
| Rotations.RotateMany | internal/plugin/keys.go:137-148 | n selections from a list give every key its fair share, also across the wrap if L divides 2^64, and otherwise a fair share before and one after the wrap |
| Rotations.WrapGoesOn | internal/plugin/keys.go:146-147 | the order goes on across the wrap if and only if L divides 2^64 |
| Rotations.WrapRepeats | internal/plugin/keys.go:146-147 | with three keys the wrap selects one twice in a row |
| Rotations.KeyRotation.Rotate | internal/plugin/keys.go:137-148 | selects by the counter and advances it modulo 2^64; other packages are untouched |
| Rotations.KeyRotation.PeekRotation | internal/plugin/keys.go:151-161 | the index of the next selection, without advancing |
| Rotations.KeyRotation.PeekThenRotate | internal/plugin/keys.go:137-161 | the key looked at is the key selected next |
| Rotations.KeyRotation.ResetRotation | internal/plugin/keys.go:164 | the counter of one package starts over |
| Registries.Registry.SaveGroup | internal/upstream/registry.go:266-316 | saved if and only if the group is valid, known, of the same plugin and of a free prefix; all index invariants are kept |
| Registries.Registry.SaveMember | internal/upstream/registry.go:332-372 | saved if and only if named, in a known group and new there (or unchanged but for being enabled); all index invariants are kept |
| Registries.Registry.IndexMember | internal/upstream/registry.go:209-215 | a tracked member is overwritten, a new one appended |
| Registries.Registry.DeleteGroup | internal/upstream/registry.go:375-419 | the group and its members go, and only the counters of names that nobody has any more |
| Registries.Registry.DeleteMember | internal/upstream/registry.go:448-471 | the member goes, and its counter if nobody else has the name |
| Registries.Registry.CleanupRound | internal/upstream/registry.go:422-429 | a counter is dropped exactly when its name is gone |
| Registries.Registry.PollNameCount | internal/upstream/registry.go:432-445 | the number of groups that have a member of this name, positive exactly when the name exists |
| Registries.MemberAdded | internal/upstream/registry.go:209-215 | a new member keeps the lists a partition of the index in ascending order with unique names |
| Registries.MemberDeleted | internal/upstream/registry.go:457-468 | so does taking one out |
| Registries.GroupDeleted | internal/upstream/registry.go:401-408 | so does deleting a group |
| Registries.Registry.Resolve | internal/upstream/registry.go:588-640 | whatever the map order, the result is what the name stands for: the member behind the prefix, or the offering group with the least number |
| Registries.ResolvesOnce | internal/upstream/registry.go:588-640 | a name stands for one thing only |
| Registries.ResolvesMeaning | internal/upstream/registry.go:588-640 | what a name stands for, in full: prefix/name in an enabled group, or if no enabled group has the prefix, that name in the enabled group with the least number, and nothing if there is none |
| Registries.FullNameResolves | internal/upstream/registry.go:588-612 | for every enabled group and member, prefix/name stands for exactly that pair |
| Registries.Registry.Rotate | internal/upstream/registry.go:643-670 | the n-th of the offering groups in ascending order, round and round; from 2^63 on a panic unless the signed index is zero |
| Registries.Registry.NextRound | internal/upstream/registry.go:673-688 | the counter goes up by one modulo 2^64 and exists only for existing names |
| Registries.Registry.Pick | internal/upstream/registry.go:569-586 | names offered by several groups rotate and advance the counter, and panic exactly when the signed index is negative; others are resolved directly and leave the counter alone |
| Registries.UpperHalfPanics | internal/upstream/registry.go:643-668 | from 2^63 on at least one of any two consecutive picks panics |
| Registries.PickIff | internal/upstream/registry.go:643-668 | the index is the truncated remainder of the counter as a signed 64-bit number, and there is a pick if and only if it is not negative |
| Registries.FairPicks | internal/upstream/registry.go:643-688 | consecutive picks give each offering group its fair share |
| Registries.PickMany | internal/upstream/registry.go:569-586 | picking one name again and again on an unchanged index selects each offering group its fair share of times and never panics below 2^63; beyond, the run ends with the first negative index |
| ServerEvents.ScanSse | internal/transport/stream.go:101-129 | the line loop computes the scan; a line that does not fit ends it and drops what is pending |
| ServerEvents.WriteSse | internal/gateway/gateway.go:929-938 | appends the printed frame |
| ServerEvents.WriteThenScan | internal/transport/stream.go:101-129 | any list of clean frames, printed and scanned, comes back, empty data and leading blanks included |
| ServerEvents.SurvivesIff | internal/gateway/gateway.go:934-938 | a frame survives if and only if its event is trimmed and in one line, its data in one line without a trailing carriage return, and both lines fit the buffer |
| WireEvents.WireScanned | internal/transport/stream.go:101-129 | whatever frames an upstream writes, with several data lines, a blank behind the colon or none, carriage returns, other fields, and a last frame cut off, the scanner hands out what they stand for |
| WireEvents.LongLineEnds | internal/transport/stream.go:102-103 | a line of 1048576 bytes or more ends the scan: whole frames before it come out, what is pending does not |
| ServerEvents.MultiLineExample | internal/gateway/gateway.go:937 | data in two lines comes back without the second |
| EvictGates.EvictGate.Admit | internal/server/run.go:552-567 | the fields follow the value step |
| EvictGates.EvictGate.Leave | internal/server/run.go:570-574 | the fields follow the ending step |
| EvictGates.Replay | internal/server/run.go:552-574 | any sequence of calls and ends, carried out on one gate, leaves the gate and admits as many calls as the steps say |
| EvictGates.FewInFlight | internal/server/run.go:552-574 | never more than two run at once, and exactly those admitted and not ended |
| EvictGates.AdmittedBetween | internal/server/run.go:552-567 | between any instants t0 and t1 at most 5 + (t1 - t0) calls are admitted |
| EvictGates.AdmittedIff | internal/server/run.go:552-567 | a call is admitted if and only if fewer than two are running and no stretch of calls up to it exceeds five and one for every second since the stretch began, in whatever order readings arrive |
| EvictGates.AtMostFiveAndTheSeconds | internal/server/run.go:552-567 | the bound in terms of the latest reading, even when clock readings reach the lock out of order |

## Left out

- JavaScript engine: hooks, module bodies and handlers are lists of calls or requires with an outcome; promises, interrupts and budgets are not modelled.
- Decoder.Decoder.Next: a frame is kept with header order and value tags, which the JavaScript object built from it does not show.
- Modules.HooksEnv.Load: which requires a module's evaluation makes is fixed beforehand, and exports stand for evaluations, so a module that exports another one's object counts as different from it; a module that catches a failing require and goes on is not modelled; a failing require ends the module.
- SQLite: a transaction is a sequence of statements of which the first failing one undoes all; the tables are maps.
- SharedSlots.NoLostUpdate: writers outside of handler executions (`ExternalWrite`, `ExternalWritePlain`, the hooks' storage) are excluded.
- Sessions.StepKeepsLocks: a value over the size limit is an unlock that fails to write; the watchdog and the real timers are cancellations and give-ups that may strike at any time.
- SlotLocks.SlotLocks.Release: `ReleaseAll` and `releaseForced`, which take no ticket, are not part of the protocol.
- InstancePools.Replay: runs of a single pool are carried out on objects; runs of several pools are steps on values.
- Pools.StepKeeps: the processes and the channel contents are values, so sharing of instance objects is expressed by names; a panicking factory is not modelled.
- Sources.StepKeeps: the pump is its start, its close of the body and its end; which items it puts into the channel is left open, except that the end is seen only after the pump has ended; frames check the deadlines a second time under the same lock, which is one check here; reading a whole body is the claim and the close.
- Replies.Exchange.Run: the payloads of events and bodies are passed through unchanged and not part of the model.
- Registries.Registry.Pick: filtering by capability, the instance cache and loading from the database are not modelled; picks are not concurrent, so the index does not change between the counter and the choice.
- Registries.Registry.SaveMember: operations are atomic, so a save racing a group's deletion and the database's uniqueness errors do not occur; new row numbers exceed all earlier ones, as the table's AUTOINCREMENT gives them.
- Paths.GetPath: numbers and booleans are opaque atoms; `renderTemplate` and `maskSecrets` are left out.
- ServerEvents.ScanSse: the text is whole, not read piece by piece, and consists of code points, so bytes that are not UTF-8 do not occur; the `[DONE]` marker is not a frame.
- EvictGates.EvictGate.Admit: seconds and tokens are real numbers instead of float64.
- Network, TLS, HTTP, admin handlers, scheduling, manifest validation and the web UI: plumbing without state machines of their own.
