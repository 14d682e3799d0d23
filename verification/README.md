# Verified model of the coroutine server framework

This project models the parts of the framework where an error would be silent, and proves what they promise.

**Fibers that are never run twice.** Worker threads share one list of fibers and callbacks. A fiber can be woken
before it has finished yielding, so another worker may find it on the list while its stack is still in use.
`SchedulerProtocol` is a transition system over any number of threads and fibers; one step is one atomic action
(looking at one list entry, storing one state, leaving one stack). `SchedulerSafety` proves that in every
reachable state no fiber is on two threads, no wake-up is lost or doubled, no task is lost, each task was taken
as the first its worker might take, and semaphores count; `SchedulerLog` follows each entry by its number;
`SchedulerWakeup` says of each fiber that was woken, or that yielded READY, where it is found. The classes in
`RunQueue` and `FiberSemaphore` are the objects the steps are about. The clients keep one rule, which is part of
`Enabled`: a running fiber registers with at most one waker before it yields, and one that yields READY or ends
has no registration.

**A linked list that is a flat buffer.** `ByteArray` is a list of fixed-size blocks with a cursor. The class
keeps a ghost copy of the blocks laid end to end; every operation is stated on that copy, and the heap invariant
(a list without repetition, blocks that are all different arrays, the cursor in the block that holds the
position, null just at the end) is kept by all. `Stream` receives into and sends from its memory through
scatter/gather views, for every schedule of partial transfers. `Words`, `Codec`, `Items` and `TypedArray` are
the typed values: zigzag, varints, both byte orders, length prefixes; `ItemNumbers` says in arithmetic what
their bytes stand for. Machine words are bit vectors.

**Timers** (`Timer`): a set ordered by deadline and address whose keys change only outside of it, a flag that
says whether a new front has been announced, expiry by taking a prefix. Each operation is also a function on
values, and `TimerRuns` proves over any sequence of them that a sleeping thread is told in time. **Thread pool**
(`ThreadPool`): a transition system in which semaphore tokens stand for tasks, then for workers too. **Event
registrations** (`IOManager`): bits, contexts, a count and the kernel's interest, and the fate of each
registration; `IOWaker` shows that they are one of the wakers of the fiber protocol.

**Wire formats**: WebSocket frames over any partial reads and writes (`WebSocketWire`, `WebSocketForm`,
`WebSocket`), chunked bodies (`Chunked`), base64 (`Base64`), percent-encoding and queries (`Url`), replacing and
splitting (`Strings`).

Calls to the kernel are parameters: a `Connection` holds what the peer sends and a plan of how much each call
moves; `epoll_ctl` has a flag that makes it fail; times, addresses of timers and mask keys are arguments.

Where the code and what is said about it differ, the model follows the code:

- The comment above `uri_chars` omits the equals sign; the table counts it as unreserved, and so does
  `Urls.Unreserved`.
- `WSSendMessage` masks the caller's message in place, so that sending it again sends something else.
- A chunk-size line that is split between two reads loses its first part (`ChunkedBodies.SplitRun`).
- A timer that is refreshed under a clock that has gone back may be due before any sleeper wakes up
  (`TimerRuns.RefreshedTooEarly`).
- `idle` aborts on a stale report that names a registered event and one that is not (`IOManagers.StaleReport`).
- Reading an empty string that ends the last block uses a null block pointer
  (`TypedArrays.TypedArray.WriteThenRead`).
- `split` with a limit of 0 or 1 has no practical limit, because the count wraps (`Strings.Split`).
- Early on, the hour subtracted in `detectClockRollover` wraps, so any step back of the clock counts
  (`Timers.TimerManager.DetectClockRollover`).

## Model

| member | source | states |
|---|---|---|
| RunQueues.RunQueue.ScheduleNoLock | include/scheduler.h:63-71 | a task goes to the end of the list, an empty one nowhere; the answer says whether the list was empty |
| RunQueues.RunQueue.ScheduleAll | include/scheduler.h:40-51 | all tasks go to the list in order under one lock; a wake-up is needed exactly if the list was empty and there are any |
| RunQueues.RunQueue.Take | src/scheduler.cc:98-119 | the entry taken is the first that is neither pinned elsewhere nor a RUNNING fiber, all others stay in order, and the wake-up flag is set exactly when another thread has something to look for |
| FiberSemaphores.SoundSteps | src/mutex.cc:28-70 | acquiring, parking and releasing keep: units left imply nobody waits, and initial count plus notifies is grants plus units left |
| FiberSemaphores.FiberSemaphore.TryWait | src/mutex.cc:36-46 | succeeds exactly when a unit is left, and accounts for it |
| FiberSemaphores.FiberSemaphore.Wait | src/mutex.cc:48-59 | takes a unit or queues the current fiber last |
| FiberSemaphores.FiberSemaphore.Notify | src/mutex.cc:61-70 | hands over to the first waiter, which is scheduled, or else keeps the unit |
| SchedulerSafety.StepInv | src/scheduler.cc:94-165 | every step of workers and clients keeps the invariant of tickets, owners, states, counts and semaphores |
| SchedulerSafety.RunInv | src/scheduler.cc:94-165 | so it holds after every run |
| SchedulerSafety.ExclusiveExecution | src/fiber.cc:84-97 | in every reachable state a fiber is executed by at most one thread, and one about to be entered is off every stack and not RUNNING, so the check in `swapIn` never fires |
| SchedulerSafety.NoTicketLostOrDoubled | src/scheduler.cc:98-147 | a fiber that is registered or has a wake-up under way is found in exactly one place, any other in none |
| SchedulerSafety.WakeUpSurvives | src/mutex.cc:56-66 | a wake-up stays with its fiber through any run until the fiber is entered or its registration withdrawn |
| SchedulerSafety.EarlyWakeUpStaysQueued | src/scheduler.cc:108-111 | a fiber woken while it is still RUNNING stays on the list through any run of any threads in which it stays RUNNING |
| SchedulerSafety.HeldStep | src/scheduler.cc:98-119 | while one worker searches under the lock, no step of any other changes the list or its position |
| SchedulerSafety.SearchHistory | src/scheduler.cc:100-111 | whatever others store meanwhile, a search in progress in any run has passed over each entry before its position, and each was pinned elsewhere or RUNNING when it was looked at |
| SchedulerSafety.TakenWasFirst | src/scheduler.cc:98-117 | so the entry taken is the first that could be taken when it was looked at, on a list unchanged since the search began |
| SchedulerSafety.HeldWasTaken | src/scheduler.cc:112-115 | a worker that holds an entry has held it since it took it in such a search |
| SchedulerSafety.SemaphoreBound | src/mutex.cc:48-70 | grants never exceed the initial count plus the notifies, in every reachable state |
| SchedulerSafety.ScanFrom | src/scheduler.cc:100-117 | when nobody else acts, the entry-by-entry search through the steps of the protocol comes to the first eligible entry |
| SchedulerSafety.UndisturbedScan | src/scheduler.cc:98-119 | when nobody else acts, the fine-grained search has the result of the locked search of the list class |
| SchedulerLogs.LogShows | src/scheduler.cc:94-165 | a log that numbers the entries as they are scheduled follows every run: each number is at exactly one place, on the list, with one worker, or done with; the list and the workers have the entries the log says |
| SchedulerLogs.HoldsWhatItTook | src/scheduler.cc:112-147 | what a worker holds, or the fiber it runs, is the entry it took, by number, as long as it goes on holding |
| SchedulerLogs.TasksConserved | src/scheduler.cc:94-165 | in every reachable state no entry is lost or doubled, each one held was taken as the first its worker might take and is the one it runs, and the active count is the number of workers holding one |
| SchedulerWakeups.StepDoes | src/scheduler.cc:94-165 | what each step does to the list, the states, the registrations and the semaphores, written out: a fiber that yielded READY is put on the list again, unpinned, one that just yielded becomes HOLD |
| SchedulerWakeups.RecalledStays | src/scheduler.cc:98-125 | a fiber that is woken, or that yielded READY, is on the list or just taken from it until a worker enters it, or drops it ended; read off list and workers alone |
| SchedulerWakeups.RegisteredStays | src/iomanager.cc:159-170 | a registration lasts until it is woken or taken back |
| SchedulerWakeups.ParkedStays | src/mutex.cc:48-66 | a fiber parked in a semaphore waits until a notification finds it first |
| SchedulerWakeups.ReadyIsFound | src/scheduler.cc:124-125 | in every reachable state a READY fiber is still on its worker's stack, on the list, or just taken from it |
| SchedulerWakeups.UnitsCounted | src/mutex.cc:36-70 | units given out and units free are those there were at first and the notifications of the run, counted from its steps |
| ByteArrays.ByteArray.constructor | src/bytearray.cc:34-42 | one block, the cursor at its start |
| ByteArrays.ByteArray.CursorBlock | src/bytearray.cc:352-353 | the cursor is block `position / baseSize` and null exactly at capacity |
| ByteArrays.ByteArray.AddCapacity | src/bytearray.cc:500-529 | room for what is asked with as few new blocks as possible, so that the new capacity is known from the old; content and position stay, a null cursor is put on the first new block |
| ByteArrays.ByteArray.Write | src/bytearray.cc:346-379 | the content is overwritten from the cursor on, the capacity grows just as far as it must, and nothing else changes |
| ByteArrays.ByteArray.WriteLoop | src/bytearray.cc:356-374 | block by block, the flat store changes in just the range written |
| ByteArrays.ByteArray.CopyOut | src/bytearray.cc:386-407 | the loop over blocks gives exactly a range of the flat store and ends in the block behind it |
| ByteArrays.ByteArray.Read | src/bytearray.cc:381-408 | the next bytes of the content, or nothing and no change if there are fewer |
| ByteArrays.ByteArray.ReadAt | src/bytearray.cc:410-438 | when the positional overload refuses, with the unsigned difference for positions beyond the size; what it reads, and that this is right within the cursor's block |
| ByteArrays.ByteArray.ToString | src/bytearray.cc:531-539 | the content from the cursor to the end, cursor kept |
| ByteArrays.ByteArray.SetPosition | src/bytearray.cc:440-456 | any position up to capacity; the content is only ever extended, and the walk ends in the right block |
| ByteArrays.ByteArray.Clear | src/bytearray.cc:333-344 | empty content, the first block kept |
| ByteArrays.ByteArray.GetReadBuffers | src/bytearray.cc:557-586 | in-block, consecutive, non-empty views of what can be read |
| ByteArrays.ByteArray.GetReadBuffersAt | src/bytearray.cc:588-623 | the same from any position |
| ByteArrays.ByteArray.GetWriteBuffers | src/bytearray.cc:625-653 | the same for room behind the cursor, after growth, content kept |
| ByteArrays.ByteArray.GatherIsData | src/bytearray.cc:570-584 | the views of a range, gathered, are that range of the flat store |
| Streams.ToInt32Is | src/stream.cc:18-18 | a length returned as int is the one number in the range of 32 signed bits that differs from it by a multiple of that range |
| Streams.Connection.ReadFixSize | src/stream.cc:7-19 | all the bytes or a failure, whatever the pieces |
| Streams.Connection.WriteFixSize | src/stream.cc:33-46 | what went out is a prefix, and all of it on success |
| Streams.Connection.Scatter | streams/socket_stream.cc:37-37 | filling the views is one flat write |
| Streams.Connection.Collect | streams/socket_stream.cc:57-57 | gathering the views gives the flat range |
| Streams.Connection.Read | streams/socket_stream.cc:31-42 | one receive into the array is one flat write of the bytes that came |
| Streams.Connection.Write | streams/socket_stream.cc:51-62 | one send takes the content from the old cursor to the new one |
| Streams.Connection.ReadFixSizeInto | src/stream.cc:21-31 | whatever the cuts, the array is as after one flat write of the bytes that arrived |
| Streams.Connection.WriteFixSizeFrom | src/stream.cc:48-58 | whatever the cuts, exactly the content between the two cursor positions goes out |
| Words.NumberOfWord | src/bytearray.cc:181-199 | a size stored in k bits comes back modulo 2 to the k |
| Words.SizesReadBack | src/bytearray.cc:181-199 | so do sizes in 16, 32 and 64 bits |
| Codecs.Zigzag | src/bytearray.cc:114-136 | zigzag is a bijection in 32 and 64 bits, the most negative number included |
| Codecs.ShiftIsUp32 | src/bytearray.cc:257-264 | the shift by the loop counter puts a group in its place |
| Codecs.VarintGroups32 | src/bytearray.cc:255-267 | reading the groups of a number from any group on |
| Codecs.VarintRoundTrip32 | src/bytearray.cc:143-152 | one to five bytes that read back as the number, whatever follows |
| Codecs.VarintRoundTrip64 | src/bytearray.cc:158-167 | one to ten bytes for 64 bits |
| Items.SwapTurns | include/my_endian.h:18-34 | the shift-and-mask swaps turn the bytes of a word round |
| ItemNumbers.FixedBytes | src/bytearray.cc:65-112 | byte by byte, a value of fixed width is its number from the lowest or from the highest byte |
| ItemNumbers.WordBytes | src/bytearray.cc:217-247 | what is read is the number that the bytes make up in the array's order |
| ItemNumbers.VariableBytes | src/bytearray.cc:138-179 | a varint is its number in groups of seven bits, the lowest first, all but the last with their high bit set; a signed value is that of its zigzag |
| ItemNumbers.ZigzagNumber32 | src/bytearray.cc:114-120 | zigzag in arithmetic: n becomes 2n, and -n becomes 2n - 1 |
| ItemNumbers.ZigzagNumber64 | src/bytearray.cc:122-128 | the same in 64 bits |
| ItemNumbers.StringBytes | src/bytearray.cc:181-199 | a string is its length as a number of its kind of prefix, and its bytes |
| Items.ItemReadsBack | src/bytearray.cc:65-331 | a typed value reads back, using just its bytes, if and only if a string's length fits its prefix |
| Items.ScriptReadsBack | src/bytearray.cc:65-331 | a script of typed values reads back if and only if all strings fit, and ends at the same place |
| Items.ScriptBlocks | src/bytearray.cc:386-387 | reading back meets the null cursor exactly for an empty string that comes last and ends the last block |
| TypedArrays.TypedArray.WriteFixed32 | src/bytearray.cc:93-98 | the bytes are in the array's order on either kind of host |
| TypedArrays.TypedArray.ReadFixed32 | src/bytearray.cc:217-239 | and read back in it |
| TypedArrays.TypedArray.Groups32 | src/bytearray.cc:144-150 | the writing loop stays within five bytes and gives the varint |
| TypedArrays.TypedArray.Groups64 | src/bytearray.cc:159-165 | within ten bytes |
| TypedArrays.TypedArray.ReadVar32 | src/bytearray.cc:255-267 | the reading loop gives what the groups stand for, for any bytes, cut short or too long ones included |
| TypedArrays.TypedArray.ReadVar64 | src/bytearray.cc:273-285 | the same for 64 bits |
| TypedArrays.TypedArray.WriteString | src/bytearray.cc:181-199 | prefix and bytes are one flat write |
| TypedArrays.TypedArray.ReadString | src/bytearray.cc:301-331 | the value, or the exception with the cursor behind the prefix, or the null block |
| TypedArrays.TypedArray.WriteThenRead | src/bytearray.cc:65-331 | writing values, going back and reading them gives the same ones if and only if all strings fit, at the same end position, across blocks; the null block is met exactly for an empty last string that ends at the old capacity or, behind it, where a block ends |
| Timers.BeforeIsAnOrder | src/timer.cc:11-19 | the comparator is a strict order that tells any two keys apart, null pointers included |
| Timers.TimerManager.Find | src/timer.cc:31-32 | a timer that is in the set is found, so that what is erased exists |
| Timers.TimerManager.Place | src/timer.cc:80-88 | a new front is announced unless one has been, the flag is raised exactly then, and no wake-up is lost |
| Timers.TimerManager.AddTimer | src/timer.cc:73-78 | the new state is the old one with that timer placed; announced exactly if it comes first and the flag is down; no wake-up is lost even if its time was read long before |
| Timers.TimerManager.Forget | include/timer.h:19-23 | when the last pointer to a timer outside the set goes, its address is free for another, and no wake-up is lost |
| Timers.TimerManager.Cancel | src/timer.cc:27-36 | succeeds exactly once; the timer leaves the set |
| Timers.TimerManager.Refresh | src/timer.cc:38-49 | succeeds exactly while the timer is live; nothing is announced, so no wake-up is lost if and only if the flag is up or the new deadline is no earlier than the one seen, as under a clock that does not go back |
| Timers.TimerManager.Reset | src/timer.cc:51-65 | succeeds exactly while the timer is live, or when nothing new is asked for; the new period counts from the old start or from now; announced exactly if it comes first and the flag is down, and no wake-up is lost |
| Timers.TimerManager.GetNextTimer | src/timer.cc:99-112 | the sleep ends no later than the earliest deadline, which is what later wake-ups are measured against; from now on new fronts are announced |
| Timers.TimerManager.DetectClockRollover | src/timer.cc:152-160 | exactly when the clock has gone back by more than an hour, or at all within the first hour |
| Timers.TimerManager.Expired | src/timer.cc:132-136 | the prefix to take is exactly the timers that are due, whatever the probe's address |
| Timers.TimerManager.Treat | src/timer.cc:141-149 | changing a key outside the set and putting it back keeps the order |
| Timers.TimerManager.ListExpiredCb | src/timer.cc:114-150 | the callbacks of exactly the due timers in order; recurring ones start again, others end; the time is kept for the next check of the clock; nothing overdue is left but with period 0; no wake-up is lost |
| TimerRuns.StepExactly | src/timer.cc:27-150 | while a thread sleeps, an operation leaves it safe if and only if it announces, or what it puts back unannounced is no earlier than what the thread saw |
| TimerRuns.ToldInTime | src/timer.cc:27-150 | so after any operations of any clients the sleeper is told, or no timer is due before it wakes up, if nothing early is put back |
| TimerRuns.NobodyOversleeps | src/timer.cc:27-150 | under a steady clock that is so for any operations |
| TimerRuns.NoneUntold | src/timer.cc:102-104 | whoever sleeps for ever because there is no timer is told of the first |
| TimerRuns.RunStaysRegular | src/timer.cc:27-150 | deadlines stay a period after a time that has passed, so that it holds round after round |
| TimerRuns.RefreshedTooEarly | src/timer.cc:46-47 | a run in which the clock goes back: a timer is due 500 before the sleeper wakes up, and nobody is told |
| ThreadPools.StepInv | src/threadpool.cc:6-53 | every step keeps the token count, the order of tasks and the shutdown protocol |
| ThreadPools.AcquireInv | src/threadpool.cc:38-50 | a woken worker finds the queue empty only while the pool is stopping |
| ThreadPools.StepProgress | src/threadpool.cc:32-53 | every step the pool makes by itself brings it nearer to rest |
| ThreadPools.RunsEnd | src/threadpool.cc:32-53 | so runs without a caller's choice are bounded |
| ThreadPools.PhaseAfter | src/threadpool.cc:6-29 | the pool is RUNNING from `init` on, STOPPING while it is destroyed, then STOP |
| ThreadPools.EnqueuesSubmitted | include/threadpool.h:36-45 | what is put into the queue is just what callers submit while the pool is RUNNING, in the order of their pushes |
| ThreadPools.MayGoOn | include/threadpool.h:37-44 | a caller that found the pool RUNNING may push, and then notify |
| ThreadPools.MayStill | include/threadpool.h:36-45 | no step of anyone else takes that away: a caller past the check can still push, and past the push still notify |
| ThreadPools.EveryTaskOnce | src/threadpool.cc:6-18 | no empty pop, tasks start in the order submitted; at rest the owner is not stuck, workers of a destroyed pool have exited, and each task submitted was done exactly once if and only if there are threads or no tasks |
| IOManagers.BooksRegister | src/iomanager.cc:159-170 | a new registration is pending in its context and nowhere else |
| IOManagers.BooksHand | src/iomanager.cc:80-90 | triggering schedules the pending registration as it was made and clears bit and context |
| IOManagers.BooksDelete | src/iomanager.cc:193-197 | deleting settles it without scheduling |
| IOManagers.ScheduledOnce | src/iomanager.cc:80-90 | no registration is scheduled twice, and none that is pending or deleted |
| IOManagers.IOManager.AddEvent | src/iomanager.cc:129-171 | bit, context, count and the kernel's interest change together, or nothing does; growth leaves the rest |
| IOManagers.IOManager.DelEvent | src/iomanager.cc:173-198 | succeeds exactly if the bit is set and the kernel agrees; the registration is never scheduled |
| IOManagers.IOManager.CancelEvent | src/iomanager.cc:200-224 | the same, but whoever waits is scheduled |
| IOManagers.IOManager.CancelAll | src/iomanager.cc:226-263 | all registrations of a descriptor are scheduled, reading first, and no bit is left |
| IOManagers.ReportWakes | src/iomanager.cc:332-357 | a report wakes just those who wait for an event that is reported, or for any if there is an error or hang-up, reading first, with the scheduler and the fiber or callback noted; nobody else's registration changes |
| IOManagers.IOManager.Dispatch | src/iomanager.cc:330-358 | the assertion fails exactly if the kernel agrees and the report meets a registered event but names an unregistered one; otherwise just those whose event is due are scheduled, an error or hang-up being due for all |
| IOManagers.IOManager.DispatchAll | src/iomanager.cc:323-359 | a batch aborts exactly if some report overshoots when its turn comes, with each descriptor once if some report is stale; else whoever is due is scheduled, report by report, and nobody else |
| IOManagers.EachOnItsOwn | src/iomanager.cc:323-359 | in a batch with each descriptor once, each ends as if its report had been the only one |
| IOManagers.StaleReport | src/iomanager.cc:81-81 | a run that aborts: both events are reported, one is deleted before the report is handled |
| IOWakers.NoneAtFirst | src/iomanager.cc:92-115 | an empty table reflects the initial states of the protocol |
| IOWakers.AddIsRegister | src/iomanager.cc:159-170 | entering a running fiber that is registered nowhere is a registration the protocol allows, and the two sets of registrations stay the same |
| IOWakers.TriggerIsWake | src/iomanager.cc:80-90 | triggering is a wake-up the protocol allows; it puts on the list what the context holds |
| IOWakers.DeleteIsUnregister | src/iomanager.cc:193-197 | deleting a fiber's registration is the protocol's withdrawal |
| IOWakers.OthersKeep | src/iomanager.cc:80-90 | all other steps of the protocol, those of fibers that sleep on a timer among them, leave the two sets the same |
| IOWakers.WaitsOnce | src/iomanager.cc:159-170 | in every reachable state whose event registrations the contexts reflect, whoever sleeps, a fiber waits for at most one event, and while it waits it is nowhere else |
| WebSocketWire.ToggledTwice | http/ws_session.cc:163-167 | masking twice gives the payload back |
| WebSocketWire.LengthReadsBack | http/ws_session.cc:129-144 | each of the three size forms reads back |
| WebSocketWire.DataReceived | http/ws_session.cc:122-177 | a data frame at the front adds its payload, and ends the message if it is final |
| WebSocketWire.OpcodeIsNamed | http/ws_session.cc:170-172 | the opcode of a message is that of the first fragment that has one, 0 if none has |
| WebSocketWire.PayloadInOrder | http/ws_session.cc:155-168 | the payload of each fragment lies behind those before it |
| WebSocketWire.ScriptReceived | http/ws_session.cc:105-184 | any message below the limit, in any fragments with any keys and control frames, is received whole and in order, with the first opcode that is not CONTINUE; the receiver stops right behind it and answers each ping |
| WebSocketForms.FrameBytes | http/ws_session.h:31-37 | a frame in numbers: final bit and opcode, masking bit and size mark, the size in network order, the key, the payload combined with it byte by byte |
| WebSocketForms.ControlBytes | http/ws_session.cc:239-250 | a ping is 137, 0 and a pong 138, 0; opcodes 0, 1 and 2 carry data |
| WebSockets.WSFrameMessage.Toggle | http/ws_session.cc:222-224 | the data is masked in place |
| WebSockets.WSSendMessage | http/ws_session.cc:186-237 | what goes out is a prefix of the frame; success is reported exactly if all of it did and the size of the payload as a 32-bit number is positive, else the connection is closed |
| WebSockets.RecvPayload | http/ws_session.cc:129-168 | the payload behind what is there, unmasked; sizes whose 64-bit sum wraps are refused too |
| WebSockets.WSRecvMessage | http/ws_session.cc:105-184 | whatever the cuts, a message that is returned is the one the bytes stand for, and it is returned if there is one as long as the connection works |
| WebSockets.Exchange | http/ws_session.cc:105-237 | sending over one connection and receiving over another, in any pieces, is the identity |
| ChunkedBodies.PlainLine | http/httpclient_parser.rl:95-107 | hexadecimal digits and a line end are a line of that size |
| ChunkedBodies.NumeralLine | http/httpclient_parser.rl:95-107 | a numeral in base 16, in either case and with any zeros in front, is read as its number |
| ChunkedBodies.PlainIsChunked | http/http_connection.cc:69-118 | chunks whose lines are numerals of their sizes are chunks to the parser |
| ChunkedBodies.PayloadsInOrder | http/http_connection.cc:97-117 | the payload of each chunk lies behind those before it |
| ChunkedBodies.DecodeEncoded | http/http_connection.cc:69-118 | the body is the payloads one after the other and ends where the chunks end |
| ChunkedBodies.NothingLost | http/http_connection.cc:72-94 | bytes of a size line are lost exactly if the first run of the parser sees some bytes and they end within the line |
| ChunkedBodies.CutLine | http/http_parser.cc:236-240 | a line of digits, cut anywhere: the rest is a line only if it begins with a digit, and has the right size if and only if the digits lost are zeros |
| ChunkedBodies.CutFound | http/http_connection.cc:72-94 | so the line found after a cut is right if and only if the cut is behind zeros and before the last digit |
| ChunkedBodies.ReadLine | http/http_connection.cc:72-94 | the loop finds the line that begins where that run, or a later one, ended, or none, as the amounts received determine |
| ChunkedBodies.SplitLine | http/http_parser.cc:236-240 | a concrete line that, cut behind its first digit, is taken for the last chunk |
| ChunkedBodies.SplitRun | http/http_connection.cc:67-118 | sixteen bytes sent in chunks over a connection that delivers all of them, the first byte alone: the body received is empty |
| ChunkedBodies.RightIsDecoded | http/http_connection.cc:67-118 | if each size line found has the size and the end of the one that is there, what the loops assemble is what the bytes encode, and a working connection fails only if they encode none |
| ChunkedBodies.WholeIsRight | http/http_connection.cc:67-118 | lines that are whole when the parser is run for them are right |
| ChunkedBodies.BufferedIsWhole | http/http_connection.cc:67-118 | in an encoding that is all in the buffer each line is whole |
| ChunkedBodies.TakePayload | http/http_connection.cc:98-117 | the payload exactly, from the buffer or the connection, and no byte too many |
| ChunkedBodies.RecvChunked | http/http_connection.cc:67-118 | for any cuts, the exact outcome, split lines included; with right lines it is the body that the unread bytes encode, and just they are used; the connection is closed exactly on failure |
| ChunkedBodies.RecvChunks | http/http_connection.cc:67-118 | so chunks that a working connection cuts anywhere but harmfully within size lines, or that are all in the buffer, give their payloads, and what follows them is left |
| ChunkedBodies.RecvSized | http/http_connection.cc:119-141 | a body of given length is exactly that many of the unread bytes |
| Base64.RoundTrip | src/hash_util.cc:136-242 | decoding what was encoded gives the data back; four characters for each three bytes begun |
| Base64.GroupDigits | src/hash_util.cc:204-242 | three bytes are the four digits of their number in base 64, in the letters of the alphabet; what is missing is padded with equals signs |
| Base64.EncodedGroups | src/hash_util.cc:212-239 | the text is that of each three bytes in turn |
| Base64.DecodesWellFormed | src/hash_util.cc:136-198 | decoding succeeds on exactly the strings of whole groups of letters with one or two pads at the end |
| Base64.EncodesBack | src/hash_util.cc:136-242 | encoding what was decoded gives the string back if and only if the bits that padding leaves over are zero |
| Base64.Base64Encode | src/hash_util.cc:204-242 | the loops give that encoding |
| Base64.Base64Decode | src/hash_util.cc:136-198 | the loops give that decoding, nothing for malformed strings, and stay within the buffer reserved |
| Urls.RoundTrip | src/util.cc:401-461 | decoding gives the string back if and only if it reads plus as space, or space was not written as plus, or there is none |
| Urls.ByteEncodes | src/util.cc:401-430 | a letter of the table stands for itself, a space may be a plus, any other byte is a percent sign and its number in two upper-case digits |
| Urls.PercentDecodes | src/util.cc:442-448 | a percent sign and two hexadecimal digits of either case are the byte with that number |
| Urls.OtherDecodes | src/util.cc:436-452 | whatever does not begin such a triple stands for itself, but a plus for a space if asked |
| Urls.UrlEncode | src/util.cc:401-430 | the loop with its late copy gives that encoding |
| Urls.UrlDecode | src/util.cc:432-461 | the loop with its late copy gives that decoding, for any string |
| Urls.FirstWins | http/http.cc:227-228 | of equal keys, compared without regard to case, the first stays |
| Urls.FoldedEqual | http/http.cc:55-58 | keys are the same exactly if they are, but for the case of letters, up to their first NULs |
| Urls.QueryForm | http/http.cc:217-234 | a query is key, equals sign, value, ampersand, and so on |
| Urls.QueryReadsBack | http/http.cc:217-234 | parsing a query built from pairs gives those pairs, whichever way spaces were written |
| Urls.HttpRequest.ParseParam | http/http.cc:217-234 | the loop inserts the pairs of the string in order |
| Urls.HttpRequest.InitQueryParam | http/http.cc:212-237 | the query is parsed once |
| Strings.PiecesMakeUp | src/hash_util.cc:502-510 | the pieces between leftmost occurrences make up the string and hold no occurrence |
| Strings.Replace | src/hash_util.cc:502-510 | the result is those pieces joined by the replacement, which is never searched again; the loop ends |
| Strings.EmptyIsAlwaysFound | src/hash_util.cc:504-508 | with an empty search string each round leaves as much to search as before |
| Strings.Split | src/hash_util.cc:512-529 | parts without delimiters that with the delimiters between them make up the string, at most as many as the limit |

## Left out

- The kernel, sockets, SSL, `ucontext`, epoll itself, the hooks of system calls, MySQL, logging, configuration, modules: environment. A connection moves any number of bytes; `do_io` is one of the clients that register, yield and cancel.
- Idle fibers, `Scheduler::start`, `stop`, `stopping` and `WorkerGroup`: the stopping test compares a thread count that is not reset, so nothing about the end of a scheduler is claimed.
- SchedulerSafety.StepInv: the idle fiber and the `tickle` calls between threads are not steps of the protocol; nothing about liveness of the scheduler is claimed.
- SchedulerSafety.ScanFrom: only runs in which no other thread acts during the search; any others are SchedulerSafety.TakenWasFirst.
- SchedulerSafety.UndisturbedScan: the same.
- IOWakers.AddIsRegister: all contexts name the one scheduler whose list the protocol has; that the running fiber is registered nowhere else is the clients' rule.
- IOManagers.IOManager.Provide: looking up a context and growing the table are one step, while the code takes the lock twice.
- IOManagers.IOManager.AddEvent: that the registering fiber is RUNNING is not checked; descriptors are not negative.
- Timers.TimerManager.ListExpiredCb: each operation is one step under its lock; only the times read before a lock may be old.
- TimerRuns.NobodyOversleeps: a steady clock and deadlines within 64 bits are enough, not necessary; what is exact is each step (TimerRuns.StepExactly).
- ThreadPools.EveryTaskOnce: tasks end, and the destructor does not start while an `enqueue` is under way; that is the rule for callers in `Enabled`.
- ByteArrays.ByteArray.Read: reading 0 bytes with a null cursor is excluded, because the code dereferences it; the typed reads model it as an outcome.
- ByteArrays.ByteArray.AddCapacity: the rounding of `ceil(1.0 * size / base)` is taken as exact, and sizes do not overflow.
- TypedArrays.TypedArray.ReadString: a length that exceeds what is left gives the range exception, while the code first makes a string of that length and may run out of memory or meet the limit of strings there.
- ByteArrays.ByteArray.ReadAt: positions whose bytes, counted from the cursor's block, lie past the last block are excluded, because there the code follows a null pointer.
- Codecs.Zigzag: negating the most negative number and doubling, undefined in C++, wrap as on the usual machines.
- Items.ItemReadsBack: floating-point values are the words with the same bits.
- Streams.Connection.Read: a request for 0 bytes, which takes the address of an empty vector's first element, is excluded.
- Streams.Connection.Write: the same address is taken when there is nothing to send; the model takes that for a call that sends nothing.
- `writeToFile`, `readFromFile` and `toHexString` of the byte array: file and text output.
- WebSockets.WSRecvMessage: the configured limit is at most 2 to the 31, so that the 32-bit counter of received bytes does not wrap.
- WebSocketWire.ScriptReceived: CLOSE frames and control frames with a payload are not in scripts, for the receiver does not consume their payload; empty fragments neither, for receiving nothing counts as a failure.
- The WebSocket handshake.
- ChunkedBodies.RecvChunks: right size lines are enough for the right body; that wrong ones give another body is not claimed, for bodies may be made so that they agree.
- ChunkedBodies.ReadLine: the grammar lets a response head stand where a size line is expected, so that bytes beginning with `H` are not an error at once; in the model they are, and outcomes for such bytes are not claimed.
- ChunkedBodies.RecvChunked: chunk sizes above 2 to the 31 less 3, where the 32-bit arithmetic ends, give an outcome of their own; the generated parser is modelled for chunk-size lines only, and header parsing and trailers are left out.
- Urls.HttpRequest.ParseParam: the order of the parameter map is not modelled; body and cookie parameters use the same loop and are not shown.
- Strings.Replace: the two variants that search for one character are special cases.
- Strings.Split: one set of delimiters stands for both the character and the string variant.
