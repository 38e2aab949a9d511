# nsio `coio`, modelled in Dafny

`coio` is a single-threaded runtime of C++ coroutines over epoll: an event loop with a descriptor
table, a timer heap and a hand-off queue for other threads; awaiters that read and write sockets
across partial system calls; a recycling buffer pool; task coroutines; and kernel AIO. This project
models those pieces and proves what they guarantee over every run.

System calls, the clock and the scheduler are not executed but quantified over. `recv` and `send`
return any legal count, EAGAIN, EINTR, end of stream or an error; epoll reports any descriptor; the
clock shows any value; threads interleave in any order. A result about a run holds for all of these.

| file | models |
|---|---|
| `Coroutine.dfy`, `NestedCalls.dfy`, `Spawning.dfy` | parent pointers and symmetric transfer of `task.h` against direct recursive evaluation; the order between tasks that nested `resume()` calls give; which tasks a run has and what they are given |
| `FrameLifetime.dfy` | ownership of coroutine frames by `task` objects |
| `Receive.dfy`, `Composed.dfy` | `recv_lazy`, `recv_request` and `recv_request2` as machines over system call results |
| `Transport.dfy`, `Echo.dfy` | `send_lazy` to `recv_request` over a byte channel, next to other clients of the pool, and the request echo of the test programs |
| `NioAwaiter.dfy` | the event handlers as imperative loops, proved to compute those machines |
| `Wire.dfy`, `Overrun.dfy` | frame headers, the placement of a frame in a block, and which headers make the receiver write outside it |
| `Placement.dfy` | the block that a shared, recycling pool hands to a receiver, and what follows for the receiver |
| `BlockLayout.dfy`, `Bits.dfy` | block sizes and the packed key, on explicit 32-bit arithmetic |
| `BufferPool.dfy`, `Recycling.dfy` | runs of the pool: accounting, the cache limit, and exactly when the cache is invisible |
| `TimerHeap.dfy`, `TimerQueue.dfy` | the timer heap, the drain loop and the epoll timeout |
| `FdTable.dfy`, `SingleResume.dfy`, `Stranded.dfy` | the descriptor table and the kernel's interest set; awaiters, table and timers together: who is resumed at most once, and who can still be resumed |
| `Rearm.dfy` | a handler that writes itself back into the descriptor vector through its old reference |
| `AsyncQueue.dfy` | the mutex and eventfd hand-off, with its handler's slot |
| `Aio.dfy`, `AioWakeUps.dfy`, `AioHandler.dfy` | re-entrant submission and harvest of kernel AIO, which completions reach their callbacks, and the handler's slot |
| `Common.dfy` | an option type, counting of occurrences, sequences without repetition |

Operations that update an object in place are classes whose methods are proved against functions of
the old state. Protocols whose steps belong to different threads, callbacks or nested calls are state
machines over values; their main results are about the states of every run from the initial one.

## Where the code and its intent differ

The model follows the code. Each difference is stated with the exact condition under which it shows.

- `release` compares with the limit the wrong way round: the cache stays empty unless a block as long
  as the whole limit is released, and an insertion always leaves at least the limit in the cache
  (`WrittenCacheStaysEmptyIff`, `WrittenInsertionReachesLimit`). The evident intent is a second policy
  of the model (`IntendedBound`).
- The packed key keeps 24 bits of the block length in alignment units, so two blocks share a key
  exactly when their lengths agree modulo 2^(24 + align_bit) (`KeysAgreeIff`, `KeyLosesHighBits`). The
  cache is invisible to clients exactly when no block that can reach it shares its key with a request
  for another length (`TransparentIff`, `PoolTransparentIff`); with the real limit a request for 1 GiB +
  1 KiB can be answered with 1 KiB (`ShortBlock`).
- The 16-bit offset fields place frame byte `align_off` on an aligned address exactly up to an
  exponent of 16 (`AlignmentPointIff`, `AlignmentFailsAt`).
- A header can make the receiver write outside its buffer, in two ways. Some headers overrun even a block
  that was allocated for them (`FreshFaultsIff`): for frames of an ordinary length exactly when `align_off`
  is positive and the exponent is 32 or more, or is 31 and the frame reaches beyond the alignment point
  (`OrdinaryFreshFaultsIff`, `ExponentBelow32Faults`); `Overruns` adds lengths below 2, offsets beyond the
  frame and lengths near 2^32. The others are handed a recycled block that shares their key and is too
  short. Over all histories of the pool these two are the only ways (`PoolFaultsIff`); with the real limit
  a frame of 1 GiB + 1 KiB can be put into 1 KiB (`RecycledBlockFaults`). Lists of well-formed frames
  arrive in order in every run exactly when the second way is closed (`ArrivalIff`).
- `recv_request2` overruns under the same condition on its own, different, write length (`BreaksIff`,
  `WritesDifferIff`).
- `send_lazy` registers two timers when it has a timeout, and the first one outlives the awaiter; a named
  awaiter with a timeout keeps its timer after its descriptor has resumed it. Both get called again
  (`DanglingTimerIff`, `UnsafeStartFails`, `SendLazyTimesOutAfterItsEnd`), and starts that avoid both are
  safe (`EveryAwaiterIsResumedOnce`).
- `recv_request2` reports an empty payload as a closed stream (`CompletesAlikeIff`) and rewrites header
  byte 5 (`FusedAgreesWithComposed`).
- A detached frame is freed at its end exactly if its task returns nothing, it was detached before it
  finished, and no exception left it (`DetachedFrameIsFreedIff`, `DetachedValueTaskLeaks`). An exception
  that leaves a spawned task stops the loop and leaves its frame behind (`ControlTransferIsSafe`).
- A task dropped while it waits on a descriptor leaves a handle behind that can be resumed; a handle
  dangles exactly when that happened (`DanglingIff`, `AbandonedFrameIsResumed`).
- The timeout passed to epoll is wrong exactly when the earliest timer is overdue by so many
  milliseconds that the number wraps in 32 bits to a positive one (`OversleepsIff`, `OversleepsAt`). It is
  the longest safe wait of at most 100 ms exactly unless the time to the earliest timer leaves the 32-bit
  range on either side and wraps across the clamp (`LongestWaitIff`).
- A suspended awaiter without a timer waits for ever exactly if its slot was taken away: by a cancellation,
  by another awaiter on the same descriptor and direction, or by the timeout of one (`CanResumeIff`,
  `CancelledReceiverIsStranded`). A sleeper whose duration is not positive registers no timer and never
  wakes (`SleeperWakesIff`). A descriptor stays watched by epoll after its awaiter was resumed, until
  something cancels it (`WatchedIff`).
- The AIO handler reads the eventfd and then waits in `io_getevents` for a completion, without a timeout. A
  completion harvested before its announcement is read leaves an announcement with nothing behind it; the
  loop's thread then hangs for ever, exactly if a harvest begins while the kernel holds no request
  (`HangsIff`, `HungIsForever`); two requests are enough (`LoopHangs`). A harvest takes at most 256
  completions and forgets the announcements of the others, so that requests are left behind exactly if more
  of them are with the kernel than the harvests to come can take (`EverythingCanBeServedIff`).
- The eventfd handler re-arms itself through a reference into the descriptor vector. It is armed after a
  batch exactly when no function of the batch made the vector outgrow the capacity it had when the handler
  was called (`RearmedIff`, `HandlerIsLostIff`); otherwise work queued behind it is never run
  (`EverythingPushedIsExecutedIff`, `DoomedForever`, `WakeUpIsLost`). The AIO handler is lost under the same
  condition on its callbacks, at any depth of re-entrancy (`AioHandler.HandlerIsLostIff`).

## Model

| member | source | states |
|---|---|---|
| `Coroutine.MachineRefinesNestedCalls` | coio/task.h:296-420 | in every state of every run each spawned task has the trace, await outcomes and final outcome of direct recursive evaluation of its body on the answers it was given; a parked task is one whose direct evaluation waits for its next answer |
| `Coroutine.ControlTransferIsSafe` | coio/task.h:31-117 | control only goes to a frame that exists and can go on, no frame executes twice at once, parent pointers lead to the no-op without repetition; a task that is over has a frame left if and only if an exception left it, and the loop has stopped if and only if that happened |
| `Coroutine.AwaitKeeps` | coio/task.h:304-313 | creating a child, setting its parent and transferring to it continues the direct evaluation of the awaiting task |
| `Coroutine.FinalKeeps` | coio/task.h:53-80 | storing the outcome and transferring to the parent, or destroying a detached frame after reading its continuation, continues the direct evaluation |
| `Coroutine.EscapeKeeps` | coio/task.h:220-230 | an exception rethrown from a detached task is the outcome of its direct evaluation; the frame is kept, the loop is left, and every other task keeps its meaning |
| `Coroutine.ResumeKeeps` | coio/task.h:386-403 | the awaiting frame reads the child's value or exception and the child's frame is destroyed with the temporary task |
| `Coroutine.AddRootKeeps` | coio/io_context.h:27-32 | adding a task keeps the shape of all frames and stacks and the meaning of every task |
| `Coroutine.WakeKeeps` | coio/io_awaiter.h:24-32 | an I/O awaiter resumes the innermost frame of its task with the answer, also from inside another coroutine |
| `Coroutine.AwaitPushesCaller` | coio/task.h:309-313 | evaluating an await recursively equals pushing the awaiting body on the chain of callers |
| `NestedCalls.ResumeCallNests` | coio/io_context.h:27-32 | over every run, from the entry of a `resume()` call until its return nothing below it on the native stack moves, and at its return its task is parked or over |
| `NestedCalls.TopActs` | coio/task.h:304-313 | a step of the frame in control leaves every waiting `resume()` call alone and keeps its own entry for the same task |
| `Spawning.SpawnEntersChild` | coio/io_context.h:27-32 | over every run, when the frame in control spawns a task, the next state has exactly one task more, with that body, and its fresh frame is on top of the native stack, right above the spawning frame, which goes on from its next state when the call returns |
| `Spawning.TasksAreBirths` | coio/io_context.h:27-32 | over every run the tasks correspond one to one, with their bodies and in order, to what the loop started and what coroutines spawned, and their traces together tell of exactly as many spawned tasks |
| `Spawning.AnswersAreDelivered` | coio/io_awaiter.h:24-32 | over every run each task has been given exactly the answers with which its frames were woken, in order |
| `FrameLifetime.FramesAreDestroyedOnce` | coio/task.h:317-353 | no frame is destroyed twice, every handle still in use refers to a live frame unless its owner abandoned it, and an undetached frame lives exactly as long as its single owner |
| `FrameLifetime.EachFrameLivesItsLife` | coio/task.h:317-439 | over every run each frame is held by exactly the task object that creation, moves, assignments and swaps passed it to, and is destroyed exactly when that object is dropped or assigned to, or when, detached and without value, it finishes |
| `FrameLifetime.StatusIsHistory` | coio/task.h:31-117 | over every run a frame begins at most once and ends at most once, and each suspension is followed by at most one resumption, as its status says |
| `FrameLifetime.EveryFrameCanBegin` | coio/io_context.h:27-32 | every frame that is alive and not started, owned or detached, can be begun, and then it executes |
| `FrameLifetime.DetachedFrameIsFreedIff` | coio/task.h:54-74 | exactly when a detached frame that finished has been destroyed |
| `FrameLifetime.DetachedValueTaskLeaks` | coio/task.h:427-434 | a run that leaves the frame of a detached task with a value behind |
| `FrameLifetime.DanglingIff` | coio/task.h:347-353 | over every run, a handle registered to resume a frame dangles if and only if the frame's owner was destroyed while the frame was suspended on something that does not notice |
| `FrameLifetime.ResumesDeadFrame` | coio/io_awaiter.h:99-105 | a destroyed frame is resumed only if a handle dangles, and every dangling handle can be resumed next |
| `FrameLifetime.AbandonedFrameIsResumed` | coio/task.h:347-353 | a run in which a frame is resumed after its destruction |
| `FrameLifetime.MoveNewKeeps` | coio/task.h:323-326 | moving a task object keeps owners unique and every owned frame alive |
| `FrameLifetime.MoveAssignKeeps` | coio/task.h:332-344 | move assignment, also to itself, keeps owners unique, owned frames alive and destructions single |
| `FrameLifetime.SwapKeeps` | coio/task.h:436-439 | swapping keeps owners unique and every owned frame alive |
| `FrameLifetime.DropKeeps` | coio/task.h:347-353 | dropping an owner, also of a suspended frame, keeps the invariant: nothing is destroyed twice or while owned elsewhere |
| `FrameLifetime.DetachKeeps` | coio/task.h:427-434 | detaching keeps the invariant: the frame stays alive, is marked if and only if its task returns nothing, and can be begun by the loop if it was not started |
| `FrameLifetime.RunKeeps` | coio/task.h:206-230 | starting, suspending, resuming, finishing and throwing keep ownership, and a detached frame destroys itself only at its end |
| `FrameLifetime.BeginIsLive` | coio/io_context.h:27-32 | a handle given to the loop is alive when it is first resumed |
| `Receive.LazyFillsSpan` | coio/nio_awaiter.cpp:124-177 | for every span size and schedule the span holds exactly the bytes that arrived, never more than its size, and completes if it is full, an empty one at the first wake-up |
| `Receive.LazyReports` | coio/nio_awaiter.cpp:124-177 | as long as the span is not full: the result is 0 if and only if the first terminal event is a close, -1 if and only if it is an error, a hang-up or a timeout, and else it still waits |
| `Receive.CuttingDoesNotMatter` | coio/nio_awaiter.cpp:206-300 | two schedules that deliver the same bytes, and whose first terminal events are both a close, both a failure or both missing, leave the receiver in the same state, and no byte beyond the frame is taken |
| `Receive.ReceivesExactlyOneFrame` | coio/nio_awaiter.cpp:196-301 | the result is the frame length if and only if the whole frame arrived, and before that 0 if and only if the peer closed first, -1 if and only if an error, a hang-up or a timeout came first; the window holds exactly the bytes received |
| `Receive.EndIsReported` | coio/nio_awaiter.cpp:188-245 | the same at any byte and in any buffer: 0 means a close, -1 another terminal event, a terminal event that meets a waiting receiver is reported so, and every other result is a frame length |
| `Receive.FreshRoomyIff` | coio/nio_awaiter.cpp:247-263 | a frame of ordinary length has room in a block allocated for it if and only if it is well-formed |
| `Overrun.FaultsIff` | coio/nio_awaiter.cpp:262-268 | for any placement of frames some schedule writes outside the buffer if and only if the header bytes or the announced frame do not fit it |
| `Overrun.NoScheduleFaults` | coio/nio_awaiter.cpp:206-300 | with room for what the receiver writes, no schedule makes it leave its buffer |
| `Overrun.FreshFaultsIff` | coio/nio_awaiter.cpp:247-268 | in a block allocated for it, for each of the 2^48 headers, exactly when some schedule writes outside the buffer |
| `Overrun.OrdinaryFreshFaultsIff` | coio/nio_awaiter.cpp:247-268 | the same for frames of ordinary length, as a condition on the offset and the exponent |
| `Overrun.ExponentBelow32Faults` | coio/byte_buffer.cpp:125-143 | a header with exponent 31 that makes the receiver write outside its buffer |
| `Placement.PoolFaultsIff` | coio/byte_buffer.cpp:123-158 | for any set of headers that the connections of a context receive, over all histories of its pool and all schedules: some receiver writes outside its buffer if and only if one of the headers overruns a fresh block, or a block for one of them can reach the cache, shares its key with another and is too short for it |
| `Placement.HistoryFaultsIff` | coio/nio_awaiter.cpp:247-268 | the same for one header in a context, for any way to compute lengths and keys |
| `Placement.OrdinaryFaultsIff` | coio/nio_awaiter.cpp:247-268 | the same for one header of ordinary length, as a condition on the offset, the exponent and recycled blocks |
| `Placement.RoomyIff` | coio/nio_awaiter.cpp:247-263 | every block that the pool can hand out for a frame of ordinary length has room for it if and only if the frame is well-formed and no recycled block can be too short |
| `Placement.RecycledBlockFaults` | coio/io_context.h:22 | with the limit of 32 MiB, a header that fits its fresh block and overruns a recycled one |
| `Placement.TakesRoom` | coio/byte_buffer.cpp:133-145 | whatever the pool has been through, the block taken for a header that is not at risk has room for its frame |
| `Placement.InboxStepKeeps` | coio/nio_awaiter.cpp:206-264 | a receiver that takes its buffer when its header is complete behaves as one that had it from the start |
| `Composed.FusedAgreesWithComposed` | coio/nio_awaiter.cpp:313-348 | whichever blocks the pool hands to them, as long as none can be too short, fused and composed receiver accept the same schedules and give the same result and bytes at every moment, including a close, error or timeout at any byte; with a non-zero exponent their windows start alike, and without colliding requests their buffers are equally long |
| `Composed.ComposedAlignsIff` | coio/nio_awaiter.cpp:320-340 | on every schedule and in whichever block, a frame with an offset is placed so that byte `align_off` falls on a multiple of two to the exponent it asks for, a zero asking for 64 bytes, if and only if that exponent is at most 16; the window holds that exponent and otherwise the received bytes |
| `Composed.BreaksIff` | coio/nio_awaiter.cpp:329-342 | for any placement of frames some schedule makes the composed receiver write outside its buffer if and only if the header bytes or the second span do not fit it |
| `Composed.OrdinaryBreaksIff` | coio/nio_awaiter.cpp:326-342 | in a fresh block, for frames of ordinary length: if and only if the frame is not well-formed |
| `Composed.WritesDifferIff` | coio/nio_awaiter.cpp:342 | exactly the wire lengths for which the two receivers write a different number of bytes |
| `Composed.CompletesAlikeIff` | coio/nio_awaiter.cpp:342-347 | in any buffers with room, the composed receiver reports a complete frame as the fused one does if and only if it has a payload |
| `Composed.CompCutting` | coio/nio_awaiter.cpp:313-348 | the composed receiver depends only on the bytes delivered and the first terminal event |
| `Composed.CompEmptyPayload` | coio/nio_awaiter.cpp:342-345 | a frame without payload ends with result 0 after one more wake-up |
| `Transport.SendKeeps` | coio/nio_awaiter.cpp:350-399 | what reaches the channel is the next part of the buffer, and a positive result is its full length, with refusals and timeouts |
| `Transport.SendReports` | coio/nio_awaiter.cpp:350-399 | the result of a send is -1 if and only if it was refused, 0 if and only if it timed out, and else it still waits or everything was taken |
| `Transport.CompletedFrame` | coio/nio_awaiter.cpp:266-300 | a receiver on a stream of frames that reports success holds exactly the next frame |
| `Transport.FramesArriveInOrder` | coio/nio_awaiter.cpp:196-400 | for every list of well-formed frames that no recycled block can be too short for, and every interleaving with other clients of the pool, the decoded frames are the first frames sent, complete and in order, and all of them once everything is received |
| `Transport.ArrivalIff` | coio/nio_awaiter.cpp:196-400 | every list of frames from a set of well-formed frames arrives in order in every run if and only if no recycled block can be too short for one of them |
| `Transport.NoHazardIsSafe` | coio/byte_buffer.cpp:131-140 | without colliding requests no recycled block can be too short |
| `Transport.FramesThatCollide` | coio/io_context.h:22 | with the limit of 32 MiB, frames of 1 KiB and of 1 GiB + 1 KiB do not always arrive |
| `Transport.EveryFrameCanArrive` | coio/nio_awaiter.cpp:196-400 | from every state that satisfies the channel invariant, in which neither end has failed, the system can go on until every frame is decoded |
| `Transport.RunsCanBeCompleted` | coio/nio_awaiter.cpp:196-400 | every run over well-formed frames that no recycled block can be too short for, and in which neither end has failed, can be completed |
| `Echo.EchoReturnsWhatWasSent` | test/pp-request-serv.cpp:35-60 | for any frame and any number of rounds, with the client sending back its last reply, and whatever the server's other connections do to its pool: the server's output is a prefix of its input and every completed round returned the frame the client started with |
| `Echo.EchoCanFinish` | test/pp-request-client.cpp:33-50 | whatever schedule a run has followed, as long as neither end has failed the client can still go through all its rounds |
| `Echo.ServerHasWork` | test/pp-request-serv.cpp:35-60 | while the client waits and nothing is under way to it, the server has a request to finish and the bytes it lacks are under way |
| `Echo.OwnBlocksSuit` | test/pp-request-serv.cpp:35-60 | a server whose clients all send one frame never gets a block too short for it |
| `Echo.BenchmarkEchoes` | test/pp-request-client.cpp:23-51 | the same for the client's own buffer, for every length it can send |
| `Echo.ReplyIsRequest` | test/pp-request-client.cpp:33-50 | what the client has read in a round is a prefix of the frame it sent in that round |
| `Echo.DownIsPrefixOfHandled` | test/pp-request-serv.cpp:37-59 | the server never sends a byte it has not received |
| `Echo.ServerTurnKeeps` | test/pp-request-serv.cpp:37-54 | the window the server sends back is the frame it received |
| `Echo.ClientFrameIsFrame` | test/pp-request-client.cpp:25-30 | the client's buffer is a well-formed frame of the requested length, for every positive `int` length that holds a header |
| `NioAwaiter.RecvRequest.OnFileEvent` | coio/nio_awaiter.cpp:196-301 | the handler's fields after an event are the machine's state after exactly the results its calls returned; it is resumed with 0 if and only if its last call met the end of the stream, with -1 if and only if the event or its last call was an error, and it is re-armed, still waiting, if and only if its last call met EAGAIN |
| `NioAwaiter.RecvRequest.ReadHeader` | coio/nio_awaiter.cpp:208-264 | the header loop and the allocation compute the machine, and go on to the body after data, or else say why they stopped |
| `NioAwaiter.RecvRequest.ReadBody` | coio/nio_awaiter.cpp:266-300 | the body loop computes the machine, and its result says what its last call met |
| `NioAwaiter.RecvRequest.Serve` | coio/nio_awaiter.cpp:188-310 | over all file and timer events of an awaiter's life the bytes taken from the socket are the delivered ones, it still waits only if every event was served and left it so, the frame length is reported if and only if the window holds the whole frame, 0 if and only if the peer closed and -1 if and only if it failed |
| `NioAwaiter.RecvRequest.OnTimeEvent` | coio/nio_awaiter.cpp:188-194 | a timeout ends the machine with its initial result |
| `NioAwaiter.RecvLazy.OnFileEvent` | coio/nio_awaiter.cpp:132-177 | the loop computes the `recv_lazy` machine on the results its calls returned, its result says what its last call met, and a full span is complete without a call |
| `NioAwaiter.SendLazy.OnFileEvent` | coio/nio_awaiter.cpp:360-400 | the loop computes the `send_lazy` machine on exactly the results its calls returned, the bytes handed to the kernel continue the buffer, and it is re-armed if and only if it is still waiting |
| `NioAwaiter.SendLazy.OnTimeEvent` | coio/nio_awaiter.cpp:350-358 | a timeout ends the machine with result 0 |
| `NioAwaiter.FoldConcat` | coio/nio_awaiter.cpp:219-226 | an awaiter that is re-armed continues where the previous event left off |
| `Wire.LengthRoundTrip` | test/pp-request-client.cpp:28 | the length written in network order is the length the receiver parses |
| `Wire.HeaderUnits` | coio/byte_buffer.cpp:127 | the rounded header is a positive number of alignment units, one unit from 2^8 on |
| `Wire.DataBeginValue` | coio/nio_awaiter.cpp:258-259 | where the data window starts, with and without truncation to 16 bits |
| `Wire.WindowInsideIff` | coio/nio_awaiter.cpp:251-262 | a frame of ordinary length lies inside its buffer if and only if it is well-formed |
| `Wire.FitsIff` | coio/nio_awaiter.cpp:247-263 | for every header, what the receiver writes fits its buffer if and only if the header does not satisfy `Overruns` |
| `Wire.TotalWithHeader` | coio/byte_buffer.cpp:127-143 | the length of a block for a body of any length, and exactly when it wraps around to zero |
| `Wire.AlignmentPointIff` | coio/nio_awaiter.cpp:256-260 | frame byte `align_off` is aligned if and only if the exponent is at most 16 |
| `Wire.AlignmentFailsAt` | coio/nio_awaiter.cpp:256-260 | a frame that is received whole and misaligned |
| `BlockLayout.MaskExpression` | coio/byte_buffer.cpp:125-129 | the mask expression clears the remainder of the 32-bit sum |
| `BlockLayout.RoundMaskIsLeastMultiple` | coio/byte_buffer.cpp:125-128 | without overflow it is the least multiple of the alignment that is large enough |
| `BlockLayout.BodyIsLeast` | coio/byte_buffer.cpp:128-129 | the two roundings of the body give the least common multiple of alignment and 1024 that is large enough |
| `BlockLayout.BodyValue` | coio/byte_buffer.cpp:128-129 | for a body of any length: the least multiple of the unit that holds it, or zero once that would reach 2^32 |
| `BlockLayout.LayoutIsLeast` | coio/byte_buffer.cpp:125-131 | header and body are least, and the total is their sum and a multiple of the alignment |
| `BlockLayout.TotalIsAligned` | coio/byte_buffer.cpp:125-131 | the total is a multiple of the alignment even where the computation wraps around |
| `BlockLayout.AioReadBufferIff` | coio/io_context.h:41-47 | the buffer of a disk read is a multiple of 4096 long, and holds the read if and only if its length is at most 2^32 - 4096 |
| `BlockLayout.KeyExpression` | coio/byte_buffer.cpp:131 | the expressions of the lookup and of the block compute the same key: the low 24 bits of the unit count next to the alignment exponent |
| `BlockLayout.KeyFields` | coio/byte_buffer.cpp:18-21 | both parts of a key can be read back |
| `BlockLayout.KeysAgreeIff` | coio/byte_buffer.cpp:18-21 | exactly when two blocks have the same key |
| `BlockLayout.KeysDetermine` | coio/byte_buffer.cpp:18-21 | below 2^(24 + align_bit) equal keys mean equal alignment and length |
| `BlockLayout.KeyLosesHighBits` | coio/byte_buffer.cpp:131 | two requests with different totals and the same key |
| `BufferPool.Pool.Malloc` | coio/byte_buffer.cpp:123-146 | a cached block under the looked-up key if there is one, or else a fresh one of the computed length, with the rounded header and an empty window; the accounting is kept |
| `BufferPool.Pool.ReleaseBlock` | coio/byte_buffer.cpp:148-158 | the block is freed if the cached bytes with it stay below the limit, and is else filed under its own key; the accounting is kept |
| `BufferPool.MallocKeepsInv` | coio/byte_buffer.cpp:133-145 | `malloc` keeps every block in exactly one place and the byte count exact |
| `BufferPool.ReleaseKeepsInv` | coio/byte_buffer.cpp:148-158 | `release` keeps every block in exactly one place and the byte count exact |
| `BufferPool.EveryBlockIsFreedOnce` | coio/byte_buffer.cpp:105-111 | once the clients hold nothing, destroying the pool leaves every block freed exactly once, and the byte count never was negative |
| `BufferPool.IntendedBound` | coio/byte_buffer.cpp:113-117 | with the intended comparison the cached bytes never exceed the limit |
| `BufferPool.WrittenInsertionReachesLimit` | coio/byte_buffer.cpp:150-157 | with the written comparison every insertion leaves at least the limit cached |
| `BufferPool.WrittenCacheStaysEmptyIff` | coio/byte_buffer.cpp:148-158 | with the written comparison the cache stays empty if and only if no released block is as long as the limit |
| `Recycling.TransparentIff` | coio/byte_buffer.cpp:123-158 | for both comparisons, any limit and any set of requests: every `malloc` of every run returns what fresh allocation at that address would, if and only if no block that can reach the cache shares its key with a request for another length |
| `Recycling.PoolTransparentIff` | coio/byte_buffer.cpp:123-158 | the same for the pool's own lengths and keys, as a condition modulo 2^(24 + align_bit) |
| `Recycling.PoolIsTransparent` | coio/byte_buffer.cpp:123-146 | over every run in which no two requests collide each `malloc` returns what fresh allocation at that address would |
| `Recycling.ClashIff` | coio/byte_buffer.cpp:131 | two requests share a key for different lengths if and only if their alignments are equal and their totals differ and agree modulo 2^(24 + align_bit) |
| `Recycling.CollisionShows` | coio/byte_buffer.cpp:123-158 | any two requests that collide are told apart from fresh allocation once some block reaches the limit |
| `Recycling.ShortBlock` | coio/io_context.h:22 | with the limit of 32 MiB, a run in which a request for 1 GiB + 1 KiB is answered with 1 KiB |
| `Recycling.MallocIsFresh` | coio/byte_buffer.cpp:133-145 | without such a pair, a hit and a miss alike return a block as fresh allocation makes it |
| `TimerHeap.PushHeap` | coio/io_loop.h:395-396 | heap order is restored and the contents kept |
| `TimerHeap.PopHeap` | coio/io_loop.h:223-225 | the root goes to the end, the rest is a heap, the contents are kept |
| `TimerHeap.MakeHeap` | coio/io_loop.h:407-408 | any vector becomes a heap with the same contents |
| `TimerHeap.RootIsLeast` | coio/io_loop.h:78-81 | in heap order no timer is due before the root |
| `TimerQueue.Queue.DelayCall` | coio/io_loop.h:387-399 | exactly one timer is added, with the deadline and callback asked for and an id larger than all before |
| `TimerQueue.Queue.CancelDelay` | coio/io_loop.h:401-410 | afterwards no pending timer has that id, every other timer is as it was, and what was removed is recorded as cancelled |
| `TimerQueue.Queue.FireRoot` | coio/io_loop.h:222-225 | the due root is taken off and recorded as fired |
| `TimerQueue.Queue.Drain` | coio/io_loop.h:220-229 | the events of the loop and its callbacks lead from the old state to the new one, fired timers are due at their clock reading, and when the loop ends nothing pending is due, whatever the callbacks added or cancelled |
| `TimerQueue.TimersFireOnceInOrder` | coio/io_loop.h:220-229 | pending is added less fired less cancelled, no timer ends twice, and a fired timer is due and has the least deadline pending |
| `TimerQueue.LateCancelChangesNothing` | coio/io_loop.h:401-410 | cancelling a timer that fired or was cancelled changes nothing |
| `TimerQueue.CancelRemoves` | coio/io_loop.h:401-410 | cancelling leaves no pending timer with that id and every other timer as it was |
| `TimerQueue.CancelledNeverFires` | coio/io_loop.h:401-410 | over every run, once an id that was handed out has been cancelled, nothing with that id fires |
| `TimerQueue.AddAddsOne` | coio/io_loop.h:387-399 | adding leaves exactly one new timer pending, as asked for, and every other timer as it was |
| `TimerQueue.AddedAsAsked` | coio/io_loop.h:387-399 | over every run the timers ever added are exactly those asked for, with their deadline, callback and running number |
| `TimerQueue.NothingDue` | coio/io_loop.h:220 | when the loop condition fails no pending timer is due |
| `TimerQueue.LongestWaitIff` | coio/io_loop.h:138-148 | the timeout is 100 without a timer, and else the longest safe wait of at most 100 ms if and only if the time left does not wrap across the clamp |
| `TimerQueue.OversleepsIff` | coio/io_loop.h:138-148 | exactly when the wait may last past a pending deadline |
| `TimerQueue.OversleepsAt` | coio/io_loop.h:138-148 | an overdue timer for which the loop waits |
| `FdTable.Table.WaitFd` | coio/io_loop.h:320-369 | the direction is watched with the new callback, in the table and in the kernel, and the other direction and every other descriptor are as they were; no epoll call fails |
| `FdTable.Table.CancelEv` | coio/io_loop.h:240-274 | the given directions are no longer watched, in the table and in the kernel, and the other direction and every other descriptor are as they were; no epoll call fails |
| `FdTable.Table.TakeWaiter` | coio/io_loop.h:200-217 | dispatch takes the callback out, and the asserted bit is set |
| `FdTable.KernelIsShadowed` | coio/io_loop.h:291-318 | the kernel's interest set equals the masks of the table |
| `FdTable.WaitKeepsOthers` | coio/io_loop.h:348-365 | waiting registers the callback, watches that direction, and leaves the other direction and every other descriptor alone |
| `FdTable.CancelStopsExactly` | coio/io_loop.h:255-273 | cancelling stops exactly the given directions of one descriptor |
| `FdTable.CancelKeepsOthers` | coio/io_loop.h:255-273 | cancelling one direction never disturbs the other's waiter or another descriptor |
| `FdTable.ViewIsWellWatched` | coio/io_loop.h:202-216 | a registered callback implies that its bit is set |
| `SingleResume.EveryAwaiterIsResumedOnce` | coio/io_loop.h:161-229 | if no awaiter registers two timers and no named awaiter of a descriptor has one, no awaiter is called after it was resumed or resumed twice, and table and timers refer to suspended awaiters only |
| `Stranded.CanResumeIff` | coio/io_loop.h:161-229 | over every run, a suspended awaiter can be resumed by the next event if and only if it has a timer, or waits on a descriptor and nothing has displaced it since its start |
| `Stranded.StandingIff` | coio/nio_awaiter.cpp:219-226 | over every run, a suspended awaiter stands in the slot of its descriptor and direction, through any number of EAGAINs, if and only if nothing has displaced it |
| `Stranded.SleeperWakesIff` | coio/io_awaiter.h:73-97 | over every run, a suspended sleeper can be resumed if and only if its duration was positive |
| `Stranded.CancelledReceiverIsStranded` | coio/io_loop.h:240-274 | a run that leaves a receiver without a timeout suspended for ever |
| `Stranded.WatchedIff` | coio/io_loop.h:161-274 | over every run, epoll watches a direction if and only if some awaiter began to wait there and no cancellation, connect error or timeout has stopped it since |
| `SingleResume.DanglingTimerIff` | coio/nio_awaiter.cpp:402-410 | as written, a timer refers to an awaiter that was resumed if and only if a `send_lazy` with a timeout was resumed, or a named awaiter with a timeout was resumed by its descriptor and lives on |
| `SingleResume.UnsafeStartFails` | coio/io_awaiter.h:73-105 | every other way to start an awaiter has a run in which it completes and its timer then calls it |
| `SingleResume.SendLazyTimesOutAfterItsEnd` | coio/nio_awaiter.cpp:402-410 | a schedule in which the loop calls a `send_lazy` that is over |
| `SingleResume.StartKeeps` | coio/io_awaiter.h:73-79 | constructing and suspending an awaiter registers it with its own descriptor, direction and timers |
| `SingleResume.FileEventKeeps` | coio/io_loop.h:202-216 | a ready event calls a suspended awaiter, which is resumed for the only time while all others stay as they were, or, if it met EAGAIN, is back in its slot with nothing changed |
| `SingleResume.ErrorEventKeeps` | coio/io_loop.h:176-198 | an error event resumes a suspended awaiter for the only time and leaves all others as they were |
| `SingleResume.TimerEventKeeps` | coio/nio_awaiter.cpp:124-130 | a timer event is safe if and only if its awaiter is still suspended |
| `SingleResume.EndKeeps` | coio/io_awaiter.h:99-105 | the destructor of a named awaiter cancels the timer it knows of and leaves everything else alone |
| `AsyncQueue.HandOffIsExactlyOnce` | coio/io_loop.h:412-476 | what was pushed is what was executed, what is swapped out and what is queued, in order; queued work has a wake-up delivered, promised or being served, whatever the functions do to the descriptor vector |
| `AsyncQueue.EveryCallHasItsSignal` | coio/io_loop.h:112-129 | over every run woken only by a positive counter, each call of the handler is backed by a signal of its own |
| `AsyncQueue.RearmedIff` | coio/io_loop.h:112-129 | the handler is in its slot after a batch if and only if the whole batch fitted the descriptor vector |
| `AsyncQueue.HandlerIsLostIff` | coio/io_loop.h:320-326 | over every run, the handler is lost if and only if some function outgrew the vector |
| `AsyncQueue.EverythingPushedIsExecutedIff` | coio/io_loop.h:112-129 | from every state without a producer in mid-call, the loop alone, woken only by a positive counter, can execute everything, in exactly the stated number of steps, if and only if the work is not queued behind a lost handler |
| `AsyncQueue.DoomedForever` | coio/io_loop.h:112-129 | work queued behind a lost handler stays queued whatever any thread does |
| `AsyncQueue.WakeUpIsLost` | coio/io_loop.h:85-128 | a run with queued work and a readable eventfd that nobody will serve |
| `AsyncQueue.StepKeeps` | coio/io_loop.h:112-129 | every atomic step of every thread keeps order, exactly-once, the wake-up condition and the state of the handler's slot |
| `Aio.CompletionsAreConserved` | coio/fd_aio.cpp:71-125 | at any depth of re-entrancy each request gets its callback at most once, and when no call is in progress the counters differ by what the kernel holds and all else was dispatched |
| `Aio.EveryCallIsAccountedFor` | coio/fd_aio.cpp:63-125 | over every run, every request asked for was taken by the kernel or its `submit` is still trying, a request leaves the kernel only after the kernel completed it, and every completion was announced once: to a call of the handler, on the eventfd or yet to be |
| `AioWakeUps.HangsIff` | coio/fd_aio.cpp:63-98 | over every run, the loop's thread waits for a completion that cannot come if and only if some harvest began while the kernel held no request |
| `AioWakeUps.HungIsForever` | coio/fd_aio.cpp:71-98 | from then on nothing is dispatched and the stack stays as it is |
| `AioWakeUps.LoopHangs` | coio/fd_aio.cpp:63-69 | a run with two requests that hangs |
| `AioWakeUps.EverythingCanBeServedIff` | coio/fd_aio.cpp:71-125 | in every reachable state, at any depth of re-entrancy, all requests made so far can get their callbacks without a new one being made if and only if the thread is not hung and, once no `submit` is in progress, the kernel holds at most 256 requests for each harvest still to come |
| `Aio.HarvestKeeps` | coio/fd_aio.cpp:75-78 | a harvest moves completions from the kernel to the batch without loss |
| `Aio.CallbackKeeps` | coio/fd_aio.cpp:80-84 | each completion of a batch goes to its callback once |
| `Aio.FetchDoneKeeps` | coio/fd_aio.cpp:86-87 | the response counter is advanced by the batch after its callbacks returned |
| `Aio.AcceptedKeeps` | coio/fd_aio.cpp:104-109 | an accepted request is counted and held by the kernel |
| `Aio.PushKeeps` | coio/fd_aio.cpp:100-117 | a submission, and a harvest forced by a full queue, may start inside a callback |
| `AioHandler.HandlerIsLostIff` | coio/fd_aio.cpp:63-69 | over every run and at any depth of re-entrancy, the handler is in its slot outside all calls if and only if no callback that ran inside it outgrew the descriptor vector |
| `AioHandler.LostHandlerIsSilent` | coio/fd_aio.cpp:63-69 | a lost handler is never called again |
| `Rearm.LostIff` | coio/io_loop.h:200-217 | for any handler that writes itself back through its reference: lost if and only if code run inside it outgrew the vector |
| `Rearm.CapacityIsHistory` | coio/io_loop.h:320-326 | over every run the descriptor vector holds every slot ever used, its capacity is the first one or one it had to grow to, and a running handler compares with the capacity it was called at |

## Left out

- `accept`: it goes on using the awaiter after resuming it, so it has no clean end of life.
- `connect`: only its registration and resumption are modelled (in `SingleResume`); its result, and calls that do not return EINPROGRESS, are not.
- Awaiters constructed long before their `co_await`, or destroyed while suspended: in `SingleResume` construction and suspension are one step, and a named awaiter ends after its resumption.
- The order in which `run` visits the events of one batch, and the reference that `run` itself keeps across callbacks that grow the table: dispatch is modelled slot by slot, by index; only the two eventfd handlers write through their reference.
- The protocols in `Coroutine`, `FrameLifetime`, `SingleResume`, `AsyncQueue` and `Aio` are machines over values: their objects are entries of maps, so aliasing of C++ references is not captured.
- Buffer memory is a sequence of bytes inside the receiver's state; sharing of one buffer between objects is not captured.
- `FrameLifetime.FramesAreDestroyedOnce`: assumes that an owner is not destroyed while its frame is executing; objects that live inside a frame are dropped by steps of their own.
- `Coroutine.MachineRefinesNestedCalls`: tasks are awaited where they are created; awaiting one task several times or from several places is not modelled; after an exception has left a spawned task, nothing more of the loop is modelled.
- `Recycling.PoolIsTransparent`: assumes that `aligned_alloc` succeeds; blocks are told apart by a number, not by their address.
- `TimerQueue.TimersFireOnceInOrder`: the id counter is unbounded; 2^31 timers in one loop are not modelled.
- Overflow of `int` in `recv_request` for wire lengths just below 2^31 is taken to wrap, and shifts by 32 or more are a fault of the model.
- Fairness of the scheduler and of the kernel: progress is stated, for the hand-off queue, the byte channel, the echo and kernel AIO, as what can still happen.
- `AioWakeUps.EverythingCanBeServedIff`: takes the handler to be in its slot; when that is lost is stated in `AioHandler`.
- Conversion of seconds to nanoseconds, data races on the flags of the loop, and the C++ memory model.
- Address parsing, logging, clocks, signal handling, file awaiters and the benchmark programs other than the request echo.
