# Verified models of the IOCP game-server engine

This project models the hard core of the engine in `CppNetEngine` and proves what it
relies on:

- **Lock-free containers.** `LockFreeQueue`, and the counted stack that is both
  `LockFreeStack` and the free list of `ObjectPool`, are step machines: each shared
  read, compare-and-swap and fetch-and-add is one step, any number of threads take
  steps in any order, and a schedule also decides which compare-and-swaps fail
  spuriously. The theorems speak of every schedule. `ChunkPool` is the per-thread chunk
  discipline of `TlsObjectPool` and `MemoryPool`.
- **Timing wheel.** `TimingWheelSpec` says what the three-level wheel computes and
  proves that it refines a plain list of deadlines, and `TimingWheelRuns` which runs Tick
  makes; `TimingWheel` is the class, its fields updated in place, each method proved
  against the specification, with the real-time bounds of `Tick`.
- **Sender.** The send-ownership protocol as a step machine: order, exactly-once
  submission and the absence of lost wakeups over whole runs.
- **Receive path.** The ring buffer and the scatter layout over its free space as
  classes over an array; the framing loop and the frame printer, and how they undo each
  other.
- **Admission.** Seats, wait tickets and session states as one step machine over
  `Session`, `Service`, `SessionManager` and `WaitQueueManager`.

Each step machine keeps, beside the program's fields, history that no branch reads
(the chain of linked nodes, who holds a node, what was popped); the theorems relate the
two.

The modules named `...Calls` start from whole calls. Every call's argument and answer is
accounted for against the container, by a log kept beside the run that the machine does
not see (`Calls`); and a call that no other thread disturbs comes to its end, with the
effect of the sequential object. `Runs` says what a run under a schedule is; `Threads`
counts the threads that stand in a region of the code, which is what the gate arguments
of the counters need.

## Where the code does not do what it seems to promise

- `setSessionWaiting` (`CppNetEngine/Session.cpp:221-225`) replaces Disconnected by
  Disconnected, so no session is ever in state Waiting, and a session that is in the wait
  queue stays Disconnected for ever (`Admission.WaitQueueNeverAdmits`). Taken out of the
  queue it gets the kept seat, is not connected, and loses the seat again
  (`Admission.AdmissionIsUndone`; `Admission.AdmissionIsReached` follows a run to the seat and
  out of it again).
- `Receiver::Process` (`CppNetEngine/Receiver.cpp:47-48`) hands the session as many bytes
  as were just received, in a straight line from the read position. These are the unread
  bytes if and only if nothing was unread before and the bytes do not run past the end of
  the ring (`Receiver.ProcessPresentsUnreadExactlyWhen`; `Receiver.SplitDelivery` plays it
  through).
- The ring of 65535 cells holds 65534 bytes, so the largest frame that is printed and that
  the framing accepts, with a payload of 65529 bytes, never arrives: no prefix of it that the
  ring can hold is dispatched, and with the ring full `Register` refuses. Every shorter
  frame fits (`PacketSession.FrameFitsRingExactlyWhen`).
- A timer's delay is counted from the last tick, not from the call, so a timer can fire
  early (`TimingWheel.EarlyExample` is such a run). While Tick keeps pace, a delay is
  safe from this if and only if it is a whole number of tick intervals and no more than
  the largest delay (`TimingWheel.NeverEarlyExactlyWhen`).
- `MakeSendBuffer` computes the frame's size in 16 bits; the size field is the frame's
  length if and only if the payload has at most 65529 bytes
  (`PacketSession.SizeFieldExactlyWhen`). For a payload of 65530 to 65535 bytes, and
  whenever the low 16 bits of its size are in that range, less than a header is reserved
  and what is written runs past it (`PacketSession.WritesFitExactlyWhen`,
  `PacketSession.OverrunExample`); any other payload above 65535 bytes stops the program.
- The capacity test of queue and stack and the increment are separate steps. Threads
  together can exceed the maximum by as many elements as there are further threads, and
  a maximum of at least one is respected in every run if and only if there is one thread
  (`SoftCapacityIsTight` and `CapacityHoldsExactlyWhen` in `LockFreeQueueCalls` and
  `CountedStackCalls`). With a maximum of zero or less, pops not yet undone bring the counter
  below it and let elements in.
- `TryDequeue` and `TryPop` can answer that the container is empty though it holds an element
  that its producer has counted and nobody has reserved, because another thread's failed
  decrement is not undone yet. The answer can be relied on in every run if and only if there
  is at most one thread, or maximum and threads together are at most one
  (`EmptyAnswerCanBeWrong` and `EmptyAnswerHoldsExactlyWhen` in `LockFreeQueueCalls` and
  `CountedStackCalls`).
- The comment on the third level's mask says 0x3F (`CppNetEngine/TimingWheel.h:51`); the
  code computes 0x7F, which is what the model uses.

## Model

| member | source | states |
|---|---|---|
| LockFreeQueue.QueueIsFifo | CppNetEngine/LockFreeQueue.h:52-125 | for any capacity, threads and schedule: no null is followed, the k-th value handed out is the k-th linked, the head is the dequeued-count-th node of a duplicate-free chain, never passes the tail, and the tail lags the last node by at most one |
| LockFreeQueue.StepRefinesFifo | CppNetEngine/LockFreeQueue.h:52-125 | every step appends the argument of the call that linked, or removes the front and returns it, or leaves the abstract queue alone |
| LockFreeQueue.ReservedWithinReach | CppNetEngine/LockFreeQueue.h:84-88 | dequeuers let through by the counter never outnumber the nodes between head and tail |
| LockFreeQueue.ContinueNeverCommits | CppNetEngine/LockFreeQueue.h:97-120 | an expected/desired pair left over by `continue` that is not node-and-successor never matches the head |
| LockFreeQueue.CompareLocal | CppNetEngine/LockFreeQueue.h:97-103 | whichever of head and tail is read first, they are seen equal only after the head has moved past the last expected value |
| LockFreeQueue.CandidateLocal | CppNetEngine/LockFreeQueue.h:104-118 | the separate reads of count, node, successor and value yield the true successor and its value, or a pair that is stale |
| LockFreeQueue.AdvanceShape | CppNetEngine/LockFreeQueue.h:156-174 | after moveTail's compare-and-swap, won or lost, the tail stands on the chain past the position the thread saw |
| LockFreeQueue.LinkShape | CppNetEngine/LockFreeQueue.h:62-72 | linking on a null next pointer links behind the last node, to which the tail has then caught up but for one |
| LockFreeQueue.StepInv | CppNetEngine/LockFreeQueue.h:52-174 | every step of every thread keeps chain, ends, gate balance and what each thread relies on |
| LockFreeQueue.SoftCapacity | CppNetEngine/LockFreeQueue.h:54-76 | at most max - 1 + threads elements are linked and not dequeued |
| LockFreeQueueCalls.SoftCapacityIsTight | CppNetEngine/LockFreeQueue.h:54-76 | for every maximum and number of threads a run puts max - 1 + threads elements (if that is positive) into the queue |
| LockFreeQueueCalls.CapacityHoldsExactlyWhen | CppNetEngine/LockFreeQueue.h:54-88 | no run exceeds the maximum (zero if negative) if and only if there is at most one thread or max + threads <= 1 |
| LockFreeQueueCalls.TwoThreadsExceedOne | CppNetEngine/LockFreeQueue.h:54-76 | with room for one element, a run of two threads puts two into the queue |
| LockFreeQueue.EmptyAnswer | CppNetEngine/LockFreeQueue.h:84-88 | TryDequeue answers false exactly without a count left; the elements then neither reserved nor still to be counted are at most one per decrement to be undone |
| LockFreeQueueCalls.EmptyAnswerCanBeWrong | CppNetEngine/LockFreeQueue.h:84-88 | for every maximum with enough threads, a run in which an element that nobody speaks for is in the queue and TryDequeue answers false |
| LockFreeQueueCalls.EmptyAnswerHoldsExactlyWhen | CppNetEngine/LockFreeQueue.h:84-88 | no run gives that wrong answer if and only if there is at most one thread or max + threads <= 1 |
| LockFreeQueueCalls.EveryCallCounts | CppNetEngine/LockFreeQueue.h:52-125 | in every run the arguments of all TryEnqueue calls are, with multiplicity, those answered false, those still carried and those linked; every TryDequeue was answered false, is still asking, or popped one element |
| LockFreeQueueCalls.LinkAppendsArgument | CppNetEngine/LockFreeQueue.h:52-67 | in every run a link appends the argument that the linking thread's own call was made with |
| LockFreeQueueCalls.EnqueueCallAlone | CppNetEngine/LockFreeQueue.h:52-79 | from any idle state a TryEnqueue made alone ends, and appends its argument or, with the queue full, does nothing |
| LockFreeQueueCalls.DequeueCallAlone | CppNetEngine/LockFreeQueue.h:82-125 | from any idle state a TryDequeue made alone ends, and removes the front or, with the queue empty, does nothing |
| CountedStack.NoNodeIsShared | CppNetEngine/ObjectPool.h:75-146 | with unrestricted recycling, the free list stays linked and duplicate-free and no node is ever both free and owned, or owned twice |
| CountedStack.NoNodeIsLost | CppNetEngine/ObjectPool.h:75-146 | in every run each node ever made is on the list, outstanding, or being worked on by a thread inside a call |
| CountedStack.PopInstallsSuccessor | CppNetEngine/ObjectPool.h:93-102 | a winning counted compare-and-swap takes the node on top and installs its current successor, although both were read earlier |
| CountedStack.AdmittedSeesTop | CppNetEngine/LockFreeStack.h:80-109 | poppers let through by the counter never outnumber the listed nodes, so each sees a non-null top |
| CountedStack.StackIsLifo | CppNetEngine/LockFreeStack.h:54-109 | the successful compare-and-swaps of every run are a legal history of a sequential stack whose content is the list |
| CountedStack.StepRefinesLifo | CppNetEngine/LockFreeStack.h:54-109 | every step pushes the argument of the call that linked, or takes the top value which that call goes on to return, or leaves the abstract stack alone |
| CountedStack.SoftCapacity | CppNetEngine/LockFreeStack.h:54-77 | at most max - 1 + threads elements are on the stack |
| CountedStackCalls.SoftCapacityIsTight | CppNetEngine/LockFreeStack.h:54-77 | for every maximum and number of threads a run puts max - 1 + threads elements (if that is positive) on the stack |
| CountedStackCalls.CapacityHoldsExactlyWhen | CppNetEngine/LockFreeStack.h:54-88 | no run exceeds the maximum (zero if negative) if and only if there is at most one thread or max + threads <= 1 |
| CountedStackCalls.TwoThreadsExceedOne | CppNetEngine/LockFreeStack.h:54-77 | with room for one element, a run of two threads puts two on the stack |
| CountedStackCalls.EmptyAnswer | CppNetEngine/LockFreeStack.h:80-86 | TryPop answers false exactly without a count left; the elements then neither reserved nor still to be counted are at most one per decrement to be undone |
| CountedStackCalls.EmptyAnswerCanBeWrong | CppNetEngine/LockFreeStack.h:80-86 | for every maximum with enough threads, a run in which an element that nobody speaks for is on the stack and TryPop answers false |
| CountedStackCalls.EmptyAnswerHoldsExactlyWhen | CppNetEngine/LockFreeStack.h:80-86 | no run gives that wrong answer if and only if there is at most one thread or max + threads <= 1 |
| CountedStackCalls.EveryCallCounts | CppNetEngine/LockFreeStack.h:54-109 | in every run the arguments of all TryPush calls are, with multiplicity, those answered false, those still carried and those pushed; every TryPop was answered false, is still asking, or popped one value |
| CountedStackCalls.PushAddsArgument | CppNetEngine/LockFreeStack.h:54-77 | in every run a push puts the argument of the pushing thread's own call on top |
| CountedStackCalls.PushCallAlone | CppNetEngine/LockFreeStack.h:54-77 | from any idle state a TryPush made alone ends, and puts its argument on top or, with the stack full, does nothing |
| CountedStackCalls.PopCallAlone | CppNetEngine/ObjectPool.h:75-110 | from any idle state a TryPop or Alloc made alone ends, and takes the top; on empty, TryPop does nothing and Alloc makes a new node |
| CountedStackCalls.FreeCallAlone | CppNetEngine/ObjectPool.h:112-146 | a Free made alone ends, and puts the client's node on the list |
| CountedStack.ConstructShape | CppNetEngine/ObjectPool.h:30-45 | the pool's constructor leaves a well-linked list of as many nodes as it counts |
| CountedStack.StepInv | CppNetEngine/ObjectPool.h:75-146 | every step keeps the list, the ownership of each node, the values, the gate balance and what each thread relies on |
| CountedStack.LinkedFrame | CppNetEngine/ObjectPool.h:138-143 | writing the next pointer of a node that is off the list leaves the list linked |
| ChunkPool.LiveAllocationsNeverShare | CppNetEngine/ObjectPool.h:282-324 | over all threads and chunk generations GetData never returns null and no slot is in two hands, beyond its chunk's mark or in a free chunk |
| ChunkPool.LastFreeIsLast | CppNetEngine/ObjectPool.h:235-243 | the free that answers "all freed" finds all slots handed out, none but its own held, and the chunk current for nobody |
| ChunkPool.ResetIsUndisturbed | CppNetEngine/ObjectPool.h:245-249 | while a chunk is reset and given back nobody holds a slot of it or has it as current; chunks in the pool have zero counters |
| ChunkPoolCalls.NoChunkIsLost | CppNetEngine/ObjectPool.h:282-324 | in every run each chunk is in the pool, is some thread's current one, has a slot with a client or inside a call, or is being given back by a thread |
| ChunkPoolCalls.AtRestChunksAreFree | CppNetEngine/ObjectPool.h:317-321 | with all threads idle and nothing live, every chunk that is nobody's current one is in the pool |
| ChunkPoolCalls.NoSlotIsLost | CppNetEngine/MemoryPool.h:104-142 | in every run a slot handed out and not counted as freed is with a client or inside a thread's Alloc or Free |
| ChunkPoolCalls.AllocCallAlone | CppNetEngine/MemoryPool.h:104-119 | an Alloc that nobody disturbs ends, and hands out one slot that nobody had |
| ChunkPoolCalls.FreeCallAlone | CppNetEngine/MemoryPool.h:121-142 | a Free that nobody disturbs ends, and takes its slot back; the one that completes the chunk leaves it in the pool, reset |
| ChunkPool.CountFreeBooks | CppNetEngine/MemoryPool.h:58-66 | the count of a free reaches the chunk size exactly when the chunk is full and its last held slot is the one being freed |
| ChunkPool.BumpBooks | CppNetEngine/MemoryPool.h:43-51 | taking a slot keeps handed-out = held + freed, and the taker of the last slot is on record |
| ChunkPool.StepInv | CppNetEngine/MemoryPool.h:104-142 | every step of Alloc and Free keeps the books of every chunk and each thread's claim on its current chunk |
| Sender.ExactlyOnceInOrder | CppNetEngine/Sender.cpp:24-122 | in every run submitted batches, then the batch being drained, then the queue are the enqueued buffers in order; batches hold 1 to 64; at most one is in flight and stays referenced |
| SenderCalls.EverySendCounts | CppNetEngine/Sender.cpp:24-41 | in every run the buffers given to Send are, with multiplicity, those about to be linked and those submitted, being drained or queued |
| SenderCalls.LinkAppendsArgument | CppNetEngine/Sender.cpp:24-41 | in every run a link appends the buffer that the linking thread's own Send was called with |
| SenderCalls.SendCallAlone | CppNetEngine/Sender.cpp:24-41 | a Send made alone ends: with a batch in flight its buffer is queued, else it is submitted as a batch of its own |
| SenderCalls.CompletionAlone | CppNetEngine/Sender.cpp:43-122 | a completion handled alone submits all that is queued, up to 64 buffers, in order, or leaves the sender at rest |
| Sender.NoLostWakeup | CppNetEngine/Sender.cpp:62-108 | while a buffer is queued the flag is held or some thread still has to exchange it or to re-check the queue |
| Sender.IdleMeansSentOrSending | CppNetEngine/Sender.cpp:24-122 | with all threads idle, a send is in flight or everything enqueued has been submitted |
| Sender.StepAwake | CppNetEngine/Sender.cpp:98-108 | every step keeps the wakeup invariant, the re-check after dropping the flag included |
| Sender.OwnerAlone | CppNetEngine/Sender.cpp:78-81 | a thread that owns the flag is the only owner, the flag is raised and nothing is in flight |
| Sender.StepInv | CppNetEngine/Sender.cpp:24-122 | every step keeps order, flag ownership, counter balance and wakeups |
| TimingWheelSpec.WheelRefinesSimpleTimer | CppNetEngine/TimingWheel.cpp:61-171 | over any interleaving of AddTiming and ticks every operation releases the same multiset as a plain list of deadlines |
| TimingWheelSpec.FiresExactlyOnTime | CppNetEngine/TimingWheel.cpp:124-141 | a pending node is released, with its multiplicity, by the tick equal to its expire tick, and by no other |
| TimingWheelSpec.NoTimerLostOrDuplicated | CppNetEngine/TimingWheel.cpp:61-171 | pending before + added = pending after + released, over every run |
| TimingWheelSpec.AddNodeInv | CppNetEngine/TimingWheel.cpp:143-159 | the bucket chosen for a node due within the largest delay keeps every node in a bucket its level visits in time |
| TimingWheelSpec.Cascade1Inv | CppNetEngine/TimingWheel.cpp:161-171 | cascading a level-1 bucket keeps what is pending and brings its nodes to level 0 |
| TimingWheelSpec.Cascade2Inv | CppNetEngine/TimingWheel.cpp:161-171 | cascading a level-2 bucket keeps what is pending and brings what is due within 65536 ticks down, returning nodes a full turn ahead |
| TimingWheelSpec.ProcessTickInv | CppNetEngine/TimingWheel.cpp:124-141 | one tick keeps the wheel's invariant and splits what is pending into the nodes due now and the rest |
| TimingWheelSpec.PendingIsAhead | CppNetEngine/TimingWheel.cpp:124-159 | nothing pending is overdue |
| TimingWheelSpec.LargestDelayIsFiledInOwnBucket | CppNetEngine/TimingWheel.cpp:72-78 | the largest delay, added to any wheel, is appended to the level-2 bucket of the current tick |
| TimingWheelSpec.LargestDelayReturnsToItsBucket | CppNetEngine/TimingWheel.cpp:128-140 | in any wheel a node a full turn ahead is still in that bucket after the cascades and the tick, and not released |
| TimingWheelSpec.MaskAndShift | CppNetEngine/TimingWheel.h:49-59 | the masks and shifts of 64-bit words are remainders and quotients, and `&` works digit by digit |
| TimingWheelSpec.MasksOfTicks | CppNetEngine/TimingWheel.cpp:126-135 | on ticks as numbers, masking and shifting digit by digit selects the buckets that the model computes by remainder and quotient |
| TimingWheelSpec.MaskIsRemainder | CppNetEngine/TimingWheel.h:57-59 | masking with 2^k - 1 is the remainder by 2^k, for every number and k |
| TimingWheel.TimingWheel.AddNode | CppNetEngine/TimingWheel.cpp:143-159 | files the node as the specification does |
| TimingWheel.TimingWheel.Cascade | CppNetEngine/TimingWheel.cpp:161-171 | the splice-and-re-add loop is the specification's cascade |
| TimingWheel.TimingWheel.ProcessTick | CppNetEngine/TimingWheel.cpp:124-141 | appends to the execute list exactly what the specification releases |
| TimingWheel.TimingWheel.AddTiming | CppNetEngine/TimingWheel.cpp:61-82 | keeps the invariant, files the callback at the clamped expire tick, runs it at once exactly for delay 0 |
| TimingWheel.TimingWheel.Tick | CppNetEngine/TimingWheel.cpp:84-117 | however late it comes, leaves the current tick at the whole intervals since the start and the last tick time without drift, and of what the interleaved run released runs exactly the live callbacks, in order; a re-entered Tick does nothing |
| TimingWheel.TimingWheel.Execute | CppNetEngine/TimingWheel.cpp:36-47 | no cancelled callback runs, every other one as often as it is listed, and all in the order of the list |
| TimingWheelSpec.ExecutedIsLive | CppNetEngine/TimingWheel.cpp:36-47 | what running a list means: the counts of cancelled and live callbacks, and strictly increasing positions in the list |
| TimingWheelRuns.TickOpsAt | CppNetEngine/TimingWheel.cpp:104-109 | the run of one Tick holds, tick for tick, exactly the calls that got in before the tick, in order and as made, and the tick |
| TimingWheelRuns.FiredOrdered | CppNetEngine/TimingWheel.cpp:104-116 | the callbacks of one Tick are ordered by expire tick and all expire within its ticks |
| TimingWheel.WholeIntervals | CppNetEngine/TimingWheel.cpp:92-100 | truncating to milliseconds and then to intervals loses no interval |
| TimingWheel.TimerFiresExactlyWhen | CppNetEngine/TimingWheel.cpp:61-117 | whatever calls and Ticks come between, a timer has been released by a Tick at `now` if and only if `now` has reached last tick + interval * (floor(delay / interval) + 1) |
| TimingWheel.FiringTime | CppNetEngine/TimingWheel.cpp:72-77 | a timer's expire tick has been processed by a Tick at `now` if and only if `now` has reached its fire time |
| TimingWheel.FireTimeBounds | CppNetEngine/TimingWheel.cpp:72-77 | the fire time is strictly later than last tick + delay exactly for delays below one interval past the largest, and at most one interval later |
| TimingWheel.NeverEarlyExactlyWhen | CppNetEngine/TimingWheel.cpp:72-77 | no call within one interval of the last tick fires its timer early if and only if the delay is a whole number of intervals and at most the largest |
| TimingWheel.OnTimeIsSlack | CppNetEngine/TimingWheel.cpp:72-77 | how long after the last tick a call with a given delay may come without firing early |
| TimingWheel.EarlyExample | CppNetEngine/TimingWheel.cpp:61-117 | a run: a 31 ms timer set at 15 ms in an empty wheel is released, and its callback runs, at the Tick at 32 ms |
| NetReceiveBuffer.NetReceiveBuffer.Write | CppNetEngine/NetReceiveBuffer.cpp:125-149 | appends as many bytes as fit to the abstract queue and touches no cell at or past the capacity |
| NetReceiveBuffer.NetReceiveBuffer.Read | CppNetEngine/NetReceiveBuffer.cpp:151-175 | copies the oldest bytes out, as Peek does, and removes them |
| NetReceiveBuffer.NetReceiveBuffer.Peek | CppNetEngine/NetReceiveBuffer.cpp:177-199 | copies the oldest bytes out and leaves ring and the rest of the destination alone |
| NetReceiveBuffer.NetReceiveBuffer.MoveReadPos | CppNetEngine/NetReceiveBuffer.cpp:115-118 | drops the oldest bytes |
| NetReceiveBuffer.NetReceiveBuffer.MoveWritePos | CppNetEngine/NetReceiveBuffer.cpp:120-123 | moves the write position around the ring |
| NetReceiveBuffer.NetReceiveBuffer.GetFreeSize | CppNetEngine/NetReceiveBuffer.cpp:28-44 | free + used = capacity - 1 |
| NetReceiveBuffer.NetReceiveBuffer.GetLinearWriteSize | CppNetEngine/NetReceiveBuffer.cpp:79-95 | free cells that do not wrap, all of them or up to the end, at least one if any is free |
| NetReceiveBuffer.NetReceiveBuffer.GetLinearReadSize | CppNetEngine/NetReceiveBuffer.cpp:97-113 | unread bytes that do not wrap, all of them or up to the end |
| NetReceiveBuffer.DropUnread | CppNetEngine/NetReceiveBuffer.cpp:115-118 | moving the read position by k drops the k oldest bytes |
| NetReceiveBuffer.AppendUnread | CppNetEngine/NetReceiveBuffer.cpp:125-149 | filling free cells in write order and moving the write position appends to the queue |
| Receiver.Receiver.Register | CppNetEngine/Receiver.cpp:61-91 | offers exactly the free cells in write order; refuses exactly when there are none |
| Receiver.Receiver.Complete | CppNetEngine/Receiver.cpp:45-45 | bytes scattered over the offered segments and the move of the write position append to the queue what Write would |
| Receiver.LayoutCells | CppNetEngine/Receiver.cpp:79-91 | the one or two segments are the free cells of the ring in order |
| Receiver.FreeCellsAreSafe | CppNetEngine/Receiver.cpp:71-91 | offered cells are distinct, in range and not unread; with the unread ones they are all cells but one |
| Receiver.ProcessPresentsUnreadExactlyWhen | CppNetEngine/Receiver.cpp:45-48 | the region handed to the session is what is unread if and only if nothing was unread before and the bytes do not wrap |
| Receiver.SplitDelivery | CppNetEngine/Receiver.cpp:45-91 | two deliveries through Register: both are in the ring, and after the second the session is handed the first bytes again |
| PacketSession.PacketSession.OnReceive | CppNetEngine/PacketSession.cpp:14-44 | dispatches the frames of the recursive parser in order and answers its consumed bytes, or -1 with the earlier frames dispatched |
| PacketSession.ParseIsGreedy | CppNetEngine/PacketSession.cpp:18-43 | frames and leftover are the bytes, each frame as long as its header says; refused exactly if a header with a size below 6 is left over, else less than a header or a frame is |
| PacketSession.FramingIgnoresCuts | CppNetEngine/PacketSession.cpp:14-44 | any cutting of a stream into chunks dispatches the same frames, refuses alike and leaves the same bytes over as one call on the whole |
| PacketSession.ParseAppend | CppNetEngine/PacketSession.cpp:18-43 | appended bytes are parsed as if what came before had been consumed first |
| PacketSession.LeftoverIsPartial | CppNetEngine/PacketSession.cpp:20-35 | an accepting call leaves less than one frame |
| PacketSession.Parse | CppNetEngine/PacketSession.cpp:18-43 | consumes no more than there is, and at least 6 bytes per frame |
| PacketSession.MakeSendBuffer | GameServer/Generated/LoginPacketHandler.h:66-93 | for every message: the frame exactly for payloads of at most 65529 bytes, an overrun exactly when the low 16 bits of the size exceed 65529, else the program stops |
| PacketSession.WritesFitExactlyWhen | GameServer/Generated/LoginPacketHandler.h:69-81 | header and 16-bit payload size fit what is reserved, and the header alone does, if and only if that size is at most 65529 |
| PacketSession.OverrunExample | GameServer/Generated/LoginPacketHandler.h:69-81 | for 65530 bytes nothing is reserved; every shorter payload fits |
| PacketSession.SizeFieldExactlyWhen | GameServer/Generated/LoginPacketHandler.h:69-70 | the 16-bit size is the frame's length if and only if the payload has at most 65529 bytes |
| PacketSession.FrameFields | CppNetEngine/PacketSession.h:5-11 | the header of a printed frame holds its length, and the frame decodes to its message |
| PacketSession.FrameExample | CppNetEngine/PacketSession.h:5-11 | one frame byte for byte: packed, low bytes first |
| PacketSession.FrameFitsRingExactlyWhen | CppNetEngine/PacketSession.cpp:26-35 | whatever bytes follow a printed frame, some prefix of at most 65534 bytes dispatches it if and only if its payload has at most 65528 bytes |
| PacketSession.ParseUndoesPrint | GameServer/Generated/LoginPacketHandler.h:66-93 | parsing the frames of any messages consumes every byte and yields exactly those messages |
| WaitQueueManager.TicketsAreExact | CppNetEngine/WaitQueueManager.cpp:15-61 | over all runs the queued tickets are enter..wait-1 in order of entry, a queued ticket's wait count is its number of predecessors, and the next entrant gets the number of all before it |
| WaitQueueManager.EnterIssuesNextTicket | CppNetEngine/WaitQueueManager.cpp:15-26 | the k-th session ever to enter gets ticket k, stands last and waits for all queued before it; refused exactly when the queue is full |
| WaitQueueManager.DequeueIsFirstAlive | CppNetEngine/WaitQueueManager.cpp:28-48 | a dequeue answers the first session that has not expired and moves the enter ticket just past it |
| WaitQueueManager.WaitQueueManager.EnterWaitQueue | CppNetEngine/WaitQueueManager.cpp:15-26 | issues the next ticket unless the queue is full |
| WaitQueueManager.WaitQueueManager.DequeueWaitQueue | CppNetEngine/WaitQueueManager.cpp:28-48 | the skip loop is the recursive dequeue |
| SessionManager.SessionManager.AddSession | CppNetEngine/SessionManager.cpp:12-30 | lets a new session in exactly while sessions and kept seats are below the maximum, with the kept seats as before |
| SessionManager.SessionManager.AddWaitingSession | CppNetEngine/SessionManager.cpp:32-36 | seats any new session and uses up one kept seat for it |
| SessionManager.SessionManager.RemoveSession | CppNetEngine/SessionManager.cpp:38-48 | a member leaves, and a kept seat more is left exactly when asked for |
| SessionManager.SessionManager.ReleaseKeepTicket | CppNetEngine/SessionManager.cpp:50-54 | one kept seat fewer, sessions untouched |
| SessionManager.RemoveUndoesAdd | CppNetEngine/SessionManager.cpp:12-48 | removing an added session with its seat restores everything |
| SessionManager.KeptSeatIsHandedOver | CppNetEngine/SessionManager.cpp:32-54 | keeping a seat and seating another on it is giving it up and adding the other; keeping and releasing it is giving it up |
| SessionManager.CountIsSessionsAndKept | CppNetEngine/SessionManager.cpp:12-54 | over every run of calls the count is the sessions plus the seats kept on balance and never passes the maximum |
| Admission.SeatsConserved | CppNetEngine/Service.cpp:47-83 | in every run count = sessions in + seats in transit, and 0 <= count <= max |
| Admission.AtRestSeatsAreSessions | CppNetEngine/Service.cpp:77-83 | with all threads idle the count is the number of sessions |
| Admission.ExecBalanced | CppNetEngine/Service.cpp:158-185 | each step changes the count by as much as sessions and seats in transit together, and never past the maximum |
| Admission.DisconnectRunsOnce | CppNetEngine/Session.cpp:179-188 | processDisconnect finds its session in the set, runs for it in one thread only, and never again in any further run |
| Admission.WaitQueueNeverAdmits | CppNetEngine/Session.cpp:221-231 | a session in the wait queue after any run is Disconnected in every state of every further run, and no session is ever Waiting |
| Admission.AdmissionIsUndone | CppNetEngine/Service.cpp:158-185 | one taken from the wait queue always gets the kept seat, is not connected, and leaves with the count and the sessions both one fewer |
| Admission.AdmissionIsReached | CppNetEngine/Service.cpp:158-175 | a run with one seat, a queue of one and one thread brings a waiting session into the seat, and a further one out of it |
| AdmissionCalls.ConnectCallAlone | CppNetEngine/Service.cpp:47-56 | with a seat free, a connect handled alone ends with the session in and Connected |
| AdmissionCalls.RefusedCallAlone | CppNetEngine/Service.cpp:61-75 | with no seat free it ends Disconnected, last in the wait queue if that has room, whatever the outcome of setSessionWaiting |
| AdmissionCalls.RolledBackCallAlone | CppNetEngine/Service.cpp:49-60 | a compare-and-swap to Connected that fails spuriously is rolled back to the seats and states before, at the cost of one waiting session |
| AdmissionCalls.DisconnectCallAlone | CppNetEngine/Session.cpp:107-116 | a Disconnect alone stores Disconnected and registers one completion exactly if the session was not Disconnected |
| AdmissionCalls.CompletionAlone | CppNetEngine/Session.cpp:179-188 | a completion handled alone takes the session out, frees its seat and removes the first waiting session alive from the queue |
| AdmissionCalls.EnterGameAlone | CppNetEngine/Session.cpp:51-55 | SetSessionInGame takes a Connected session into the game and leaves any other |
| Admission.ActiveSessionsAreSeated | CppNetEngine/Session.cpp:233-237 | a session is Connected or InGame only with a seat |
| Admission.DequeueLocal | CppNetEngine/Service.cpp:160-161 | a dequeue gives the admitting thread a session that nobody else moves, and keeps who is queued exact |
| Admission.StepInv | CppNetEngine/Session.cpp:107-242 | every step keeps sets, states, pending completions, queue and seats in accord, and what other threads are moving unchanged |

## Left out

- The concurrent files (`LockFreeQueue.h`, `LockFreeStack.h`, `ObjectPool.h`, `MemoryPool.h`, `Sender.cpp`, `Service.cpp`, `Session.cpp`) are step machines over values, because a method that runs to its end cannot be interrupted by another thread; object identity beyond node numbers is not modelled.
- Memory is sequentially consistent and counters, tickets and ticks are unbounded; mixed-size atomic accesses and the overflow of int32/uint64 fields are not modelled, nor is the uint32 loop counter of `Tick`.
- Queue nodes are fresh: the pointer compare-and-swap in TryEnqueue carries no count, so recycled nodes would need a different queue; and moveTail's compare-and-swap fails only when the tail changed, as on x64.
- LockFreeQueue.StepInv: assumes what the line above says of nodes and of moveTail.
- Queue and pool teardown (`Clear`, `AllFree`, destructors), checksums and the placement-new of pooled objects are not modelled; a pool starts with a non-negative number of nodes.
- ChunkPool.StepInv: the chunk pool's Alloc and Free are single steps, justified by CountedStack.NoNodeIsShared; clients free each pointer at most once; the statistics counter `mAllocCount` of TlsObjectPool is left out.
- Sender.StepInv: runs of a connected session whose enqueues and submits succeed; refused enqueues, failed submits, zero-byte completions and disconnects start teardown. The queue's dequeue is one step after its gate, justified by LockFreeQueue.StepRefinesFifo.
- TimingWheel.TimingWheel.Tick: the clock, the calls of other threads between two of its ticks and the cancelled callbacks are parameters; callbacks are opaque ids.
- NetReceiveBuffer.NetReceiveBuffer.Write: sizes are non-negative; a negative size and int32 overflow are not modelled, and likewise for Read, Peek and the moves.
- `Receiver::Process` end to end: the framing and the ring are separate theorems, because the region it hands over is the unread bytes only in the case stated above.
- PacketSession.MakeSendBuffer: where the source writes past the bytes it reserved, the model stops with the outcome Overrun instead of saying what memory then holds; the allocator's rounding of the reservation is not modelled. Serialization of protobuf messages is their payload bytes; the other generated handlers share the same printer.
- Admission.StepInv: processConnect runs at most once per session and a disconnect completes at most once per registration; sockets, timeouts, the reaper and session callbacks are not modelled; session InGame is entered by one compare-and-swap at any time.
- Winsock and IOCP calls, logging, crash reporting, thread start-up and the packet generator: input and output without core logic.
- The Actor, ActorScheduler and ScopedActor layer: completions can be dropped there, so the strong scheduling claims do not hold.
- `MemoryAllocator` (which pool serves which size), `SendBufferAllocator` (rounding of sizes), the cursors of `NetSendBuffer` and `SessionTimeoutTracker` (last-activity times) are not modelled; nothing proved here depends on them.
