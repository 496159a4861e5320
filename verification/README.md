# Verified models of ex-netlink's stateful cores

ex-netlink is a collection of network and concurrency experiments. Most of it is
socket plumbing; five pieces carry invariants of their own, and this project models
those in Dafny and proves what they keep, over every input and every run:

- **The byte ring** `circulation_buffer` (set/buffer/buffer.h). `Ring` is the code as a
  value, branch by branch, with 64-bit unsigned wrap-around, out-of-bounds accesses and
  failed allocation as outcomes. `RingAppend` gives the exact indices from which an
  append keeps the queue, both directions. `RingRuns` shows that whole runs are a
  first-in-first-out queue. `CirculationBuffer` is the class that updates array and
  indices in place, proved against `Ring`. `Bytes` holds byte order (set/buffer/yendian.h).
- **The RTT exchange** (set/rtt). `Reassembly` reads packages through the ring and compares
  them with those that cutting a plain byte queue would give. `ReassemblyExact` gives the
  chunk lengths from which the two agree for every stream, both directions, and streams
  for which they do not. `RttServer` is the handler of readable events and the clients it
  keeps up with. `Rtt` proves what the client's two results are in terms of network delays
  and clock offset, through the server's own code. `Connections` is the slot table.
- **The thread pool** (set/thread_pool/ThreadPool.h). `ThreadPool` is a step machine with
  any number of workers, notifications delivered after the lock is released, and spurious
  wakeups: no lost wakeup, first-in-first-out dispatch exactly once, drain, termination;
  the worker's loop itself is a run of that machine.
- **ZeroEvenOdd** (set/atomic/main1.cpp). Every interleaving of the three threads:
  output, mutual exclusion, progress, fair termination, counter range.
- **The event loop** (set/loop). Drains by swap and timer passes, callbacks being free to
  use the loop's own interface.

## How the code is read

- Host: little-endian, 64-bit `size_t`, objects of at most 2^47 bytes (the user address
  space of x86-64); beyond that `new` throws, which is the outcome `NoMemory`.
- `std::copy_n` is a simultaneous copy; the ranges of buffer.h:169 can overlap. The shift
  of buffer.h:106 is a multiplication by a power of 256; when the tail is exactly
  `sizeof(T)` bytes the shifted part is zero.
- Uninitialised memory of a grown buffer is an arbitrary function (`junk`).
- Sections under one mutex are atomic steps. In the loop, pushes and swaps are atomic too,
  although Loop.cpp:48-53 locks a different mutex from the one the drain of the same list
  locks (lines 32-35). The crossed mapping of `pushIdle` and `pushRunable` is kept.
- Callbacks of the loop return normally; `EventLoop.ThrowInDrain` and `EventLoop.ThrowInPass`
  give the exact effect of one that throws. A pool task that throws has finished
  (ThreadPool.h:70-74).
- What a callback does is an arbitrary function of its identity, the number of its call in
  the run and whether a timer pass makes it.
- Clocks, bytes read from sockets, the actions of callbacks and the choice among timers of
  equal timestamps are parameters, quantified over.

## What does not hold, and when it does

- Growing the ring keeps the queue exactly when the reader is at `padding` (unwrapped), or
  the tail is no longer than the head (wrapped), or, by luck of buffer.h:162-163, the reader
  is at `2 * padding`. With the reader wrapped below `padding`, `writed_size` wraps round
  and growth never happens; the append is right exactly while it stops short of the reader.
  So it is when a wrapped writer has come closer than `padding` to the reader.
  `RingAppend.AppendExact` is the equivalence; `RingRuns.GrowthAltersQueue` and
  `RingRuns.OverrunEmptiesQueue` are runs from a new buffer that lose bytes.
- Not every cutting of a stream into reads is decoded as it was sent. On a new connection reads of 48 and then 45 bytes make it read outside the buffer
  (`ReassemblyExact.SecondReadFaults`), and reads of 44 and then 49 bytes make it decode a
  package that begins with twenty zeros nobody sent (`ReassemblyExact.SecondPackageIsMadeUp`).
  `ReassemblyExact.ServerExact` is the exact condition on the lengths of the reads; that every
  chunk fits the capacity beside what is pending is enough (`ReassemblyExact.FittingIsSound`).
- It decodes one package per readable event, so it keeps up exactly when no chunk of the
  stream completes two packages (`RttServer.KeepsUpExactly`); one read of 48 bytes leaves a
  complete package waiting (`RttServer.SecondPackageWaits`). A client that sends no byte
  of a package before the one before was decoded is always served (`RttServer.WaitingClientIsServed`).
- The client's clock difference is half of |2 theta + d1 - d2| exactly when both one-way
  differences lie in the same turn of the 64-bit counter, which within the counter's range
  means that the server's clock is at most d1 behind and at most d2 ahead, apart from one
  coincidence of wrapped values (`Rtt.DifferenceExact`, `Rtt.DifferenceWithinDelays`);
  `Rtt.OffsetBeyondDelay` is a plain case in which it is not.
- A stopped pool finishes every task, whatever the schedule, if and only if nothing is pushed
  after a stop (`ThreadPool.StopLosesNothingExactly`). A task pushed after the last worker left
  is never run (`ThreadPool.GoneForGood`, `ThreadPool.PushAfterStop`); every other task is
  (`ThreadPool.DrainedOnExit`).
- A loop callback that throws drops the rest of the list being drained
  (`EventLoop.ThrowInDrain`); a timer callback that throws has run and runs again
  (`EventLoop.ThrowInPass`).
- ZeroEvenOdd's `int` counters overflow exactly for n within one of the largest `int`
  (`ZeroEvenOdd.CountersFitExactly`).

## Model

| member | source | states |
|---|---|---|
| Bytes.NetworkToHost | set/buffer/yendian.h:38-53 | network2host of a value loaded from memory is the big-endian value of the bytes, for every width |
| Bytes.HostToNetwork | set/buffer/yendian.h:21-37 | host2network leaves the value in memory most significant byte first, within range |
| Bytes.SwapTwice | set/buffer/yendian.h:15-53 | the two conversions undo each other for every width |
| Bytes.SwapOneByte | set/buffer/yendian.h:34-53 | the one-byte specialisations agree with the general swap |
| Ring.SizesAccountForArray | set/buffer/buffer.h:52-61 | readable size is the queue's length; readable + writable + padding is the array whenever the reader is at or past padding and the gap is there, and below padding the writable size is a wrapped huge value |
| Ring.SkipDropsPrefix | set/buffer/buffer.h:116-137 | skip drops exactly the first len queued bytes and keeps the indices valid, also across the wrap |
| Ring.SplitLoad | set/buffer/buffer.h:103-107 | the two partial loads, the second shifted past the first, do not overflow and swap to the big-endian value of both pieces |
| Ring.PeekIsBigEndian | set/buffer/buffer.h:91-114 | at every wrap position a typed peek is the big-endian value of the first k queued bytes |
| RingAppend.StoreFits | set/buffer/buffer.h:73-86 | without growth the data lands behind the queue, across the array's end if need be, and the indices go where the lengths say |
| RingAppend.RelocateKeepsQueue | set/buffer/buffer.h:153-175 | a sound relocation lays the queue contiguously from padding and leaves the free space as it was |
| RingAppend.GrowthMakesRoom | set/buffer/buffer.h:140-151 | sound growth keeps the queue and turns f free bytes into exactly 2n - f, at least n, all of it behind the writer |
| RingAppend.SoundAppend | set/buffer/buffer.h:67-87 | from sound indices an append leaves old queue followed by data, and valid indices that depend on lengths alone |
| RingAppend.OverrunWithoutGap | set/buffer/buffer.h:57-61 | a wrapped writer closer than padding to the reader: an append that reaches the reader loses the queue |
| RingAppend.OverrunBelowPadding | set/buffer/buffer.h:57-61 | with the reader below padding, an append that reaches the reader loses the queue |
| RingAppend.UnwrappedGrowthShifts | set/buffer/buffer.h:147-147 | growth of an unwrapped ring copies from the wrong offset unless the reader is at padding |
| RingAppend.RelocationMiscounts | set/buffer/buffer.h:155-163 | the first relocation branch yields a wrong queue unless the reader was at twice padding |
| RingAppend.GrowthRefused | set/buffer/buffer.h:145-146 | growth past the largest object ends in a failed allocation |
| RingAppend.AppendExact | set/buffer/buffer.h:67-87 | from every pair of indices a correct operation leaves, an append is right for all array contents, data and fresh memory if and only if AppendSound holds of the indices |
| RingAppend.FreshAppendExact | set/buffer/buffer.h:19-24 | the first append to a new buffer is out of bounds exactly when the buffer is shorter than padding and there is data |
| RingAppend.DoneIsIndexed | set/buffer/buffer.h:67-87 | right or wrong, an append that ends normally leaves both indices inside the array |
| RingRuns.RunIsQueue | set/buffer/buffer.h:52-137 | after any run of sound appends and legal skips the ring holds all bytes ever put in less the number taken, in order |
| RingRuns.FittingRunIsAdmissible | set/buffer/buffer.h:52-87 | runs within the capacity are sound throughout and never grow the array, also with the reader below padding |
| RingRuns.FittingRunIsQueue | set/buffer/buffer.h:20-137 | a buffer of any length from padding up, used within its capacity, is a FIFO queue |
| RingRuns.GrowthAltersQueue | set/buffer/buffer.h:140-151 | a reachable growth that silently drops the first two queued bytes |
| RingRuns.OverrunEmptiesQueue | set/buffer/buffer.h:57-87 | a reachable append that makes a full buffer look empty |
| CirculationBuffer.CopyN | set/buffer/buffer.h:74-83 | the copy loop writes exactly the given bytes at the given place |
| CirculationBuffer.CirculationBuffer.constructor | set/buffer/buffer.h:20-24 | a new buffer is empty, and valid exactly from length padding up |
| CirculationBuffer.CirculationBuffer.Append | set/buffer/buffer.h:67-87 | from any indices and array: status, array and indices are those of the model, faults and refused memory included; from sound indices the queue gains the data |
| CirculationBuffer.CirculationBuffer.MakeMemory | set/buffer/buffer.h:140-151 | from any indices the in-place growth does what the model of it does, faults included |
| CirculationBuffer.CirculationBuffer.RelocationLocation | set/buffer/buffer.h:153-175 | both rotation branches, in place, do what the model does, faults included |
| CirculationBuffer.CirculationBuffer.PeekInt | set/buffer/buffer.h:91-114 | the result is the big-endian value of the first k queued bytes |
| CirculationBuffer.CirculationBuffer.SkipBytes | set/buffer/buffer.h:116-132 | the queue loses exactly its first len bytes, valid indices stay valid |
| CirculationBuffer.CirculationBuffer.RetrieveAll | set/buffer/buffer.h:134-137 | the buffer is empty at its initial indices |
| Reassembly.ParsedHead | set/rtt/rtt_common.h:7-12 | the wire form of what is parsed is the 24 bytes it was parsed from |
| Reassembly.WireParsed | set/rtt/rtt_common.h:7-12 | parsing the wire form gives the package back |
| Reassembly.TakePackageIsParse | set/rtt/rtt_server.cpp:124-129 | three peek/skip pairs read the first package of the queue and consume exactly 24 bytes |
| Reassembly.CutInjective | set/rtt/rtt_server.cpp:115-129 | what was cut and what is left determine the queue: decoding hides no damage |
| Reassembly.ReceivedRightExactly | set/rtt/rtt_server.cpp:113-129 | from any indices in the array, one readable event does what it does on a plain queue if and only if its append was right |
| Reassembly.ServeRefines | set/rtt/rtt_server.cpp:113-129 | a connection all of whose events are right decodes what cutting a plain queue gives, with wraps and growth in between |
| Reassembly.QueueReceivesConserve | set/rtt/rtt_server.cpp:113-129 | the stream is the packages decoded followed by what is still queued: nothing lost, repeated or reordered |
| ReassemblyExact.SoundLengthsServeRight | set/rtt/rtt_server.cpp:113-129 | from any valid ring, every stream in chunks of sound lengths is served right at every event |
| ReassemblyExact.WrongStream | set/rtt/rtt_server.cpp:113-129 | for any other lengths a stream is constructed that is served wrong |
| ReassemblyExact.ServerExact | set/rtt/rtt_server.cpp:113-129 | on a new connection every stream in chunks of these lengths is served right if and only if the lengths are sound |
| ReassemblyExact.FittingIsSound | set/rtt/rtt_server.h:21-22 | lengths of which each fits the capacity beside what is pending are sound |
| ReassemblyExact.DecodedIsPrefixOfSent | set/rtt/rtt_server.cpp:113-129 | in chunks of sound lengths the packages decoded are a prefix of those sent, and the rest of the bytes is queued |
| ReassemblyExact.SecondReadFaults | set/rtt/rtt_server.cpp:113-113 | reads of 48 and 45 bytes on a new connection: the second append reads outside the buffer |
| ReassemblyExact.SecondPackageIsMadeUp | set/rtt/rtt_server.cpp:113-129 | reads of 44 and 49 bytes: the second package decoded begins with twenty zeros, whatever was sent |
| RttServer.KeepsUpExactly | set/rtt/rtt_server.cpp:115-129 | less than a package stays queued after every event if and only if no chunk of the stream reaches past the end of a second package, counted in stream positions |
| RttServer.SecondPackageWaits | set/rtt/rtt_server.cpp:115-129 | one read of two packages on a new connection: one is decoded, the other stays complete in the buffer |
| RttServer.WaitingFits | set/rtt/rtt_server.h:21-22 | the chunks of a client that waits for its replies fit the 72-byte buffer |
| RttServer.WaitingKeepsUp | set/rtt/rtt_server.cpp:115-129 | and the server keeps up with it |
| RttServer.WaitingClientIsServed | set/rtt/rtt_server.cpp:113-129 | if no byte of a package comes before the one before it was decoded, a new connection decodes every complete package in order, for every cutting |
| RttServer.EventInBytes | set/rtt/rtt_server.cpp:113-135 | the event of the model in bytes: the decoded and again encoded timestamp is the first word of the queue |
| RttServer.ReadPackage | set/rtt/rtt_server.cpp:124-129 | the three peek/skip pairs on the object read the first package and consume it |
| RttServer.OnReadable | set/rtt/rtt_server.cpp:113-135 | from any indices in the array: fails exactly when the append does, else is one event of the model; the reply is the first timestamp of the queue byte for byte and the two clock readings, 24 bytes are consumed, short input waits |
| Rtt.ReplyReadBack | set/rtt/rtt_client.cpp:46-60 | for a request at the front of any ring, what the server decodes, fills in and encodes again is read back as the client's own timestamp and the server's two |
| Rtt.ExchangeDifferences | set/rtt/rtt_client.cpp:67-70 | the results depend on delays and offset only; time of day and processing time cancel, wrap-around included |
| Rtt.RoundTripIsDelay | set/rtt/rtt_client.cpp:69-69 | the first result is d1 + d2 if and only if that fits in 64 bits |
| Rtt.DifferenceFitsSigned | set/rtt/rtt_client.cpp:70-70 | the second result always fits int64 |
| Rtt.DifferenceExact | set/rtt/rtt_client.cpp:67-70 | the second result is half of the absolute value of 2 theta + d1 - d2 if and only if both one-way differences lie in the same turn of the counter, one coincidence apart |
| Rtt.DifferenceWithinDelays | set/rtt/rtt_client.cpp:67-70 | within the counter's range: if and only if the server's clock is at most d1 behind and at most d2 ahead |
| Rtt.DifferenceNearOffset | set/rtt/rtt_client.cpp:67-70 | under the condition of DifferenceExact the result is that half, and misses the offset by at most half the delay asymmetry, rounded up |
| Rtt.OffsetBeyondDelay | set/rtt/rtt_client.cpp:67-70 | a one-second offset over a one-millisecond link gives an estimate of almost 2^63 |
| Rtt.Deliver | set/rtt/rtt_server.cpp:113-135 | a request that reaches an idle connection in any pieces is answered by the event that completes it |
| Rtt.EndToEnd | set/rtt/rtt_client.cpp:46-70 | from request bytes in any pieces through the server's code and the reply's bytes: both results are those of the exchange |
| Connections.FirstFree | set/rtt/rtt_server.cpp:217-219 | the first free slot or the end |
| Connections.ConnectInv | set/rtt/rtt_server.cpp:215-232 | connecting puts the descriptor in the first free slot or else a new last one and its connection in the map, leaves every other slot and key as it was, and keeps slots and connections in one-to-one correspondence |
| Connections.DisposeInv | set/rtt/rtt_server.cpp:205-210 | disposing frees the slot, removes its descriptor from the map, leaves every other slot and key as it was, and keeps the correspondence |
| Connections.DisposeTwice | set/rtt/rtt_server.cpp:205-210 | after a dispose that freed the slot, a second one changes nothing |
| Connections.RunShows | set/rtt/rtt_server.cpp:205-232 | over every run the table shows exactly the connections made and not disposed of since, each in the least slot that was unused, computed from the events alone |
| Connections.RunLength | set/rtt/rtt_server.cpp:205-232 | over a run the table's length is the maximum of its start and the peak of live connections, computed from the events alone |
| Connections.TableIsExact | set/rtt/rtt_server.cpp:205-232 | from the empty table: every slot is the live descriptor the events put there or free, the map's keys are exactly the live descriptors, each in one slot and with its own connection, and the length is exactly the peak |
| Connections.LookupIsLatest | set/rtt/rtt_server.cpp:205-232 | after any run a live descriptor maps to the connection made for it last |
| Connections.Server.OnNewConnect | set/rtt/rtt_server.cpp:215-232 | the searching loop and update do what the model does; on the fields: the first free slot or the end takes the descriptor, the map gains it, nothing else changes |
| Connections.Server.DisposeSlot | set/rtt/rtt_server.cpp:205-210 | the update does what the model does; on the fields: the slot is free, the map loses its descriptor, nothing else changes |
| ThreadPool.Data.BindRun | set/thread_pool/ThreadPool.h:61-84 | from the top of its loop an undisturbed worker runs the whole queue in order, stop or no stop, then leaves if stopped and waits if not; what it does is a run of the step machine |
| ThreadPool.WakeupKept | set/thread_pool/ThreadPool.h:35-80 | every step, push and stop included, keeps: a worker sleeps only while each queued task has a notification or a worker on its way |
| ThreadPool.DispatchKept | set/thread_pool/ThreadPool.h:35-74 | every step keeps: pushed is taken followed by queued, and what was taken is held by a worker or done |
| ThreadPool.PushedAsCalled | set/thread_pool/ThreadPool.h:35-41 | over every run, pushed grows by exactly the tasks of the push calls, in the order of the calls |
| ThreadPool.SignalsAsCalled | set/thread_pool/ThreadPool.h:40-49 | over every run, one notify_one for each push call and one notify_all for each stop call is delivered or on its way |
| ThreadPool.StepInv | set/thread_pool/ThreadPool.h:35-84 | every step keeps wakeup, dispatch, stop and drain invariants |
| ThreadPool.RunInv | set/thread_pool/ThreadPool.h:35-84 | they hold in every state of every run |
| ThreadPool.NoTaskIsForgotten | set/thread_pool/ThreadPool.h:35-80 | with a task queued, no notification on its way and a worker left, some worker is awake |
| ThreadPool.SleepersAreSurplus | set/thread_pool/ThreadPool.h:35-80 | while a worker sleeps and no notification is on its way, each queued task has a worker about to fetch it |
| ThreadPool.DispatchIsFifoOnce | set/thread_pool/ThreadPool.h:35-74 | tasks taken followed by tasks queued are the tasks of the push calls in order; each is finished, held or queued, once |
| ThreadPool.WorkerRunsNextPushed | set/thread_pool/ThreadPool.h:65-71 | a worker that finds the queue not empty runs the next of the tasks in the order of the push calls, after as many as are finished or held |
| ThreadPool.MeasureFalls | set/thread_pool/ThreadPool.h:61-80 | after stop every step of the pool lowers a natural-number measure |
| ThreadPool.StoppedPoolCanStep | set/thread_pool/ThreadPool.h:61-80 | after stop the pool can step while a worker is left |
| ThreadPool.StoppedRunIsBounded | set/thread_pool/ThreadPool.h:61-80 | a run after stop is at most as long as the measure |
| ThreadPool.NobodyWaitsAfterStop | set/thread_pool/ThreadPool.h:43-51 | once the notify_all of stop was delivered no worker waits, ever |
| ThreadPool.DrainedOnExit | set/thread_pool/ThreadPool.h:66-79 | when all workers have left, of the tasks of the push calls exactly those pushed after the last one left are undone |
| ThreadPool.NothingOrphaned | set/thread_pool/ThreadPool.h:35-51 | a run in which nothing is pushed after stop orphans no task |
| ThreadPool.StopLosesNothing | set/thread_pool/ThreadPool.h:35-79 | if nothing is pushed after stop, then once all workers have left every task of the push calls has finished, taken in the order of the calls |
| ThreadPool.StopLosesNothingExactly | set/thread_pool/ThreadPool.h:35-79 | over all schedules of given calls, every task is finished when all workers have left if and only if no push comes after a stop |
| ThreadPool.PushAfterStop | set/thread_pool/ThreadPool.h:35-79 | one worker, stop, its exit, then a push: the task stays queued |
| ThreadPool.GoneForGood | set/thread_pool/ThreadPool.h:75-80 | once all workers have left, no step brings one back or takes or finishes a task |
| ThreadPool.StopCompletes | set/thread_pool/ThreadPool.h:43-84 | after stop the pool comes to rest within the measure, with all workers gone and all such tasks done; all tasks if none was pushed after stop |
| ThreadPool.RestFalls | set/thread_pool/ThreadPool.h:61-80 | without stop too, every step but a spurious wakeup uses up work |
| ThreadPool.PoolComesToRest | set/thread_pool/ThreadPool.h:35-84 | left alone, stopped or not, the pool comes to rest in bounded steps with every such task done; all tasks of the push calls if none was pushed after stop |
| ZeroEvenOdd.TickInv | set/atomic/main1.cpp:17-49 | every turn of every thread keeps the turn-taking invariant |
| ZeroEvenOdd.OneCanMove | set/atomic/main1.cpp:17-49 | at most one thread can move, so the outcome does not depend on the schedule |
| ZeroEvenOdd.SomeoneCanMove | set/atomic/main1.cpp:17-49 | an unfinished state is never stuck |
| ZeroEvenOdd.ExecCounts | set/atomic/main1.cpp:17-49 | productive turns are exactly what the countdown loses |
| ZeroEvenOdd.OutputIsPrefix | set/atomic/main1.cpp:17-49 | for every n and schedule the output is a prefix of 0,1,0,2,...,0,n and one thread at most is in its critical part |
| ZeroEvenOdd.OutputCompletes | set/atomic/main1.cpp:17-49 | at most 6n productive turns; none left if and only if all loops are over, and then all 2n numbers are out |
| ZeroEvenOdd.FairScheduleFinishes | set/atomic/main1.cpp:17-49 | 6n rounds in which each thread gets a turn complete the output |
| ZeroEvenOdd.CountersFitExactly | set/atomic/main1.cpp:18-42 | the int counters stay in range on all schedules if and only if n is at most INT_MAX - 2 |
| EventLoop.ActAsked | set/loop/Loop.cpp:48-60 | a push appends to its list, the lists being crossed, runAt adds a timer of the time asked for, quit raises the flag, and nothing else changes |
| EventLoop.CallAsked | set/loop/Loop.cpp:73-92 | a callback does exactly what its actions say |
| EventLoop.DrainRunsList | set/loop/Loop.cpp:85-93 | a drain runs exactly the list at the swap in push order and leaves pushes made meanwhile, even by every callback |
| EventLoop.DrainAsked | set/loop/Loop.cpp:85-93 | the callbacks of a drain, in the order of the list, do exactly what their actions say |
| EventLoop.ThrowInDrain | set/loop/Loop.cpp:85-93 | if the k-th callback of a drain throws, those behind it are neither run nor pending |
| EventLoop.PassOrderExact | set/loop/Loop.cpp:70-75 | a pass takes every copy of a due timer and no other |
| EventLoop.PassOrderSorted | set/loop/Loop.h:35-37 | in non-decreasing timestamp order |
| EventLoop.PassExact | set/loop/Loop.cpp:65-77 | due timers run in order, later ones stay, outtime is the earliest that stays, else the last that ran, else unchanged |
| EventLoop.ThrowInPass | set/loop/Loop.cpp:70-76 | a timer whose callback throws has run and stays queued, outtime stays, and the next pass that reaches its time runs it again |
| EventLoop.StepInv | set/loop/Loop.cpp:28-93 | requests, drains and passes keep list order and timer accounting |
| EventLoop.RunDelivers | set/loop/Loop.cpp:28-93 | in every state of every run the numbers of calls, the lists and the timers are those computed from the steps and the callbacks' actions alone |
| EventLoop.RunIsFaithful | set/loop/Loop.cpp:28-93 | against what requests and callbacks asked for, in every state of every run of callbacks that return: each list has run what was asked for up to its last drain, in order, and holds the rest; no timer fired before the time asked for, each fired once or is still queued |
| EventLoop.BodyAsked | set/loop/Loop.cpp:30-36 | a pass of the loop body takes exactly the actions of the callbacks it runs, first those of the idle list, then the timers', then those of the other list |
| EventLoop.PassRunsPushed | set/loop/Loop.cpp:30-36 | when a pass ends it has run exactly what was pushed on idle_ before it, and on runable_ before it or by its own callbacks before the last drain |
| EventLoop.PassRunsAsked | set/loop/Loop.cpp:30-36 | after any run, a pass runs all that the run's requests and callbacks asked for on either list |
| EventLoop.PassFiresDue | set/loop/Loop.cpp:30-36 | when the timer phase of a pass ends no queued timer is due, and every due timer scheduled before the pass has run |
| EventLoop.Loop.AddIdle | set/loop/Loop.cpp:48-50 | pushIdle appends to runable_ and changes no other field |
| EventLoop.Loop.AddRunable | set/loop/Loop.cpp:51-53 | pushRunable appends to idle_ and changes no other field |
| EventLoop.Loop.RequestQuit | set/loop/Loop.cpp:55-55 | quit raises the flag and changes no other field |
| EventLoop.Loop.Schedule | set/loop/Loop.cpp:57-60 | runAt adds a timer of the given time and callback and changes no other field |
| EventLoop.Loop.Invoke | set/loop/Loop.cpp:73-92 | calling a callback performs its actions in order |
| EventLoop.Loop.HandleRunnable | set/loop/Loop.cpp:85-93 | the swap and the loop over it are the model's drain |
| EventLoop.Loop.Top | set/loop/Loop.h:35-37 | the top of the queue is a timer of least timestamp |
| EventLoop.Loop.RunTop | set/loop/Loop.cpp:71-74 | the timer at the top runs and is popped if it is due, and stays if not |
| EventLoop.Loop.HandleTimer | set/loop/Loop.cpp:65-77 | the loop is a pass of the model, for some choice among equal timestamps |
| EventLoop.Loop.OnePass | set/loop/Loop.cpp:32-35 | one pass is drain, timer pass, drain of the model, with what PassRunsPushed and PassFiresDue say of it |
| EventLoop.OnlyLastQuits | set/loop/Loop.cpp:30-36 | of the passes of one run only the last can have a callback that quits |
| EventLoop.Loop.Run | set/loop/Loop.cpp:28-37 | a quit before run is forgotten; passes follow one another, end after the first one of whose callbacks quits, and go through all readings if none does; after one pass everything pushed before has run, and every timer scheduled before once a reading reached it |

## Left out

- EventLoop.RunIsFaithful: does not go on after a callback that throws, because the exception ends the loop; its effect is in ThrowInDrain and ThrowInPass.
- ThreadPool.Data.BindRun: covers a stretch in which no other thread takes the lock; interleavings are runs of the step machine.
- EventLoop.Loop.Run: stops after as many passes as it is given clock readings, because the loop need not end; `handle_io_source` and `get_outtime` are not modelled.
- EventLoop.Loop.HandleTimer: requires timer callbacks not to call runAt, which would lock a mutex the pass already holds.
- Buffer moves and destructor, the pool's destructor and thread creation: resource plumbing.
- The binary heap inside `std::priority_queue`: modelled as a multiset with extract-min.
- The rest of the server's event handling (accept, write, error paths) and Poll.h: they rest on kernel results.
- The countdown latch `Count` (set/thread_pool/Count.h): one counter under one lock, which would add easy members only.
- set/atomic/main2.cpp: needs a relaxed memory model; set/atomic/main.cpp: a fixed order of three steps.
- The string classes, process pool, inventory and all socket, signal, netlink, inotify and kernel-module programs: no algorithm with an invariant of its own.
