# A verified model of the bus/DRAM simulator, the cache model and the lockstep threads

Three parts of the repository are modelled and proved about.

**The discrete-event simulator.** A kernel takes the earliest event out of a queue, shows it to the
modules in turn and queues what they send. A test processor issues a list of reads and writes, a DRAM
serves them with row-dependent latency and stops for a refresh periodically, and both share a bus that
holds one request. `Scheduler` is the kernel on values, for arbitrary modules; `Orchestrator` has the
`Module` and `System` objects. `Devices` gives the processor and the memory as behaviours on shared
state, and `CpuModule` and `DramModule` are the objects that update that state in place, proved to do the
same. Which of several simultaneous events leaves the queue first is not determined by the program, so a
run is the list of queue positions chosen, and every safety and timing result holds for all of them.
`Protocol` and `Runs` carry the invariant, `Guarantees` reads the results off it. `InsertionOrderRuns` and
`Termination` take ties in insertion order: the whole simulation then follows a simple recurrence. `IssueTimes` has that
recurrence for arbitrary latencies, and its earliest and latest variants, which bound every order; `Paces` shows
that both bounds are met. `Words` says what is read and stored in terms of byte addresses alone. `TieBreaks`
says exactly when the simulation ends in every order, `LastWrite` when a last write is lost. `Simulator` puts
the objects together.

**The set-associative cache.** `Bits` has shifts, masks and logarithms, `CacheSets` the two kinds of set,
`CacheSpec` the address split and the lines an access steps through, `CacheOperations` the cache object.
`CacheLedger` is the reference: the list of tags allocated since the last flush, of which each set keeps
the last few. `CacheLaws` has laws about whole traces, and `CacheResults` says what each operation returns, leaves
in the sets and counts, without reference to how it is performed.

**The two threads** of the attach/detach test, which count in turns under one mutex: `Lockstep`.

What is proved, in short:

- The timed simulator refines a memory that performs the requests one after the other: same data read,
  same memory contents, in every reachable state and every order of simultaneous events. A word read is
  77 if an earlier request wrote the word at its address divided by 4, and otherwise the program's.
- Timing in closed form: request k is issued by 60k, at most 1560 time units after the one before it, and
  between two bounds that a recurrence computes and that some order meets; requests are served on arrival
  or at the end of a refresh; refreshes follow a calendar that does not depend on the traffic.
- With ties in insertion order the simulation ends, and its exit time, all issue times and the final
  memory are those of a recurrence. A last write is missing from the memory exactly if it arrives
  during a refresh, because the processor exits without waiting for it; 1024 writes are such a list.
  Every last write is missing in some order.
- In other orders the simulation need not end: a request that is retried just when a refresh is due to
  end is put off by zero time units, again and again. Every order ends exactly if the last request the
  processor waits for must reach the memory before time 1024. That holds for all lists of at most 43
  requests and for none of 514 or more.
- The indexed cache behaves as the ledger on every trace of accesses, flushes and resets. An access hits
  exactly if all lines it meets were held, leaves them held unless it is a store that does not allocate, and
  each counter is the number of accesses of its kind and result since the last reset.
- An access loops for ever exactly if the address after it lies past the first byte of the last line of
  the address space, and otherwise looks up exactly the lines it meets but for two corner cases there.
- The two threads never run apart, are never both inside the mutex and never unlock it while it is free.
  They never deadlock, end under every fair schedule, and both count to N exactly if N is at least 1. The
  first unlock, in every run, is made by the second thread on the mutex the main thread has locked, which
  POSIX leaves undefined for a default mutex; all others are made by the thread that holds it.

Where documentation and code disagree the code is followed. `doc/main.tex:514` says a refresh happens every
1024 cycles; the code waits 1024 cycles after each refresh has ended (`src/memory/memory.cpp:74-79`), so
refreshes start 2560 cycles apart. `IsPower2` is documented as testing for powers of two
(`src/pin/source/include/pin/pin_cache.H:42-45`) and also accepts zero. `Flush` clears one set more than the
cache has, which the model keeps: with as many sets as `MAX_SETS`, which the assertion at
`src/pin/source/include/pin/pin_cache.H:377` allows, it writes past the array. The assertions also let through a cache
smaller than one set (`cacheSize < associativity * lineSize`): it has no sets, and a mask that selects sets beyond
the array.

## Model

| member | source | states |
|---|---|---|
| MainBus.Bus.Set | src/bus/bus.cpp:8-21 | succeeds exactly on an idle bus, then holds the status and is busy; otherwise changes nothing |
| MainBus.Bus.Get | src/bus/bus.cpp:23-36 | succeeds exactly on a busy bus, returns what it holds and frees it, keeping its lines |
| MainBus.HandshakeIsOneSlotQueue | doc/main.tex:281-293 | over every sequence of calls, data sampled is the data driven, in order, none twice and none lost, with one item outstanding just while the bus is busy |
| Orchestrator.Module.SendWithDelay | src/orchestrator/module.cpp:40-49 | buffers the message with the next id at current time plus delay; a negative delay is dropped without using an id |
| Orchestrator.Module.Initialize | src/orchestrator/module.cpp:19-23 | hands over the buffered events and empties the buffer |
| Orchestrator.Module.Notify | src/orchestrator/module.cpp:26-32 | moves the local clock to the event, runs the handler, and returns all it sent, stamped and in order |
| Orchestrator.System.AddModule | src/orchestrator/System.cpp:9-12 | the modules stay sorted by descending priority and gain exactly the new one |
| Orchestrator.System.Insert | src/orchestrator/System.cpp:14-18 | an event enters the queue exactly if it is not in the past |
| Orchestrator.System.NotifyAll | src/orchestrator/System.cpp:20-34 | the round over the modules, cut short once the message is invalid, is the round on values, whose events come back reversed |
| Orchestrator.System.Tick | src/orchestrator/System.cpp:53-67 | one tick, despite two back-to-front drains, is the tick on values for some earliest event: it inserts each module's events as emitted, modules in reverse order |
| Orchestrator.System.Start | src/orchestrator/System.cpp:37-45 | queues the events buffered before the loop, module by module, each module's back to front |
| Orchestrator.System.Run | src/orchestrator/System.cpp:37-51 | what the loop reaches is the end of a legal run from the started system, complete unless the tick limit is hit |
| Scheduler.AllAreStamped | src/orchestrator/module.cpp:40-49 | the messages a handler sends, if none is dropped, get consecutive ids and are due after their delays, in order |
| Scheduler.NextModuleReacts | src/orchestrator/System.cpp:24-31 | while the message is valid, the next module reacts to the state the ones before it have left, and its events are inserted before theirs |
| Scheduler.GuardNeverRejects | src/orchestrator/System.cpp:14-18 | for arbitrary modules, everything sent during a tick passes the guard of insert |
| Scheduler.Causality | src/orchestrator/System.cpp:47-67 | for arbitrary modules and every run, events are processed in ascending time and none queued is ever in the past |
| Scheduler.Conservation | src/orchestrator/System.cpp:53-67 | for arbitrary modules and every run, initial events plus sent events are processed events plus queued events, as multisets |
| Scheduler.InterceptionSilencesTheRest | src/orchestrator/System.cpp:24-31 | after a module has invalidated a message, the modules behind it neither change the state nor contribute events |
| DramModule.Memory.constructor | src/memory/memory.cpp:3-30 | a fresh memory holds the program, is not refreshing, and has armed its refresh timer |
| Protocol.ServeTakesLatency | src/memory/memory.cpp:47-63 | the access time computed from the memory's own flags is the one the request history gives: the row of the request before, read or write |
| Guarantees.AnswerTakesLatency | src/memory/memory.cpp:81-105 | in every reachable state, a served read is answered with one response, after 15 time units, or in fast mode and after the first request 7 if the request before was to the same 1024 bytes and 23 if not; a write with none |
| Words.RowIsKilobyte | src/memory/memory.cpp:134-135 | a row is 1024 consecutive bytes, and there are as many rows as a refresh goes through |
| DramModule.Memory.OnReadRequest | src/memory/memory.cpp:81-105 | puts the cell on a free bus and answers after the access time; on a busy bus ends the process |
| DramModule.Memory.OnNotify | src/memory/memory.cpp:112-151 | what the handler does to memory, bus, messages and process in every case, with addresses, delays and intervals in numbers; and that it is what the behaviour on values does |
| CpuModule.CpuTest.SendRequest | src/orchestrator/CPUTest.cpp:74-104 | puts the next request with data 77 on a free bus and notifies the memory in one time unit, or schedules another try then |
| CpuModule.CpuTest.OnNotify | src/orchestrator/CPUTest.cpp:106-123 | when the handler receives data, exits or makes a request, and that it does to processor, bus, messages and process what the behaviour on values does |
| Protocol.TickIsDelivery | src/orchestrator/System.cpp:20-67 | a tick of the assembled system is the reaction of the addressee alone, whichever module is notified first |
| Protocol.PostponeTick | src/memory/memory.cpp:121-126 | a request arriving during a refresh is due again exactly when the refresh ends, and nothing else changes |
| Protocol.ServeReadTick | src/memory/memory.cpp:128-148 | serving a read keeps the invariant and answers after the latency its place in the row history gives |
| Protocol.ServeWriteTick | src/memory/memory.cpp:128-148 | serving a write keeps the invariant and frees the bus |
| Protocol.PollTick | src/orchestrator/CPUTest.cpp:82-90 | a try while the own write is pending keeps the invariant and changes nothing but the next try |
| Runs.Step | src/orchestrator/System.cpp:53-67 | whichever earliest event is taken, one tick leads to a state with the invariant or to a finished process |
| Guarantees.RefinesSequentialMemory | src/memory/memory.cpp:81-150 | in every reachable state the memory is the initial one after the requests issued, less one in flight, and the data received are the sequential reads, less one in flight |
| Guarantees.ReadsReturnLastWord | src/memory/memory.cpp:134-146 | in every reachable state the words received are, read by read, 77 if an earlier request wrote address / 4, and otherwise the program's word there; all reads are answered at the exit |
| Guarantees.MemoryHoldsLastWord | src/memory/memory.cpp:134-146 | in every reachable state each word of the memory is 77 if one of the requests served wrote it, and otherwise the program's; all requests issued but at most one are served |
| Guarantees.ExitsOnlyWithSuccess | src/orchestrator/CPUTest.cpp:106-122 | whenever the process exits it reports success, every read was answered as by a sequential memory, at most a last write is missing, and the time is bounded |
| Guarantees.TimeBound | src/memory/memory.cpp:51-63 | in every reachable state the time is at most 60 per request issued, request k was issued between k and 60k, and consecutive requests are issued 1 to 1560 apart |
| IssueTimes.IssueEnvelope | src/memory/memory.cpp:81-126 | in every order, request k is issued between its earliest and its latest time, two recurrences over the latencies that differ in how ties at the start of a refresh and after a write fall |
| Paces.EnvelopeIsAttained | src/orchestrator/System.h:11-16 | some order issues all requests at their earliest times, and some order all at their latest, up to the exit |
| Guarantees.ServiceGuarantee | src/memory/memory.cpp:112-126 | every request is served one unit after issue or at the end of a refresh started by then, never strictly inside a refresh, and time does not pass that moment while it waits |
| Guarantees.RefreshSchedule | src/memory/memory.cpp:65-79 | whatever the traffic, refresh k runs from 1024 + 2560k to 2560(k + 1): refreshing strictly inside, not strictly outside |
| Guarantees.PhaseInvariant | src/orchestrator/CPUTest.cpp:74-122 | between ticks the queue holds the refresh timer and the events of one of four phases, and the bus holds what the phase says |
| Guarantees.PhaseIsUnique | src/orchestrator/CPUTest.cpp:74-122 | the phase and its events are determined by queue and bus |
| Guarantees.MemoryErrorsUnreachable | src/memory/memory.cpp:87-144 | a failed get, an undefined status, a failed set and a dropped retry never happen in a reachable state |
| Guarantees.ProcessorFindsBusReady | src/orchestrator/CPUTest.cpp:82-115 | a response always finds data on the bus, and a request finds the bus busy only while the processor's own write is pending |
| SequentialMemory.CalendarMatchesConstants | src/memory/memory.h:20-29 | the calendar is what an interval before each refresh and a refresh of 24 units for each of 64 rows add up to |
| SequentialMemory.StrictlyInsideIffBetween | src/memory/memory.h:25-29 | the refresh calendar in closed form: a time is inside a refresh exactly if it is more than 1024 modulo 2560 |
| SequentialMemory.ServiceIsDetermined | src/memory/memory.cpp:121-126 | a request has one possible service time, or two if it arrives as a refresh starts |
| InsertionOrderRuns.ExactServeReadTick | src/memory/memory.cpp:128-148 | with ties in insertion order, a read is served at exactly the time the recurrence gives |
| InsertionOrderRuns.ExactExitTick | src/orchestrator/CPUTest.cpp:116-119 | with ties in insertion order, the exit happens at the foreseen time, with the last write performed or not as foreseen |
| Termination.RunsAreShortButForRetries | src/orchestrator/System.cpp:47-67 | in every order, a run on n requests has at most 180n + 1 ticks besides zero-delay retries |
| Termination.InsertionOrderRun | src/orchestrator/System.cpp:47-67 | every run with ties in insertion order stays within that bound, can go on until the process exits, and exits exactly as the recurrence foresees |
| Termination.SimulationMatchesRecurrence | src/orchestrator/System.cpp:37-67 | with ties in insertion order the process exits within that many ticks, and exit time, issue times, data read and final memory are those of the recurrence |
| TieBreaks.EveryOrderEndsIff | src/memory/memory.cpp:121-126 | runs are bounded in every order exactly if the last request the processor waits for must arrive before the first refresh |
| TieBreaks.SomeOrderNeverEnds | src/memory/memory.cpp:121-126 | otherwise there are runs of any length that have not exited |
| TieBreaks.LengthDecides | src/orchestrator/CPUTest.cpp:74-104 | lists of at most 43 requests end in every order, and lists of at least 514 do not, whatever the requests |
| TieBreaks.RetryForever | src/memory/memory.cpp:121-126 | a retry taken just before the end of a refresh leaves everything as it was, any number of times |
| LastWrite.LastWriteMayBeLostIff | src/orchestrator/CPUTest.cpp:97-119 | some order exits with the last request not performed, and the memory as without it, exactly if that request is a write |
| LastWrite.LastOf1024WritesIsLost | src/orchestrator/CPUTest.cpp:97-119 | with ties in insertion order, the last of 1024 writes is lost |
| LastWrite.SomeMemoryIsWrong | src/orchestrator/CPUTest.cpp:97-119 | there are lists for which the final memory then differs from the sequential one |
| RowBuffer.RowBufferAccounting | src/memory/memory.cpp:47-63 | total read delay over any request list: 15 per read, in fast mode plus 8 per row miss less 8 per row hit |
| RowBuffer.FastPaysOffIff | doc/main.tex:516-531 | fast mode is no slower in total exactly if there are at least as many row hits as misses |
| IssueTimes.FasterReadsIssueEarlier | src/memory/memory.cpp:81-126 | no timing anomalies: for arbitrary latencies, making any reads faster makes no later request later, neither with ties in insertion order nor in its earliest or latest time over all orders |
| IssueTimes.FasterReadsFinishEarlier | src/orchestrator/CPUTest.cpp:106-119 | with ties in insertion order, making any reads faster does not make the process exit later |
| IssueTimes.InOrderIsFinishTime | src/orchestrator/CPUTest.cpp:106-119 | the exit time of the simulator in insertion order is that of the recurrence for its own latencies |
| RowBuffer.FastModeFinish | doc/main.tex:516-531 | with ties in insertion order, and with refreshes and arrival times included, fast mode never ends later without row misses, nor earlier without row hits |
| Simulator.Simulate | src/orchestrator/simulator.cpp:14-25 | the assembled objects compute what a sequential memory would, within the time bound, whatever the queue does with ties; they exit once the tick limit exceeds the bound by the zero-delay retries of the run, and in insertion order at the time and with the memory of the recurrence |
| Bits.FloorLog2 | src/pin/source/include/pin/pin_cache.H:56-69 | p with 2^p <= n < 2^(p+1), and -1 for 0 |
| Bits.IsPower2Accepts | src/pin/source/include/pin/pin_cache.H:46-49 | the bit test accepts exactly zero and the powers of two |
| Bits.ShiftIsDivision | src/pin/source/include/pin/pin_cache.H:263-274 | shifting right is dividing by a power of two and masking takes the remainder |
| Bits.ClearLowBits | src/pin/source/include/pin/pin_cache.H:405-424 | masking with the complement in a word of given width gives the start of the line |
| CacheSpec.SplitRoundTrip | src/pin/source/include/pin/pin_cache.H:263-274 | tag times line size plus line index is the address, and the set index is the tag modulo the number of sets |
| CacheSpec.VisitsInOrder | src/pin/source/include/pin/pin_cache.H:406-426 | the lines looked up follow each other cyclically from the line of the address, none twice, up to the first that does not start below the high address |
| CacheSpec.VisitsTheLinesMetIff | src/pin/source/include/pin/pin_cache.H:386-426 | exactly when an access that ends, wrapping round or not, looks up exactly the lines its addresses lie in |
| CacheSpec.AccessLoopEndsIff | src/pin/source/include/pin/pin_cache.H:401-426 | the loop ends exactly if the wrapped high address is not past the first byte of the last line |
| CacheSpec.SomeAccessesFail | src/pin/source/include/pin/pin_cache.H:401-426 | for 32 bits and 64-byte lines: an access of 4 bytes that does not end, and one of 128 that misses a line |
| CacheSets.ReplaceIsFirstInFirstOut | src/pin/source/include/pin/pin_cache.H:168-176 | replacing drops the oldest tag, appends the new one and keeps the order of the rest |
| CacheSets.FindSearchesQueue | src/pin/source/include/pin/pin_cache.H:153-166 | finding a tag is membership in the queue of the last tags |
| CacheSets.FlushEmptiesQueue | src/pin/source/include/pin/pin_cache.H:177-184 | a flushed set holds the initial zeros, with the pointer on the oldest |
| CacheSets.RoundRobinSet.constructor | src/pin/source/include/pin/pin_cache.H:133-143 | a new set of the given associativity holds zeros; with associativity 0, which the assertion admits, the next slot is beyond the array |
| CacheSets.RoundRobinSet.SetAssociativity | src/pin/source/include/pin/pin_cache.H:145-150 | restricts the set to its first slots and restarts the pointer, which is beyond the array for associativity 0 |
| CacheSets.RoundRobinSet.Find | src/pin/source/include/pin/pin_cache.H:153-166 | the downward search finds a tag exactly if a used slot holds it |
| CacheSets.RoundRobinSet.Replace | src/pin/source/include/pin/pin_cache.H:168-176 | in place, the queue loses its oldest tag and gains the new one |
| CacheSets.RoundRobinSet.Flush | src/pin/source/include/pin/pin_cache.H:177-184 | in place, the queue becomes zeros and unused slots are kept |
| CacheOperations.Cache.constructor | src/pin/source/include/pin/pin_cache.H:289-300 | whatever the assertions let through: as many sets as fit into the cache size, all empty with the given associativity, and counters zero; if not even one fits, no sets and a mask that no array fits |
| CacheOperations.Cache.AccessLines | src/pin/source/include/pin/pin_cache.H:406-426 | the in-place loop ends and looks up the lines to visit one after the other, true exactly if each hit when visited |
| CacheOperations.Cache.Access | src/pin/source/include/pin/pin_cache.H:399-431 | the access performs the operation on values and counts it once |
| CacheOperations.Cache.AccessSingleLine | src/pin/source/include/pin/pin_cache.H:437-457 | looks up one line and counts it once |
| CacheOperations.Cache.Flush | src/pin/source/include/pin/pin_cache.H:462-469 | clears the sets up to and including number NumSets, or none if that number is negative in 32 bits, and keeps the counters |
| CacheOperations.FlushReaches | src/pin/source/include/pin/pin_cache.H:462-469 | with fewer than 2^31 sets a flush stays inside the array exactly if the array has room for one more set; with 2^31 it clears nothing |
| CacheOperations.Cache.ResetStats | src/pin/source/include/pin/pin_cache.H:472-480 | zeroes the counters and keeps the sets |
| CacheResults.SingleLineResult | src/pin/source/include/pin/pin_cache.H:437-457 | a single-line access is to line addr / lineSize; it hits exactly if that line's set holds it, drops the oldest tag for it on a miss unless it is a store without allocation, and touches no other set |
| CacheResults.AccessResult | src/pin/source/include/pin/pin_cache.H:399-431 | an access of at most as many lines as sets hits exactly if every line it meets was held, changes the set of each as a single-line access does, and no other set |
| CacheResults.AccessLeavesLinesHeld | src/pin/source/include/pin/pin_cache.H:418-422 | after a load, or a store that allocates, each line met is held |
| CacheResults.AccessIsSingleLines | src/pin/source/include/pin/pin_cache.H:406-426 | an access of any number of lines leaves the sets as single-line accesses to the lines it meets, in order, and hits exactly if all those do |
| CacheResults.StoresChangeNoSet | src/pin/source/include/pin/pin_cache.H:418-422 | without store allocation no store changes any set |
| CacheResults.FlushResult | src/pin/source/include/pin/pin_cache.H:462-469 | a flush leaves zeros in sets 0 to NumSets, and changes no other set and no counter; with 2^31 sets it changes nothing |
| CacheResults.StatisticsCount | src/pin/source/include/pin/pin_cache.H:428-480 | after every trace each counter is the number of accesses of its kind that returned its result since the last reset, on top of its old value if there was none |
| CacheLedger.CacheRefinesLedger | src/pin/source/include/pin/pin_cache.H:399-480 | on every trace the indexed cache returns and counts what the ledger of allocations does, and each set is the window of its last allocations |
| CacheLedger.TraceEquivalence | src/pin/source/include/pin/pin_cache.H:105-185 | caches of equal geometry and associativity cannot be told apart by results or statistics; so direct-mapped is one-way round-robin |
| CacheLaws.IndexedLookupIsFullSearch | src/pin/source/include/pin/pin_cache.H:263-267 | after every trace a nonzero tag occurs once, in the set its bits name, so an indexed lookup agrees with searching the whole cache |
| CacheLaws.TagsOccurOnce | src/pin/source/include/pin/pin_cache.H:415-422 | no trace puts a nonzero tag twice into a set |
| CacheLaws.CompulsoryMissesOnly | src/pin/source/include/pin/pin_cache.H:437-457 | from an empty cache, allocating accesses that fit into each set miss on each tag at most once |
| CacheLaws.RepeatedLoadChangesNothing | src/pin/source/include/pin/pin_cache.H:399-431 | a load that ends and looks up at most as many lines as there are sets, repeated at once, hits and changes only the hit counter |
| CacheLaws.AccessWithinOneLine | src/pin/source/include/pin/pin_cache.H:386-389 | an access within one line that ends equals the single-line access, exactly unless it is empty and at the start of the last line |
| CacheLaws.HitsPlusMisses | src/pin/source/include/pin/pin_cache.H:428-480 | hits plus misses are the accesses since the last reset |
| Lockstep.StepKeepsInv | src/pin/source/tools/AttachDetach/detach_syscall_app.cpp:52-103 | every step of either thread keeps the protocol's invariant |
| Lockstep.CountersStayTogether | src/pin/source/tools/AttachDetach/detach_syscall_app.cpp:52-98 | for every schedule, second - 1 <= main <= max(second, 1), and second <= N |
| Lockstep.UnlocksAreByHolderIff | src/pin/source/tools/AttachDetach/detach_syscall_app.cpp:52-98 | for every schedule the threads are never both inside and never unlock a free mutex; an unlock is by the thread that locked it exactly if it is not the second thread's before its first count |
| Lockstep.FirstUnlockIsNotByHolder | src/pin/source/tools/AttachDetach/detach_syscall_app.cpp:57-81 | in every run the first unlock is the second thread's, of the mutex the main thread has locked |
| Lockstep.BothCountToN | src/pin/source/tools/AttachDetach/detach_syscall_app.cpp:52-103 | when both threads are done the counters are N and max(N, 1), hence equal exactly if N is at least 1 |
| Lockstep.RunsAreWaiting | src/pin/source/tools/AttachDetach/detach_syscall_app.cpp:63-95 | in every run all but 20N + 15 steps are spent in a waiting loop |
| Lockstep.NoDeadlock | src/pin/source/tools/AttachDetach/detach_syscall_app.cpp:52-103 | for every schedule, some thread can move exactly until both are done, and if a thread waits outside the mutex the other can move |
| Lockstep.FairSchedulesEnd | src/pin/source/tools/AttachDetach/detach_syscall_app.cpp:52-103 | a schedule in which every thread not yet done moves at least once in b + 1 steps has at most (20N + 15)(b + 1) + b steps, and can be continued unless both are done |
| Lockstep.CanAlwaysFinish | src/pin/source/tools/AttachDetach/detach_syscall_app.cpp:52-103 | every schedule can be continued to one in which both threads are done |

## Left out

- Orchestrator.System.Run: takes a limit on the number of ticks, because the loop need not end; Termination and TieBreaks say when it does.
- Simulator.Simulate: takes the same limit; it promises the exit whenever the limit exceeds the bound by the zero-delay retries of the run.
- Orchestrator.System.Top: the heap is modelled as yielding some event of least time; this loop takes one such event, and nothing else is promised of it.
- Orchestrator.System.AddModule: sorting is modelled as insertion by descending priority; which of two modules of equal priority comes first is not promised.
- Orchestrator.Module.Notify: a handler is a function from shared state, time and message to a reaction, not a virtual method; the processor and memory objects are proved equal to such functions but are not stored in the system object.
- Message fields other than validity are not changed by handlers; freeing of messages and events is left out.
- CacheOperations.Cache.constructor: takes the array of sets as freshly allocated, and requires a line size and an associativity whose product is not 0 in 32 bits, by which the source divides.
- CacheOperations.Cache.AccessLines: is only for calls whose loop ends, as AccessLoopEndsIff says; the sets are inline values in an array, as in the source, and the set object that updates its slots in place is modelled on its own as RoundRobinSet.
- CacheOperations.Cache.Access: calls whose loop does not end have no result and are not permitted.
- CacheOperations.Cache.Flush: a cache with as many sets as its array holds, below 2^31, is not permitted, as the source then writes past the array; FlushReaches says exactly when.
- CacheSets.RoundRobinSet.Find: associativities of 2^31 and more, for which the signed loop index of the source is negative, are treated like smaller ones; so are the other loops over the slots.
- CacheSpec.VisitsTheLinesMetIff: takes the size to be less than the address space, as 32-bit sizes are.
- The counters of flushes and resets (never initialised), cache statistics as text, and CeilLog2.
- Simulated time and message ids are unbounded integers; overflow of the source's 32-bit fields is not modelled.
- The processor's operation counter is taken to start at 0; the source does not initialise it.
- Reading the program and request files, random request generation, command-line parsing and logging: request list, mode and initial memory are arbitrary inputs.
- Lockstep: a counter increment is one step, since each counter has a single writer; memory ordering of the volatile variables is not modelled.
- Profile counters, launcher scripts, the example module and the rest of the Pin kit: simple code, or calls into Pin and the operating system.
