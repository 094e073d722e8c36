// The assembled simulator: a processor and a memory on one bus, run by the
// event kernel.
module Simulator {
  import opened MainBus
  import opened SequentialMemory
  import opened Scheduler
  import opened Devices
  import opened Protocol
  import opened Runs
  import opened Guarantees
  import opened InsertionOrderRuns
  import opened Termination
  import opened TieBreaks
  import opened Words
  import opened Orchestrator

  function StartingWorld(requests: seq<Access>, mode: Mode, program: Dram): World {
    var idle := BusStatus(Undefined, 0, 0);
    World(BusState(false, idle),
          CpuState(requests, 0, idle, [], []),
          MemState(mode, program, true, 0, false, 0, idle, []))
  }

  lemma FirstEventsOfTwo(a: Event, b: Event, now: int)
    requires now <= a.time && now <= b.time
    ensures FirstEvents([[a], [b]], now) == [a, b]
  {
    assert [[a], [b]][..1] == [[a]];
    assert [[a]][..0] == [];
    assert [a][..0] == [] && [b][..0] == [];
    assert Reversed([a]) == [a] && Reversed([b]) == [b];
    assert Accepted([a], now) == [a] && Accepted([b], now) == [b];
    assert FirstEvents([[a]], now) == [a];
  }

  lemma TwoModules(ms: seq<Module<World>>, a: Module<World>, b: Module<World>)
    requires multiset(ms) == multiset{a} + multiset{b}
    ensures ms == [a, b] || ms == [b, a]
  {
    assert |ms| == |multiset(ms)| == 2;
    assert ms == [ms[0], ms[1]];
    assert ms[0] in multiset(ms) && ms[1] in multiset(ms);
    assert multiset(ms) == multiset{ms[0]} + multiset{ms[1]};
    assert (multiset{a} + multiset{b})[a] >= 1 && (multiset{a} + multiset{b})[b] >= 1;
  }

  lemma TwoHandlers(ms: seq<Module<World>>, a: Module<World>, b: Module<World>, was: map<Module<World>, seq<Event>>)
    requires a != b && a in was && b in was
    requires ms == [a, b] || ms == [b, a]
    ensures Handlers([a, b]) == [a.onNotify, b.onNotify] && Handlers([b, a]) == [b.onNotify, a.onNotify]
    ensures Buffers(ms, was) == if ms == [a, b] then [was[a], was[b]] else [was[b], was[a]]
  {
  }

  // What an observer of a run may rely on, before and after the exit.
  ghost predicate Observed(c: Setup, s: Sim<World>) {
    && s.now <= 60 * |c.requests|
    && s.world.cpu.received <= ReadsOf(c.dram, c.requests)
    && (s.exit.Some? ==>
      && s.exit == Some(0)
      && s.world.cpu.received == ReadsOf(c.dram, c.requests)
      && (s.world.mem.dram == ApplyAll(c.dram, c.requests)
          || (c.requests != [] && c.requests[|c.requests| - 1].request.Write?
              && s.world.mem.dram == ApplyAll(c.dram, c.requests[..|c.requests| - 1]))))
  }

  lemma GoodIsObserved(c: Setup, s: Sim<World>)
    requires Good(c, s)
    ensures Observed(c, s)
  {
    ReceivedIsPrefix(c, s);
    if s.exit.None? {
      var p :| Inv(c, s, p);
      PendingBound(c, s, p);
    } else {
      assert c.requests[..|c.requests|] == c.requests;
    }
  }

  // The same without running a memory.
  lemma ObservedWords(c: Setup, s: Sim<World>)
    requires Observed(c, s)
    ensures ReadsAnswered(c.dram, c.requests, s.world.cpu.received)
    ensures s.exit.Some? ==>
      && |s.world.cpu.received| == ReadsBefore(c.requests, |c.requests|)
      && (HoldsWords(c.dram, c.requests, |c.requests|, s.world.mem.dram)
          || (c.requests != [] && c.requests[|c.requests| - 1].request.Write?
              && HoldsWords(c.dram, c.requests, |c.requests| - 1, s.world.mem.dram)))
  {
    AllReads(c.dram, c.requests, s.world.cpu.received);
    MemoryAfter(c.dram, c.requests, |c.requests|);
    assert c.requests[..|c.requests|] == c.requests;
    if c.requests != [] {
      MemoryAfter(c.dram, c.requests, |c.requests| - 1);
    }
  }

  // A module that has sent itself its first message.
  method Boot(ids: MessageIds, name: Name, h: Handler<World>, delay: nat) returns (m: Module<World>)
    modifies ids
    ensures fresh(m) && m.onNotify == h && ids.last == old(ids.last) + 1
    ensures m.events == [Event(delay, Message(ids.last, true, 0, name, name))]
  {
    m := new Module(name, 0, h);
    m.SendWithDelay(ids, NewMessage(0, name, name), delay);
  }

  const FIRST_WAKE := Event(0, Message(1, true, 0, CPU, CPU))
  const FIRST_TIMER := Event(REFRESHING_INTERVAL, Message(2, true, 0, MEM, MEM))

  // The system with its two modules, before the event loop.
  method Assemble(w: World) returns (system: System<World>, cpu: Module<World>, mem: Module<World>)
    ensures fresh(system) && fresh(system.ids) && fresh(cpu) && fresh(mem) && cpu != mem
    ensures system.modules == [cpu, mem] || system.modules == [mem, cpu]
    ensures Assembled(Handlers(system.modules))
    ensures system.Buffered() == [[FIRST_WAKE], [FIRST_TIMER]] || system.Buffered() == [[FIRST_TIMER], [FIRST_WAKE]]
    ensures system.View() == Sim(0, 2, [], w, None)
  {
    var ids := new MessageIds();
    system := new System(w, ids);
    cpu := Boot(ids, CPU, CpuReact, 0);
    mem := Boot(ids, MEM, MemReact, REFRESHING_INTERVAL);
    system.AddModule(cpu);
    system.AddModule(mem);
    assert multiset(system.modules) == multiset{cpu} + multiset{mem};
    TwoModules(system.modules, cpu, mem);
    TwoHandlers(system.modules, cpu, mem, system.Snapshot());
  }

  lemma StartIsInitial(c: Setup, start: Sim<World>, buffered: seq<seq<Event>>)
    requires buffered == [[FIRST_WAKE], [FIRST_TIMER]] || buffered == [[FIRST_TIMER], [FIRST_WAKE]]
    requires start == Sim(0, 2, [] + FirstEvents(buffered, 0), StartingWorld(c.requests, c.mode, c.dram), None)
    ensures Initial(c, start)
  {
    FirstEventsOfTwo(FIRST_WAKE, FIRST_TIMER, 0);
    FirstEventsOfTwo(FIRST_TIMER, FIRST_WAKE, 0);
  }

  lemma ExitOrEvents(c: Setup, s: Sim<World>)
    requires Good(c, s)
    ensures s.exit.Some? || s.queue != []
  {
    if s.exit.None? {
      var p :| Inv(c, s, p);
      QueueLength(s.queue, p.timer, p.phase);
    }
  }

  // A run of the assembled simulator.
  ghost predicate IsRun(c: Setup, hs: seq<Handler<World>>, start: Sim<World>, choices: seq<nat>) {
    Assembled(hs) && Initial(c, start) && Legal(hs, start, choices)
  }

  // The most ticks a run takes without zero-delay retries.
  function Enough(requests: seq<Access>): nat { 180 * |requests| + 1 }

  // The queue never runs empty, so only the exit can stop a run early.
  lemma RunGetsToTheExit(c: Setup, hs: seq<Handler<World>>, start: Sim<World>, choices: seq<nat>, fuel: nat)
    requires IsRun(c, hs, start, choices)
    requires |choices| == fuel || After(hs, start, choices).queue == [] || After(hs, start, choices).exit.Some?
    ensures Observed(c, After(hs, start, choices))
    ensures fuel > Enough(c.requests) + ZeroDelayRetries(hs, start, choices) ==> After(hs, start, choices).exit.Some?
    ensures fuel > Enough(c.requests) && EndsInAnyOrder(c) ==> After(hs, start, choices).exit.Some?
  {
    InitialIsGood(c, start);
    RunsStayGood(c, hs, start, choices);
    GoodIsObserved(c, After(hs, start, choices));
    ExitOrEvents(c, After(hs, start, choices));
    RunsAreShortButForRetries(c, hs, start, choices);
    EveryOrderEndsIff(c, hs, start);
  }

  lemma InInsertionOrderAsForeseen(c: Setup, hs: seq<Handler<World>>, start: Sim<World>, choices: seq<nat>, fuel: nat)
    requires IsRun(c, hs, start, choices)
    requires |choices| == fuel || After(hs, start, choices).queue == [] || After(hs, start, choices).exit.Some?
    ensures var t := After(hs, start, choices);
      fuel > Enough(c.requests) && InInsertionOrder(hs, start, choices) ==>
        t.exit.Some? && t.now == FinishTime(c) && t.world.mem.dram == ApplyAll(c.dram, PerformedInOrder(c))
  {
    if fuel > Enough(c.requests) && InInsertionOrder(hs, start, choices) {
      InsertionOrderRun(c, hs, start, choices);
      InitialIsGood(c, start);
      RunsStayGood(c, hs, start, choices);
      ExitOrEvents(c, After(hs, start, choices));
      assert c.requests[..|c.requests|] == c.requests;
    }
  }

  // Whatever the heap does with simultaneous events: the data read so far is
  // always a prefix of what a sequential memory would answer, at most 60
  // time units pass per request, and if the process exits within the given
  // number of ticks, it reports success with every read answered and at most
  // a last write missing from the memory.  Given enough ticks for the requests
  // and the zero-delay retries of the run it does exit.  There are none of
  // these if no request that is waited for can be caught by a refresh, nor if
  // ties are taken in insertion order; then the outcome is the recurrence's.
  method Simulate(requests: seq<Access>, mode: Mode, program: Dram, fuel: nat)
    returns (exit: Option<int>, received: seq<Word>, dram: Dram, time: int,
             ghost hs: seq<Handler<World>>, ghost start: Sim<World>, ghost choices: seq<nat>)
    ensures time <= 60 * |requests|
    ensures received <= ReadsOf(program, requests)
    ensures exit.Some? ==> exit == Some(0) && received == ReadsOf(program, requests)
    ensures exit.Some? ==>
      || dram == ApplyAll(program, requests)
      || (requests != [] && requests[|requests| - 1].request.Write?
          && dram == ApplyAll(program, requests[..|requests| - 1]))
    ensures ReadsAnswered(program, requests, received)
    ensures exit.Some? ==>
      && |received| == ReadsBefore(requests, |requests|)
      && (HoldsWords(program, requests, |requests|, dram)
          || (requests != [] && requests[|requests| - 1].request.Write?
              && HoldsWords(program, requests, |requests| - 1, dram)))
    ensures IsRun(Setup(requests, mode, program), hs, start, choices)
    ensures fuel > Enough(requests) + ZeroDelayRetries(hs, start, choices) ==> exit.Some?
    ensures fuel > Enough(requests) && EndsInAnyOrder(Setup(requests, mode, program)) ==> exit.Some?
    ensures fuel > Enough(requests) && InInsertionOrder(hs, start, choices) ==>
      && exit.Some? && time == FinishTime(Setup(requests, mode, program))
      && dram == ApplyAll(program, PerformedInOrder(Setup(requests, mode, program)))
  {
    ghost var c := Setup(requests, mode, program);
    var system, cpu, mem := Assemble(StartingWorld(requests, mode, program));
    hs := Handlers(system.modules);
    ghost var buffered := system.Buffered();
    start, choices := system.Run(fuel);
    StartIsInitial(c, start, buffered);
    RunGetsToTheExit(c, hs, start, choices, fuel);
    ObservedWords(c, system.View());
    InInsertionOrderAsForeseen(c, hs, start, choices, fuel);
    exit, received, dram, time := system.exit, system.world.cpu.received, system.world.mem.dram, system.currentTime;
  }
}
