// The guarantees of the simulator, read off its invariant: for every setup and
// every reachable state, whatever order simultaneous events are taken in.
module Guarantees {
  import opened MainBus
  import opened SequentialMemory
  import opened Scheduler
  import opened Devices
  import opened Protocol
  import opened Runs
  import opened Words

  ghost predicate Queued(s: Sim<World>, source: Name, dest: Name) {
    exists e :: e in s.queue && Carries(e, source, dest)
  }

  // ----- functional correctness -----

  lemma QueuedInSituation(s: Sim<World>, p: Situation)
    requires QueueOk(s, p)
    ensures Queued(s, CPU, MEM) <==> p.phase.Writing? || p.phase.Reading?
    ensures Queued(s, MEM, CPU) <==> p.phase.Responding?
    ensures Queued(s, CPU, CPU) <==> p.phase.Idle? || p.phase.Writing?
  {
    forall e
      ensures e in s.queue <==> e in multiset{p.timer} + Others(p.phase)
    {
      assert e in s.queue <==> e in multiset(s.queue);
    }
    match p.phase
    case Idle(wake) => assert wake in s.queue;
    case Writing(request, wake) => assert request in s.queue && wake in s.queue;
    case Reading(request) => assert request in s.queue;
    case Responding(response) => assert response in s.queue;
  }

  // The timed simulator refines the sequential memory.  The memory holds the
  // result of the requests issued so far except one still on its way, and the
  // processor has received exactly the reads among them, in order, except one
  // still on the bus.
  lemma RefinesSequentialMemory(c: Setup, s: Sim<World>)
    requires Reachable(c, s) && s.exit.None?
    ensures var w := s.world;
      var done := w.cpu.opCounter - if Queued(s, CPU, MEM) then 1 else 0;
      && 0 <= done <= |c.requests|
      && w.mem.dram == ApplyAll(c.dram, c.requests[..done])
      && w.cpu.received + (if Queued(s, MEM, CPU) then [w.bus.lines.data] else [])
           == ReadsOf(c.dram, c.requests[..done])
  {
    ReachableIsGood(c, s);
    var p :| Inv(c, s, p);
    QueuedInSituation(s, p);
  }

  lemma ReceivedIsPrefix(c: Setup, s: Sim<World>)
    requires Good(c, s)
    ensures s.world.cpu.received <= ReadsOf(c.dram, c.requests)
    ensures |s.world.mem.servedAt| <= |c.requests|
    ensures s.world.mem.dram == ApplyAll(c.dram, c.requests[..|s.world.mem.servedAt|])
  {
    if s.exit.None? {
      var p :| Inv(c, s, p);
      ReadsOfPrefix(c.dram, c.requests, Performed(s.world, p.phase));
    }
  }

  // In every reachable state the words received are those the reads of the
  // list ask for, in order: 77 if an earlier request wrote the word at that
  // address, and otherwise what the program put there.
  lemma ReadsReturnLastWord(c: Setup, s: Sim<World>)
    requires Reachable(c, s)
    ensures ReadsAnswered(c.dram, c.requests, s.world.cpu.received)
    ensures |s.world.cpu.received| <= ReadsBefore(c.requests, |c.requests|)
    ensures s.exit.Some? ==> |s.world.cpu.received| == ReadsBefore(c.requests, |c.requests|)
  {
    ReachableIsGood(c, s);
    ReceivedIsPrefix(c, s);
    AllReads(c.dram, c.requests, s.world.cpu.received);
  }

  // And every cell of the memory is what the requests performed so far, which
  // are all but at most one of those issued, have left there.
  lemma MemoryHoldsLastWord(c: Setup, s: Sim<World>)
    requires Reachable(c, s)
    ensures |s.world.mem.servedAt| <= s.world.cpu.opCounter <= |s.world.mem.servedAt| + 1
    ensures s.world.cpu.opCounter <= |c.requests| && (s.exit.Some? ==> s.world.cpu.opCounter == |c.requests|)
    ensures HoldsWords(c.dram, c.requests, |s.world.mem.servedAt|, s.world.mem.dram)
  {
    ReachableIsGood(c, s);
    ReceivedIsPrefix(c, s);
    MemoryAfter(c.dram, c.requests, |s.world.mem.servedAt|);
  }

  // The process never fails; when it exits, every word read was right, and at
  // most one trailing write is missing from the memory.
  lemma ExitsOnlyWithSuccess(c: Setup, s: Sim<World>)
    requires Reachable(c, s) && s.exit.Some?
    ensures s.exit == Some(0)
    ensures s.world.cpu.received == ReadsOf(c.dram, c.requests)
    ensures s.world.mem.dram == ApplyAll(c.dram, c.requests)
      || (c.requests != [] && c.requests[|c.requests| - 1].request.Write?
          && s.world.mem.dram == ApplyAll(c.dram, c.requests[..|c.requests| - 1]))
    ensures s.now <= 60 * |c.requests|
  {
    ReachableIsGood(c, s);
    assert c.requests[..|c.requests|] == c.requests;
  }

  // ----- timing -----

  lemma TimeBound(c: Setup, s: Sim<World>)
    requires Reachable(c, s)
    ensures s.now <= 60 * s.world.cpu.opCounter
    ensures |s.world.cpu.issuedAt| == s.world.cpu.opCounter
    ensures forall k :: 0 <= k < s.world.cpu.opCounter ==> k <= s.world.cpu.issuedAt[k] <= 60 * k
    ensures forall k :: 0 < k < s.world.cpu.opCounter ==>
      s.world.cpu.issuedAt[k - 1] < s.world.cpu.issuedAt[k] <= s.world.cpu.issuedAt[k - 1] + 1560
  {
    ReachableIsGood(c, s);
    var w := s.world;
    if s.exit.None? {
      var p :| Inv(c, s, p);
      PendingBound(c, s, p);
    }
    forall k | 0 <= k < w.cpu.opCounter
      ensures k <= w.cpu.issuedAt[k] <= 60 * k
    {
      IssueBound(c, w.cpu.issuedAt, w.mem.servedAt, k);
    }
    forall k | 0 < k < w.cpu.opCounter
      ensures w.cpu.issuedAt[k - 1] < w.cpu.issuedAt[k] <= w.cpu.issuedAt[k - 1] + 1560
    {
      IssueBound(c, w.cpu.issuedAt, w.mem.servedAt, k);
    }
  }

  // Each request is served on arrival or at the end of a refresh that had
  // started by then, and time does not pass the latest such moment while the
  // request is waiting.
  lemma ServiceGuarantee(c: Setup, s: Sim<World>)
    requires Reachable(c, s)
    ensures |s.world.mem.servedAt| <= |s.world.cpu.issuedAt| <= |s.world.mem.servedAt| + 1
    ensures forall k :: 0 <= k < |s.world.mem.servedAt| ==>
      && MayBeServed(s.world.cpu.issuedAt[k], s.world.mem.servedAt[k])
      && !StrictlyInsideRefresh(s.world.mem.servedAt[k])
    ensures s.exit.None? && Queued(s, CPU, MEM) ==>
      s.world.cpu.issuedAt != [] && s.now <= ServiceTime(s.world.cpu.issuedAt[|s.world.cpu.issuedAt| - 1])
  {
    ReachableIsGood(c, s);
    TimeBound(c, s);
    var issuedAt, servedAt := s.world.cpu.issuedAt, s.world.mem.servedAt;
    if s.exit.None? {
      var p :| Inv(c, s, p);
      QueuedInSituation(s, p);
      if p.phase.Writing? || p.phase.Reading? {
        WaitingIsBounded(s.now, s.world.mem, p.cycle, p.timer, issuedAt[|issuedAt| - 1], p.phase.request.time);
      }
    }
    forall k | 0 <= k < |servedAt|
      ensures MayBeServed(issuedAt[k], servedAt[k]) && !StrictlyInsideRefresh(servedAt[k])
    {
      ServiceIsDetermined(issuedAt[k], servedAt[k]);
    }
  }

  lemma WaitingIsBounded(now: int, mem: MemState, cycle: nat, timer: Event, t: nat, due: int)
    requires ClockOk(now, mem, cycle, timer) && WaitOk(now, mem, cycle, t, due)
    requires now <= due && now <= timer.time
    ensures now <= ServiceTime(t)
  {
    ServiceIsDetermined(t, due);
    if due != t + 1 {
      assert MayBeServed(t, due);
    }
  }

  // The refresh calendar does not depend on the requests: in cycle k a refresh
  // is running exactly between 1024 + 2560k and 2560(k + 1).
  lemma RefreshSchedule(c: Setup, s: Sim<World>)
    requires Reachable(c, s) && s.exit.None?
    ensures exists k: nat ::
      if s.world.mem.refreshing then
        1024 + 2560 * k <= s.now <= 2560 * (k + 1) && s.world.mem.startedAt == 1024 + 2560 * k
      else
        2560 * k <= s.now <= 1024 + 2560 * k
    ensures StrictlyInsideRefresh(s.now) ==> s.world.mem.refreshing
    ensures s.world.mem.refreshing ==> StrictlyInsideRefresh(s.now) || s.now % 2560 in {0, 1024}
  {
    ReachableIsGood(c, s);
    var p :| Inv(c, s, p);
    var k := p.cycle;
    if s.now == RefreshEnd(k) {
      CalendarOf(s.now, k + 1);
    } else {
      CalendarOf(s.now, k);
    }
    assert if s.world.mem.refreshing then
        RefreshStart(k) <= s.now <= RefreshEnd(k) && s.world.mem.startedAt == RefreshStart(k)
      else
        2560 * k <= s.now <= RefreshStart(k);
  }

  // ----- phases -----

  // What the queue and the bus hold in phase f.
  ghost predicate InPhase(c: Setup, s: Sim<World>, timer: Event, f: Phase) {
    var w := s.world;
    && multiset(s.queue) == multiset{timer} + Others(f)
    && Carries(timer, MEM, MEM) && Addressed(f)
    && w.bus.busy == !f.Idle?
    && (f.Writing? || f.Reading? ==>
          0 < w.cpu.opCounter <= |c.requests|
          && var a := c.requests[w.cpu.opCounter - 1];
             w.bus.lines == BusStatus(if f.Writing? then Write else Read, a.address, TEST_DATA)
             && a.request == w.bus.lines.request)
  }

  // Between ticks the system is in exactly one of the four phases.
  lemma PhaseInvariant(c: Setup, s: Sim<World>)
    requires Reachable(c, s) && s.exit.None?
    ensures exists timer, f :: InPhase(c, s, timer, f)
    ensures 2 <= |s.queue| <= 3
  {
    ReachableIsGood(c, s);
    var p :| Inv(c, s, p);
    assert InPhase(c, s, p.timer, p.phase);
    QueueLength(s.queue, p.timer, p.phase);
  }

  lemma QueueLength(q: seq<Event>, timer: Event, f: Phase)
    requires multiset(q) == multiset{timer} + Others(f)
    ensures |q| == if f.Writing? then 3 else 2
  {
    assert |q| == |multiset(q)|;
    assert f.Writing? ==> |multiset{f.request} + multiset{f.wake}| == 2;
  }

  lemma Members(timer: Event, f: Phase)
    ensures var m := multiset{timer} + Others(f);
      && timer in m
      && (f.Idle? || f.Writing? ==> f.wake in m)
      && (f.Writing? || f.Reading? ==> f.request in m)
      && (f.Responding? ==> f.response in m)
  {
  }

  lemma PhaseIsUnique(c: Setup, s: Sim<World>, timer: Event, f: Phase, timer': Event, f': Phase)
    requires InPhase(c, s, timer, f) && InPhase(c, s, timer', f')
    ensures timer == timer' && f == f'
  {
    Members(timer, f);
    Members(timer', f');
  }

  // The error branches of the memory are dead: a sampled bus always holds a
  // defined status, the answer finds the bus free, and a postponed request is
  // never dropped for a negative delay.
  lemma MemoryErrorsUnreachable(c: Setup, s: Sim<World>, i: nat)
    requires Reachable(c, s) && s.exit.None? && IsTop(s.queue, i) && Carries(s.queue[i], CPU, MEM)
    ensures var w := s.world;
      if w.mem.refreshing then w.mem.startedAt + REFRESHING_TIME - s.queue[i].time >= 0
      else w.bus.busy && !w.bus.lines.request.Undefined?
    ensures MemReact(s.world, s.queue[i].time, s.queue[i].m).exit.None?
  {
    ReachableIsGood(c, s);
    var p :| Inv(c, s, p);
    EventOfSituation(s, p, i);
    TopOfSituation(s, p, i);
  }

  // What the memory sends in answer to a request it serves: for a read, a
  // response after 15 time units, or in fast mode and but for the first request
  // 7 or 23, depending on whether the request before it, read or write, was to
  // the same 1024 bytes; for a write, nothing.
  lemma AnswerTakesLatency(c: Setup, s: Sim<World>, i: nat)
    requires Reachable(c, s) && s.exit.None? && IsTop(s.queue, i) && Carries(s.queue[i], CPU, MEM)
    requires !s.world.mem.refreshing
    ensures 0 < s.world.cpu.opCounter <= |c.requests|
    ensures var now, k := s.queue[i].time, s.world.cpu.opCounter - 1;
      var delay :=
        if c.mode.Default? || k == 0 then 15
        else if c.requests[k].address / 1024 == c.requests[k - 1].address / 1024 then 7
        else 23;
      MemReact(s.world, now, s.queue[i].m).sends ==
        if c.requests[k].request.Read? then [Send(NewMessage(now, MEM, CPU), delay)] else []
  {
    ReachableIsGood(c, s);
    var p :| Inv(c, s, p);
    EventOfSituation(s, p, i);
    ServeTakesLatency(c, s.world, p.phase);
    DelayIs(c.mode, c.requests, s.world.cpu.opCounter - 1);
  }

  // A response always finds data on the bus, and the processor finds the bus
  // busy only while its own write is waiting.
  lemma ProcessorFindsBusReady(c: Setup, s: Sim<World>, i: nat)
    requires Reachable(c, s) && s.exit.None? && IsTop(s.queue, i) && s.queue[i].m.dest == CPU
    ensures s.queue[i].m.source != CPU ==> s.world.bus.busy
    ensures Receive(s.world, s.queue[i].m).bus.busy ==>
      && Queued(s, CPU, MEM) && 0 < s.world.cpu.opCounter <= |c.requests|
      && c.requests[s.world.cpu.opCounter - 1].request.Write?
  {
    ReachableIsGood(c, s);
    var p :| Inv(c, s, p);
    EventOfSituation(s, p, i);
    QueuedInSituation(s, p);
  }
}
