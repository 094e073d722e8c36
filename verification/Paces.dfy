// The earliest and the latest issue times are exact: for each of them some
// order of simultaneous events has every request issued at that time.
//
// Latest: the refresh timer goes first, then the processor, then the memory.
// Earliest: the memory goes before the start of a refresh and before the
// processor, but after the end of a refresh.
module Paces {
  import opened SequentialMemory
  import opened Scheduler
  import opened Devices
  import opened Protocol
  import opened Runs
  import opened InsertionOrderRuns
  import opened IssueTimes
  import opened Termination
  import opened TieBreaks

  function PaceTime(pace: Pace, c: Setup, k: nat): (t: nat)
    requires k <= |c.requests|
  {
    IssueAt(pace, c.requests, Latencies(c.mode, c.requests), k)
  }

  // ----- the order of each pace -----

  ghost predicate Chosen(pace: Pace, s: Sim<World>, p: Situation, i: nat) {
    && IsTop(s.queue, i)
    && (s.world.mem.refreshing || !pace.Earliest? ==> s.queue[i].time == p.timer.time ==> s.queue[i] == p.timer)
    && (p.phase.Writing? || p.phase.Reading? ==>
          pace.Earliest? && !s.world.mem.refreshing && s.queue[i].time == p.phase.request.time ==>
            s.queue[i] == p.phase.request)
    && (p.phase.Writing? ==>
          if pace.Earliest? then s.queue[i] == p.phase.wake ==> p.phase.wake.time < p.phase.request.time
          else s.queue[i] == p.phase.request ==> p.phase.request.time < p.phase.wake.time)
  }

  lemma LatestExists(s: Sim<World>, p: Situation) returns (i: nat)
    requires QueueOk(s, p)
    ensures Chosen(Latest, s, p, i)
  {
    i := PreferredExists(s, p);
    EventOfSituation(s, p, i);
  }

  lemma EarliestExists(s: Sim<World>, p: Situation) returns (i: nat)
    requires QueueOk(s, p)
    ensures Chosen(Earliest, s, p, i)
  {
    var timerFirst := NotBefore(p.phase, p.timer.time);
    if s.world.mem.refreshing && timerFirst {
      i := EarliestIsTop(s, p, p.timer);
    } else if (p.phase.Writing? || p.phase.Reading?) && p.phase.request.time <= p.timer.time
      && NotBefore(p.phase, p.phase.request.time) {
      i := EarliestIsTop(s, p, p.phase.request);
    } else if timerFirst {
      i := EarliestIsTop(s, p, p.timer);
    } else {
      var e := match p.phase
        case Idle(wake) => wake
        case Writing(_, wake) => wake
        case Reading(request) => request
        case Responding(response) => response;
      i := EarliestIsTop(s, p, e);
    }
  }

  // ----- the invariant of each pace -----

  ghost predicate PacedLogs(pace: Pace, c: Setup, issuedAt: seq<int>, servedAt: seq<int>)
    requires |servedAt| <= |issuedAt| <= |c.requests|
  {
    && (forall k {:trigger issuedAt[k]} :: 0 <= k < |issuedAt| ==> issuedAt[k] == PaceTime(pace, c, k))
    && (forall k {:trigger servedAt[k]} :: 0 <= k < |servedAt| ==> servedAt[k] == ServiceAt(pace, issuedAt[k]))
  }

  // At the earliest pace a request arriving as a refresh starts is not put off.
  predicate NotJustCaught(refreshing: bool, cycle: nat, t: int, due: int) {
    && (due != t + 1 ==> (t + 1) % 2560 != 1024)
    && (refreshing ==> t + 1 > RefreshStart(cycle))
  }

  predicate PacedPhase(pace: Pace, c: Setup, issuedAt: seq<int>, refreshing: bool, cycle: nat, f: Phase)
    requires |issuedAt| <= |c.requests| && (!f.Idle? ==> issuedAt != [])
  {
    match f
    case Idle(wake) => wake.time == PaceTime(pace, c, |issuedAt|)
    case Responding(response) => response.time == PaceTime(pace, c, |issuedAt|)
    case Reading(request) =>
      pace.Earliest? ==> NotJustCaught(refreshing, cycle, issuedAt[|issuedAt| - 1], request.time)
    case Writing(request, wake) =>
      pace.Earliest? ==>
        && wake.time <= request.time
        && NotJustCaught(refreshing, cycle, issuedAt[|issuedAt| - 1], request.time)
  }

  ghost predicate Paced(pace: Pace, c: Setup, s: Sim<World>, p: Situation) {
    && Inv(c, s, p)
    && PacedLogs(pace, c, s.world.cpu.issuedAt, s.world.mem.servedAt)
    && PacedPhase(pace, c, s.world.cpu.issuedAt, s.world.mem.refreshing, p.cycle, p.phase)
  }

  // ----- refresh timer -----

  lemma TimerKeepsPace(
    pace: Pace, c: Setup, now: int, mem: MemState, cycle: nat, timer: Event, issuedAt: seq<int>, f: Phase)
    requires |issuedAt| <= |c.requests| && (!f.Idle? ==> issuedAt != [])
    requires PacedPhase(pace, c, issuedAt, mem.refreshing, cycle, f)
    requires ClockOk(now, mem, cycle, timer)
    requires f.Writing? || f.Reading? ==>
      && WaitOk(now, mem, cycle, issuedAt[|issuedAt| - 1], f.request.time)
      && (pace.Earliest? && !mem.refreshing ==> timer.time < f.request.time)
    requires now <= timer.time
    ensures PacedPhase(pace, c, issuedAt, !mem.refreshing, NextCycle(mem, cycle), f)
  {
  }

  lemma RequestAfterTimer(pace: Pace, s: Sim<World>, p: Situation, i: nat)
    requires QueueOk(s, p) && Chosen(pace, s, p, i) && s.queue[i] == p.timer
    requires (p.phase.Writing? || p.phase.Reading?) && pace.Earliest? && !s.world.mem.refreshing
    ensures p.timer.time < p.phase.request.time
  {
    TopOfSituation(s, p, i);
    RequestIsNotTimer(s, p);
  }

  lemma TimerStepKeepsPhase(pace: Pace, c: Setup, s: Sim<World>, p: Situation, i: nat)
    requires Paced(pace, c, s, p) && Chosen(pace, s, p, i) && s.queue[i] == p.timer
    ensures PacedPhase(pace, c, s.world.cpu.issuedAt, !s.world.mem.refreshing, NextCycle(s.world.mem, p.cycle), p.phase)
  {
    if p.phase.Writing? || p.phase.Reading? {
      RequestWaits(c, s, p);
      if pace.Earliest? && !s.world.mem.refreshing {
        RequestAfterTimer(pace, s, p, i);
      }
    }
    TimerKeepsPace(pace, c, s.now, s.world.mem, p.cycle, p.timer, s.world.cpu.issuedAt, p.phase);
  }

  lemma PacedTimerStep(pace: Pace, c: Setup, s: Sim<World>, p: Situation, i: nat) returns (q: Situation)
    requires Paced(pace, c, s, p) && Chosen(pace, s, p, i) && s.queue[i] == p.timer
    ensures Paced(pace, c, Deliver(s, i), q)
  {
    TimerStepKeepsPhase(pace, c, s, p, i);
    q := TimerTick(c, s, p, i);
  }

  lemma RequestIsNotTimer(s: Sim<World>, p: Situation)
    requires QueueOk(s, p) && (p.phase.Writing? || p.phase.Reading?)
    ensures p.phase.request != p.timer
  {
  }

  // ----- memory -----

  lemma PostponeKeepsPace(
    pace: Pace, c: Setup, now: int, mem: MemState, cycle: nat, timer: Event, issuedAt: seq<int>, f: Phase, later: Event)
    requires |issuedAt| <= |c.requests| && issuedAt != [] && (f.Writing? || f.Reading?)
    requires PacedPhase(pace, c, issuedAt, mem.refreshing, cycle, f) && mem.refreshing
    requires ClockOk(now, mem, cycle, timer) && WaitOk(now, mem, cycle, issuedAt[|issuedAt| - 1], f.request.time)
    requires f.request.time <= later.time == timer.time
    ensures PacedPhase(pace, c, issuedAt, mem.refreshing, cycle, Waiting(f, later))
  {
    var t := issuedAt[|issuedAt| - 1];
    if pace.Earliest? && t + 1 <= RefreshEnd(cycle) {
      if t + 1 == RefreshEnd(cycle) {
        CalendarOf(t + 1, cycle + 1);
      } else {
        CalendarOf(t + 1, cycle);
      }
    }
  }

  lemma PacedPostponeStep(pace: Pace, c: Setup, s: Sim<World>, p: Situation, i: nat) returns (q: Situation)
    requires Paced(pace, c, s, p) && Chosen(pace, s, p, i) && s.world.mem.refreshing
    requires (p.phase.Writing? || p.phase.Reading?) && s.queue[i] == p.phase.request
    ensures Paced(pace, c, Deliver(s, i), q) && !ZeroDelayRetry(s, s.queue[i])
  {
    TopOfSituation(s, p, i);
    RequestWaits(c, s, p);
    RequestIsNotTimer(s, p);
    q := PostponeTick(c, s, p, i);
    PostponeKeepsPace(pace, c, s.now, s.world.mem, p.cycle, p.timer, s.world.cpu.issuedAt, p.phase, q.phase.request);
  }

  // A request is served when foreseen.
  lemma ServedAtPace(pace: Pace, now: int, mem: MemState, cycle: nat, timer: Event, t: nat, due: int)
    requires ClockOk(now, mem, cycle, timer) && WaitOk(now, mem, cycle, t, due) && !mem.refreshing
    requires now <= due <= timer.time && (!pace.Earliest? ==> due < timer.time)
    requires pace.Earliest? ==> NotJustCaught(false, cycle, t, due)
    ensures due == ServiceAt(pace, t)
  {
    CalendarOf(due, cycle);
    if due != t + 1 {
      CalendarOf(t + 1, cycle - 1);
    }
  }

  lemma ServesAtPace(pace: Pace, c: Setup, s: Sim<World>, p: Situation, i: nat)
    requires Paced(pace, c, s, p) && Chosen(pace, s, p, i) && !s.world.mem.refreshing
    requires (p.phase.Writing? || p.phase.Reading?) && s.queue[i] == p.phase.request
    ensures s.world.cpu.opCounter > 0 && |s.world.cpu.issuedAt| == s.world.cpu.opCounter
    ensures s.world.cpu.issuedAt[s.world.cpu.opCounter - 1] >= 0
    ensures s.queue[i].time == ServiceAt(pace, s.world.cpu.issuedAt[s.world.cpu.opCounter - 1])
  {
    TopOfSituation(s, p, i);
    RequestWaits(c, s, p);
    RequestIsNotTimer(s, p);
    var t := s.world.cpu.issuedAt[s.world.cpu.opCounter - 1];
    IssueBound(c, s.world.cpu.issuedAt, s.world.mem.servedAt, s.world.cpu.opCounter - 1);
    ServedAtPace(pace, s.now, s.world.mem, p.cycle, p.timer, t, s.queue[i].time);
  }

  lemma PacedService(pace: Pace, c: Setup, issuedAt: seq<int>, servedAt: seq<int>, now: int)
    requires |servedAt| + 1 == |issuedAt| <= |c.requests| && PacedLogs(pace, c, issuedAt, servedAt)
    requires now == ServiceAt(pace, issuedAt[|servedAt|])
    ensures PacedLogs(pace, c, issuedAt, servedAt + [now])
    ensures PaceTime(pace, c, |issuedAt|) ==
      now + if c.requests[|servedAt|].request.Read? then Latency(c.mode, c.requests, |servedAt|) else Polls(pace)
  {
  }

  lemma PacedServeWriteStep(pace: Pace, c: Setup, s: Sim<World>, p: Situation, i: nat) returns (q: Situation)
    requires Paced(pace, c, s, p) && Chosen(pace, s, p, i) && !s.world.mem.refreshing && !pace.InOrder?
    requires p.phase.Writing? && s.queue[i] == p.phase.request
    ensures Paced(pace, c, Deliver(s, i), q)
  {
    TopOfSituation(s, p, i);
    ServesAtPace(pace, c, s, p, i);
    PacedService(pace, c, s.world.cpu.issuedAt, s.world.mem.servedAt, s.queue[i].time);
    q := Situation(p.cycle, p.timer, Idle(p.phase.wake));
    WakeAtPace(pace, c, s.world, p.phase, s.now, p.cycle);
    ServeWriteTick(c, s, p, i);
  }

  // The processor's next try is at once, or one time unit later.
  lemma WakeAtPace(pace: Pace, c: Setup, w: World, f: Phase, now: int, cycle: nat)
    requires LogsOk(c, w, f) && BusOk(c, w, f) && TimesOk(c, now, w, cycle, f) && f.Writing? && !pace.InOrder?
    requires f.request.time <= f.wake.time
    requires if pace.Earliest? then f.wake.time <= f.request.time else f.request.time < f.wake.time
    ensures f.wake.time == f.request.time + Polls(pace)
    ensures c.requests[w.cpu.opCounter - 1].request.Write?
  {
  }

  lemma PacedServeReadStep(pace: Pace, c: Setup, s: Sim<World>, p: Situation, i: nat) returns (q: Situation)
    requires Paced(pace, c, s, p) && Chosen(pace, s, p, i) && !s.world.mem.refreshing
    requires p.phase.Reading? && s.queue[i] == p.phase.request
    ensures Paced(pace, c, Deliver(s, i), q)
  {
    ServesAtPace(pace, c, s, p, i);
    PacedService(pace, c, s.world.cpu.issuedAt, s.world.mem.servedAt, s.queue[i].time);
    q := ServeReadTick(c, s, p, i);
  }

  // ----- processor -----

  lemma PacedIssue(
    pace: Pace, c: Setup, issuedAt: seq<int>, servedAt: seq<int>, mem: MemState, cycle: nat, now: int, lastId: nat)
    requires |servedAt| == |issuedAt| < |c.requests| && PacedLogs(pace, c, issuedAt, servedAt)
    requires now == PaceTime(pace, c, |issuedAt|) && (mem.refreshing ==> now >= RefreshStart(cycle))
    ensures PacedLogs(pace, c, issuedAt + [now], servedAt)
    ensures PacedPhase(pace, c, issuedAt + [now], mem.refreshing, cycle,
      IssuedPhase(c.requests[|issuedAt|], now, lastId))
  {
  }

  lemma NowIsAfterStart(c: Setup, s: Sim<World>, p: Situation, i: nat)
    requires Inv(c, s, p) && IsTop(s.queue, i)
    ensures s.world.mem.refreshing ==> s.queue[i].time >= RefreshStart(p.cycle)
  {
    TopOfSituation(s, p, i);
  }

  lemma PacedWakeStep(pace: Pace, c: Setup, s: Sim<World>, p: Situation, i: nat) returns (q: Situation)
    requires Paced(pace, c, s, p) && IsTop(s.queue, i) && s.world.cpu.opCounter < |c.requests|
    requires p.phase.Idle? && s.queue[i] == p.phase.wake
    ensures Paced(pace, c, Deliver(s, i), q)
  {
    var w := s.world;
    NowIsAfterStart(c, s, p, i);
    PacedIssue(pace, c, w.cpu.issuedAt, w.mem.servedAt, w.mem, p.cycle, s.queue[i].time, s.lastId);
    q := IdleWakeTick(c, s, p, i);
  }

  lemma PacedResponseStep(pace: Pace, c: Setup, s: Sim<World>, p: Situation, i: nat) returns (q: Situation)
    requires Paced(pace, c, s, p) && IsTop(s.queue, i) && s.world.cpu.opCounter < |c.requests|
    requires p.phase.Responding? && s.queue[i] == p.phase.response
    ensures Paced(pace, c, Deliver(s, i), q)
  {
    var w := s.world;
    NowIsAfterStart(c, s, p, i);
    PacedIssue(pace, c, w.cpu.issuedAt, w.mem.servedAt, w.mem, p.cycle, s.queue[i].time, s.lastId);
    q := ResponseTick(c, s, p, i);
  }

  lemma PacedPollStep(pace: Pace, c: Setup, s: Sim<World>, p: Situation, i: nat) returns (q: Situation)
    requires Paced(pace, c, s, p) && Chosen(pace, s, p, i) && s.world.cpu.opCounter < |c.requests|
    requires p.phase.Writing? && s.queue[i] == p.phase.wake
    ensures Paced(pace, c, Deliver(s, i), q)
  {
    q := PollTick(c, s, p, i);
  }

  // ----- whole runs -----

  ghost predicate ExitsAtPace(pace: Pace, c: Setup, t: Sim<World>) {
    t.exit.Some? && t.world.cpu.issuedAt == seq(|c.requests|, k requires 0 <= k < |c.requests| => PaceTime(pace, c, k))
  }

  lemma PacedMemoryStep(pace: Pace, c: Setup, s: Sim<World>, p: Situation, i: nat) returns (q: Situation)
    requires Paced(pace, c, s, p) && Chosen(pace, s, p, i) && !pace.InOrder?
    requires (p.phase.Writing? || p.phase.Reading?) && s.queue[i] == p.phase.request
    ensures Paced(pace, c, Deliver(s, i), q) && !ZeroDelayRetry(s, s.queue[i])
  {
    if s.world.mem.refreshing {
      q := PacedPostponeStep(pace, c, s, p, i);
    } else if p.phase.Writing? {
      q := PacedServeWriteStep(pace, c, s, p, i);
    } else {
      q := PacedServeReadStep(pace, c, s, p, i);
    }
  }

  lemma PacedProcessorStep(pace: Pace, c: Setup, s: Sim<World>, p: Situation, i: nat) returns (q: Situation)
    requires Paced(pace, c, s, p) && Chosen(pace, s, p, i) && s.world.cpu.opCounter < |c.requests|
    requires if p.phase.Responding? then s.queue[i] == p.phase.response
      else (p.phase.Idle? || p.phase.Writing?) && s.queue[i] == p.phase.wake
    ensures Paced(pace, c, Deliver(s, i), q)
  {
    if p.phase.Writing? {
      q := PacedPollStep(pace, c, s, p, i);
    } else if p.phase.Idle? {
      q := PacedWakeStep(pace, c, s, p, i);
    } else {
      q := PacedResponseStep(pace, c, s, p, i);
    }
  }

  lemma PacedExit(pace: Pace, c: Setup, s: Sim<World>, p: Situation, i: nat)
    requires Paced(pace, c, s, p) && IsTop(s.queue, i) && s.world.cpu.opCounter >= |c.requests|
    requires s.queue[i].m.dest == CPU && s.queue[i].m.valid && !p.phase.Reading?
    requires if p.phase.Responding? then s.queue[i] == p.phase.response else s.queue[i] == p.phase.wake
    ensures ExitsAtPace(pace, c, Deliver(s, i))
  {
    ExitTick(c, s, p, i);
    assert |s.world.cpu.issuedAt| == |c.requests|;
  }

  lemma PacedStep(pace: Pace, c: Setup, hs: seq<Handler<World>>, s: Sim<World>, p: Situation, i: nat)
    returns (q: Situation)
    requires Assembled(hs) && Paced(pace, c, s, p) && Chosen(pace, s, p, i) && !pace.InOrder?
    ensures s.exit.None? && !ZeroDelayRetry(s, s.queue[i]) && Tick(hs, s, i) == Deliver(s, i)
    ensures Paced(pace, c, Deliver(s, i), q) || ExitsAtPace(pace, c, Deliver(s, i))
  {
    EventOfSituation(s, p, i);
    TickIsDelivery(hs, s, i);
    q := p;
    if s.queue[i] == p.timer {
      q := PacedTimerStep(pace, c, s, p, i);
    } else if s.queue[i].m.dest == MEM {
      q := PacedMemoryStep(pace, c, s, p, i);
    } else if s.world.cpu.opCounter >= |c.requests| {
      PacedExit(pace, c, s, p, i);
    } else {
      q := PacedProcessorStep(pace, c, s, p, i);
    }
  }

  lemma ChosenExists(pace: Pace, s: Sim<World>, p: Situation) returns (i: nat)
    requires QueueOk(s, p) && !pace.InOrder?
    ensures Chosen(pace, s, p, i)
  {
    if pace.Latest? {
      i := LatestExists(s, p);
    } else {
      i := EarliestExists(s, p);
    }
  }

  lemma {:induction false} PacedRun(
    pace: Pace, c: Setup, hs: seq<Handler<World>>, s: Sim<World>, p: Situation, m: nat) returns (choices: seq<nat>)
    requires Assembled(hs) && Paced(pace, c, s, p) && !pace.InOrder?
    ensures Legal(hs, s, choices) && ZeroDelayRetries(hs, s, choices) == 0
    ensures |choices| == m || ExitsAtPace(pace, c, After(hs, s, choices))
    decreases m
  {
    choices := [];
    if m > 0 {
      var i := ChosenExists(pace, s, p);
      var q := PacedStep(pace, c, hs, s, p, i);
      var rest := [];
      if Paced(pace, c, Deliver(s, i), q) {
        rest := PacedRun(pace, c, hs, Tick(hs, s, i), q, m - 1);
      }
      choices := [i] + rest;
      assert choices[1..] == rest;
    }
  }

  // Some order issues every request at its earliest time, and some order every
  // request at its latest.
  lemma EnvelopeIsAttained(pace: Pace, c: Setup, hs: seq<Handler<World>>, s: Sim<World>) returns (choices: seq<nat>)
    requires Assembled(hs) && Initial(c, s) && !pace.InOrder?
    ensures Legal(hs, s, choices) && After(hs, s, choices).exit.Some?
    ensures After(hs, s, choices).world.cpu.issuedAt ==
      seq(|c.requests|, k requires 0 <= k < |c.requests| =>
        IssueAt(pace, c.requests, Latencies(c.mode, c.requests), k))
  {
    InitialIsGood(c, s);
    choices := PacedRun(pace, c, hs, s, InitialSituation(), 180 * |c.requests| + 2);
    RunsAreShortButForRetries(c, hs, s, choices);
  }
}
