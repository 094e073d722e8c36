// Whether the simulation ends in whatever order simultaneous events are taken.
//
// It does exactly if even the slowest order has every request served, or the
// processor done, before a refresh can catch a request.  If one is caught, it
// can be put off by zero time units, again and again, at the very moment the
// refresh is due to end.
module TieBreaks {
  import opened SequentialMemory
  import opened Scheduler
  import opened Devices
  import opened Protocol
  import opened Runs
  import opened Termination

  // The latest time request k can be issued while no refresh interferes: after
  // a write the processor may poll once before the bus is free.
  function SlowIssueTime(c: Setup, k: nat): (t: nat)
    requires k <= |c.requests|
  {
    if k == 0 then 0
    else
      var served := SlowIssueTime(c, k - 1) + 1;
      if c.requests[k - 1].request.Read? then served + Latency(c.mode, c.requests, k - 1) else served + 1
  }

  // Request k surely reaches the memory before the first refresh.
  predicate ArrivesEarly(c: Setup, k: nat)
    requires k <= |c.requests|
  {
    SlowIssueTime(c, k) + 1 < REFRESHING_INTERVAL
  }

  // The processor waits for every request but a last write.
  function Awaited(c: Setup): (m: nat)
    ensures m <= |c.requests|
  {
    var n := |c.requests|;
    if n > 0 && c.requests[n - 1].request.Write? then n - 1 else n
  }

  predicate EndsInAnyOrder(c: Setup) {
    var m := Awaited(c);
    m == 0 || ArrivesEarly(c, m - 1)
  }

  // Every request takes at least 2 time units and at most 24.
  lemma {:induction false} SlowTimeBounds(c: Setup, k: nat)
    requires k <= |c.requests|
    ensures 2 * k <= SlowIssueTime(c, k) <= 24 * k
    decreases k
  {
    if k > 0 {
      SlowTimeBounds(c, k - 1);
      LatencyIsPositive(c.mode, c.requests, k - 1);
    }
  }

  // So every order ends for short lists, and none of the long ones has this
  // property, whatever the requests are.
  lemma LengthDecides(c: Setup)
    ensures |c.requests| <= 43 ==> EndsInAnyOrder(c)
    ensures |c.requests| >= 514 ==> !EndsInAnyOrder(c)
  {
    if Awaited(c) > 0 {
      SlowTimeBounds(c, Awaited(c) - 1);
    }
  }

  lemma {:induction false} SlowTimesGrow(c: Setup, j: nat, k: nat)
    requires j <= k <= |c.requests|
    ensures SlowIssueTime(c, j) <= SlowIssueTime(c, k)
    decreases k
  {
    if j < k {
      SlowTimesGrow(c, j, k - 1);
    }
  }

  // ----- if no awaited request can be caught by a refresh -----

  // The processor does not poll after its last write.
  predicate NoPolling(c: Setup, issuedAt: seq<int>, f: Phase) {
    f.Writing? && |issuedAt| == |c.requests| > 0 ==> f.wake.time == issuedAt[|issuedAt| - 1] + 1
  }

  ghost predicate Calm(c: Setup, s: Sim<World>, p: Situation) {
    Inv(c, s, p) && NoPolling(c, s.world.cpu.issuedAt, p.phase)
  }

  lemma CalmMemoryStep(c: Setup, s: Sim<World>, p: Situation, i: nat) returns (q: Situation)
    requires Calm(c, s, p) && IsTop(s.queue, i)
    requires (p.phase.Writing? || p.phase.Reading?) && s.queue[i] == p.phase.request
    ensures Calm(c, Deliver(s, i), q)
  {
    if s.world.mem.refreshing {
      q := PostponeTick(c, s, p, i);
    } else if p.phase.Writing? {
      ServeWriteTick(c, s, p, i);
      q := Situation(p.cycle, p.timer, Idle(p.phase.wake));
    } else {
      q := ServeReadTick(c, s, p, i);
    }
  }

  lemma CalmPollStep(c: Setup, s: Sim<World>, p: Situation, i: nat) returns (q: Situation)
    requires Inv(c, s, p) && IsTop(s.queue, i) && s.world.cpu.opCounter < |c.requests|
    requires p.phase.Writing? && s.queue[i] == p.phase.wake
    ensures Calm(c, Deliver(s, i), q)
  {
    q := PollTick(c, s, p, i);
    assert |s.world.cpu.issuedAt| < |c.requests|;
  }

  lemma IssueIsCalm(c: Setup, issuedAt: seq<int>, a: Access, now: int, lastId: nat)
    ensures NoPolling(c, issuedAt + [now], IssuedPhase(a, now, lastId))
  {
  }

  lemma CalmIssueStep(c: Setup, s: Sim<World>, p: Situation, i: nat) returns (q: Situation)
    requires Inv(c, s, p) && IsTop(s.queue, i) && s.world.cpu.opCounter < |c.requests|
    requires p.phase == Idle(s.queue[i]) || p.phase == Responding(s.queue[i])
    ensures Calm(c, Deliver(s, i), q)
  {
    IssueIsCalm(c, s.world.cpu.issuedAt, c.requests[s.world.cpu.opCounter], s.queue[i].time, s.lastId);
    if p.phase.Idle? {
      q := IdleWakeTick(c, s, p, i);
    } else {
      q := ResponseTick(c, s, p, i);
    }
  }

  lemma CalmStep(c: Setup, s: Sim<World>, p: Situation, i: nat) returns (q: Situation)
    requires Calm(c, s, p) && IsTop(s.queue, i) && Deliver(s, i).exit.None?
    ensures Calm(c, Deliver(s, i), q)
  {
    EventOfSituation(s, p, i);
    if s.queue[i] == p.timer {
      q := TimerTick(c, s, p, i);
    } else if s.queue[i].m.dest == MEM {
      q := CalmMemoryStep(c, s, p, i);
    } else if s.world.cpu.opCounter >= |c.requests| {
      ExitTick(c, s, p, i);
      assert false;
    } else if p.phase.Writing? {
      q := CalmPollStep(c, s, p, i);
    } else {
      q := CalmIssueStep(c, s, p, i);
    }
  }

  lemma ServedBeforeRefresh(t: int, served: int)
    requires MayBeServed(t, served) && t + 1 < REFRESHING_INTERVAL
    ensures served == t + 1
  {
  }

  lemma {:induction false} IssuedBySlowTime(c: Setup, issuedAt: seq<int>, servedAt: seq<int>, k: nat)
    requires |servedAt| <= |issuedAt| <= |servedAt| + 1 && |issuedAt| <= |c.requests|
    requires HistoryOk(c, issuedAt, servedAt) && k < |issuedAt|
    requires k > 0 ==> ArrivesEarly(c, k - 1)
    ensures issuedAt[k] <= SlowIssueTime(c, k)
    decreases k
  {
    if k > 0 {
      if k > 1 {
        SlowTimesGrow(c, k - 2, k - 1);
      }
      IssuedBySlowTime(c, issuedAt, servedAt, k - 1);
      ServedBeforeRefresh(issuedAt[k - 1], servedAt[k - 1]);
    }
  }

  lemma NextSlowTime(c: Setup, k: nat)
    requires k < |c.requests| && ArrivesEarly(c, k)
    ensures SlowIssueTime(c, k + 1) + 1 < REFRESHING_INTERVAL + 24
  {
  }

  lemma AwaitedArriveEarly(c: Setup, k: nat)
    requires EndsInAnyOrder(c) && k < Awaited(c)
    ensures ArrivesEarly(c, k)
  {
    SlowTimesGrow(c, k, Awaited(c) - 1);
  }

  lemma LastIssueBySlowTime(c: Setup, s: Sim<World>, p: Situation)
    requires EndsInAnyOrder(c) && Inv(c, s, p) && (p.phase.Writing? || p.phase.Reading?)
    ensures var n := s.world.cpu.opCounter;
      var t := s.world.cpu.issuedAt[n - 1];
      && t + 1 < REFRESHING_INTERVAL + 24
      && (n <= Awaited(c) ==> t + 1 < REFRESHING_INTERVAL)
  {
    var n, m := s.world.cpu.opCounter, Awaited(c);
    if n > 1 {
      AwaitedArriveEarly(c, n - 2);
      NextSlowTime(c, n - 2);
    }
    if n <= m {
      AwaitedArriveEarly(c, n - 1);
    }
    IssuedBySlowTime(c, s.world.cpu.issuedAt, s.world.mem.servedAt, n - 1);
  }

  // A request due at the end of a refresh did not arrive before the first one.
  lemma CaughtByRefresh(now: int, mem: MemState, cycle: nat, timer: Event, t: int)
    requires ClockOk(now, mem, cycle, timer) && mem.refreshing
    requires WaitOk(now, mem, cycle, t, mem.startedAt + REFRESHING_TIME)
    ensures t + 1 >= REFRESHING_INTERVAL
    ensures mem.startedAt + REFRESHING_TIME >= 2560
  {
  }

  lemma RequestWaits(c: Setup, s: Sim<World>, p: Situation)
    requires Inv(c, s, p) && (p.phase.Writing? || p.phase.Reading?)
    ensures WaitOk(s.now, s.world.mem, p.cycle, s.world.cpu.issuedAt[s.world.cpu.opCounter - 1], p.phase.request.time)
  {
  }

  lemma UnawaitedIsLastWrite(c: Setup, w: World, f: Phase)
    requires LogsOk(c, w, f) && BusOk(c, w, f)
    requires (f.Writing? || f.Reading?) && w.cpu.opCounter > Awaited(c)
    ensures f.Writing? && |w.cpu.issuedAt| == w.cpu.opCounter == |c.requests|
  {
  }

  lemma NoZeroDelayRetry(c: Setup, s: Sim<World>, p: Situation, i: nat)
    requires EndsInAnyOrder(c) && Calm(c, s, p) && IsTop(s.queue, i)
    ensures !ZeroDelayRetry(s, s.queue[i])
  {
    if ZeroDelayRetry(s, s.queue[i]) {
      EventOfSituation(s, p, i);
      TopOfSituation(s, p, i);
      LastIssueBySlowTime(c, s, p);
      RequestWaits(c, s, p);
      CaughtByRefresh(s.now, s.world.mem, p.cycle, p.timer, s.world.cpu.issuedAt[s.world.cpu.opCounter - 1]);
      if s.world.cpu.opCounter > Awaited(c) {
        UnawaitedIsLastWrite(c, s.world, p.phase);
      }
    }
  }

  lemma {:induction false} NoZeroDelayRetries(
    c: Setup, hs: seq<Handler<World>>, s: Sim<World>, p: Situation, choices: seq<nat>)
    requires Assembled(hs) && EndsInAnyOrder(c) && Calm(c, s, p) && Legal(hs, s, choices)
    ensures ZeroDelayRetries(hs, s, choices) == 0
    decreases |choices|
  {
    if choices != [] {
      var i := choices[0];
      NoZeroDelayRetry(c, s, p, i);
      EventOfSituation(s, p, i);
      TickIsDelivery(hs, s, i);
      if Deliver(s, i).exit.None? {
        var q := CalmStep(c, s, p, i);
        NoZeroDelayRetries(c, hs, Tick(hs, s, i), q, choices[1..]);
      }
    }
  }

  // ----- if some awaited request can be: the slowest order -----

  // Requests were issued as late as can be, and served before the first refresh.
  ghost predicate SlowLogs(c: Setup, issuedAt: seq<int>, servedAt: seq<int>)
    requires |servedAt| <= |issuedAt| <= |c.requests|
  {
    && (forall k {:trigger issuedAt[k]} :: 0 <= k < |issuedAt| ==> issuedAt[k] == SlowIssueTime(c, k))
    && (forall k :: 0 <= k < |servedAt| ==> ArrivesEarly(c, k))
  }

  // After n requests.
  predicate SlowPhase(c: Setup, n: nat, refreshing: bool, f: Phase)
    requires n <= |c.requests|
    requires !f.Idle? ==> n > 0
  {
    match f
    case Idle(wake) => wake.time == SlowIssueTime(c, n)
    case Responding(response) => response.time == SlowIssueTime(c, n)
    case Reading(_) => true
    case Writing(_, wake) =>
      refreshing || SlowIssueTime(c, n - 1) < wake.time <= SlowIssueTime(c, n)
  }

  ghost predicate Slowest(c: Setup, s: Sim<World>, p: Situation) {
    && Inv(c, s, p) && p.cycle == 0
    && SlowLogs(c, s.world.cpu.issuedAt, s.world.mem.servedAt)
    && SlowPhase(c, s.world.cpu.opCounter, s.world.mem.refreshing, p.phase)
  }

  // So there is a request left that a refresh will catch.
  lemma SomeAreLeft(c: Setup, served: nat)
    requires !EndsInAnyOrder(c) && served <= |c.requests|
    requires forall k :: 0 <= k < served ==> ArrivesEarly(c, k)
    ensures served < Awaited(c)
  {
  }

  lemma NotDoneYet(c: Setup, s: Sim<World>, p: Situation)
    requires !EndsInAnyOrder(c) && Slowest(c, s, p) && !p.phase.Reading?
    ensures s.world.cpu.opCounter < |c.requests|
  {
    SomeAreLeft(c, |s.world.mem.servedAt|);
    LastIsNotWriting(c, s.world, p.phase);
  }

  lemma LastIsNotWriting(c: Setup, w: World, f: Phase)
    requires LogsOk(c, w, f) && BusOk(c, w, f) && |w.mem.servedAt| < Awaited(c) && !f.Reading?
    ensures w.cpu.opCounter < |c.requests|
  {
  }

  // The timer goes first, then the processor, then the memory.
  ghost predicate Preferred(s: Sim<World>, p: Situation, i: nat) {
    && IsTop(s.queue, i)
    && (s.queue[i].time == p.timer.time ==> s.queue[i] == p.timer)
    && (p.phase.Writing? && s.queue[i] == p.phase.request ==> p.phase.request.time < p.phase.wake.time)
  }

  lemma EarliestIsTop(s: Sim<World>, p: Situation, e: Event) returns (i: nat)
    requires QueueOk(s, p) && e in Pending(p)
    requires e.time <= p.timer.time && NotBefore(p.phase, e.time)
    ensures IsTop(s.queue, i) && s.queue[i] == e
  {
    assert e in multiset(s.queue);
    i :| i < |s.queue| && s.queue[i] == e;
    forall j | 0 <= j < |s.queue|
      ensures s.queue[i].time <= s.queue[j].time
    {
      assert s.queue[j] in multiset(s.queue);
    }
  }

  lemma PreferredExists(s: Sim<World>, p: Situation) returns (i: nat)
    requires QueueOk(s, p)
    ensures Preferred(s, p, i)
  {
    if NotBefore(p.phase, p.timer.time) {
      i := EarliestIsTop(s, p, p.timer);
    } else {
      var e := match p.phase
        case Idle(wake) => wake
        case Writing(request, wake) => if wake.time <= request.time then wake else request
        case Reading(request) => request
        case Responding(response) => response;
      i := EarliestIsTop(s, p, e);
    }
  }

  lemma SlowTimerStep(c: Setup, s: Sim<World>, p: Situation, i: nat) returns (q: Situation)
    requires Slowest(c, s, p) && IsTop(s.queue, i) && s.queue[i] == p.timer && !s.world.mem.refreshing
    ensures Slowest(c, Deliver(s, i), q)
  {
    q := TimerTick(c, s, p, i);
  }

  // A request served in the first cycle was never put off.
  lemma NeverPutOff(now: int, mem: MemState, timer: Event, t: int, due: int)
    requires ClockOk(now, mem, 0, timer) && WaitOk(now, mem, 0, t, due)
    requires !mem.refreshing && due < timer.time
    ensures due == t + 1 < REFRESHING_INTERVAL
  {
  }

  lemma ServedSlowly(c: Setup, issuedAt: seq<int>, servedAt: seq<int>, due: int)
    requires |servedAt| + 1 == |issuedAt| <= |c.requests|
    requires SlowLogs(c, issuedAt, servedAt) && due == issuedAt[|servedAt|] + 1 < REFRESHING_INTERVAL
    ensures due == SlowIssueTime(c, |servedAt|) + 1
    ensures SlowLogs(c, issuedAt, servedAt + [due])
  {
  }

  lemma ServesSlowly(c: Setup, s: Sim<World>, p: Situation, i: nat)
    requires Slowest(c, s, p) && Preferred(s, p, i) && !s.world.mem.refreshing
    requires (p.phase.Writing? || p.phase.Reading?) && s.queue[i] == p.phase.request
    ensures s.queue[i].time == SlowIssueTime(c, s.world.cpu.opCounter - 1) + 1
    ensures SlowLogs(c, s.world.cpu.issuedAt, s.world.mem.servedAt + [s.queue[i].time])
  {
    TopOfSituation(s, p, i);
    RequestWaits(c, s, p);
    NeverPutOff(s.now, s.world.mem, p.timer, s.world.cpu.issuedAt[s.world.cpu.opCounter - 1], s.queue[i].time);
    ServedSlowly(c, s.world.cpu.issuedAt, s.world.mem.servedAt, s.queue[i].time);
  }

  lemma WokenSlowly(c: Setup, n: nat, f: Phase, q: Phase)
    requires 0 < n <= |c.requests| && SlowPhase(c, n, false, f)
    requires if c.requests[n - 1].request.Read? then
        && f.Reading? && q.Responding?
        && q.response.time == SlowIssueTime(c, n - 1) + 1 + Latency(c.mode, c.requests, n - 1)
      else
        f.Writing? && q == Idle(f.wake) && f.wake.time > SlowIssueTime(c, n - 1) + 1
    ensures SlowPhase(c, n, false, q)
  {
  }

  lemma SlowPostponeStep(c: Setup, s: Sim<World>, p: Situation, i: nat) returns (q: Situation)
    requires Slowest(c, s, p) && IsTop(s.queue, i) && s.world.mem.refreshing
    requires (p.phase.Writing? || p.phase.Reading?) && s.queue[i] == p.phase.request
    ensures Slowest(c, Deliver(s, i), q)
  {
    q := PostponeTick(c, s, p, i);
  }

  lemma SlowServeWriteStep(c: Setup, s: Sim<World>, p: Situation, i: nat) returns (q: Situation)
    requires Slowest(c, s, p) && Preferred(s, p, i) && !s.world.mem.refreshing
    requires p.phase.Writing? && s.queue[i] == p.phase.request
    ensures Slowest(c, Deliver(s, i), q)
  {
    TopOfSituation(s, p, i);
    ServesSlowly(c, s, p, i);
    q := Situation(p.cycle, p.timer, Idle(p.phase.wake));
    WokenSlowly(c, s.world.cpu.opCounter, p.phase, q.phase);
    ServeWriteTick(c, s, p, i);
  }

  lemma SlowServeReadStep(c: Setup, s: Sim<World>, p: Situation, i: nat) returns (q: Situation)
    requires Slowest(c, s, p) && Preferred(s, p, i) && !s.world.mem.refreshing
    requires p.phase.Reading? && s.queue[i] == p.phase.request
    ensures Slowest(c, Deliver(s, i), q)
  {
    TopOfSituation(s, p, i);
    ServesSlowly(c, s, p, i);
    q := ServeReadTick(c, s, p, i);
    WokenSlowly(c, s.world.cpu.opCounter, p.phase, q.phase);
  }

  lemma IssuedSlowly(c: Setup, issuedAt: seq<int>, servedAt: seq<int>, refreshing: bool, now: int, lastId: nat)
    requires |servedAt| == |issuedAt| < |c.requests|
    requires SlowLogs(c, issuedAt, servedAt) && now == SlowIssueTime(c, |issuedAt|)
    ensures SlowLogs(c, issuedAt + [now], servedAt)
    ensures SlowPhase(c, |issuedAt| + 1, refreshing, IssuedPhase(c.requests[|issuedAt|], now, lastId))
  {
  }

  lemma PolledSlowly(c: Setup, n: nat, refreshing: bool, f: Phase, wake: Event)
    requires 0 < n <= |c.requests| && f.Writing? && c.requests[n - 1].request.Write?
    requires SlowPhase(c, n, refreshing, f) && wake.time == f.wake.time + 1
    requires !refreshing ==> f.wake.time <= SlowIssueTime(c, n - 1) + 1
    ensures SlowPhase(c, n, refreshing, f.(wake := wake))
  {
  }

  lemma SlowPollStep(c: Setup, s: Sim<World>, p: Situation, i: nat) returns (q: Situation)
    requires Slowest(c, s, p) && IsTop(s.queue, i) && s.world.cpu.opCounter < |c.requests|
    requires p.phase.Writing? && s.queue[i] == p.phase.wake
    ensures Slowest(c, Deliver(s, i), q)
  {
    TopOfSituation(s, p, i);
    q := PollTick(c, s, p, i);
    PolledSlowly(c, s.world.cpu.opCounter, s.world.mem.refreshing, p.phase, q.phase.wake);
  }

  lemma SlowWakeStep(c: Setup, s: Sim<World>, p: Situation, i: nat) returns (q: Situation)
    requires Slowest(c, s, p) && IsTop(s.queue, i) && s.world.cpu.opCounter < |c.requests|
    requires p.phase.Idle? && s.queue[i] == p.phase.wake
    ensures Slowest(c, Deliver(s, i), q)
  {
    var w := s.world;
    IssuedSlowly(c, w.cpu.issuedAt, w.mem.servedAt, w.mem.refreshing, s.queue[i].time, s.lastId);
    q := IdleWakeTick(c, s, p, i);
  }

  lemma SlowResponseStep(c: Setup, s: Sim<World>, p: Situation, i: nat) returns (q: Situation)
    requires Slowest(c, s, p) && IsTop(s.queue, i) && s.world.cpu.opCounter < |c.requests|
    requires p.phase.Responding? && s.queue[i] == p.phase.response
    ensures Slowest(c, Deliver(s, i), q)
  {
    var w := s.world;
    IssuedSlowly(c, w.cpu.issuedAt, w.mem.servedAt, w.mem.refreshing, s.queue[i].time, s.lastId);
    q := ResponseTick(c, s, p, i);
  }

  lemma SlowStep(c: Setup, hs: seq<Handler<World>>, s: Sim<World>, p: Situation, i: nat) returns (q: Situation)
    requires Assembled(hs) && !EndsInAnyOrder(c) && Slowest(c, s, p) && Preferred(s, p, i)
    requires !(s.world.mem.refreshing && s.queue[i] == p.timer)
    ensures s.exit.None? && Slowest(c, Tick(hs, s, i), q) && !ZeroDelayRetry(s, s.queue[i])
  {
    EventOfSituation(s, p, i);
    TickIsDelivery(hs, s, i);
    if !p.phase.Reading? {
      NotDoneYet(c, s, p);
    }
    if s.queue[i] == p.timer {
      q := SlowTimerStep(c, s, p, i);
    } else if s.queue[i].m.dest == MEM {
      if s.world.mem.refreshing {
        q := SlowPostponeStep(c, s, p, i);
      } else if p.phase.Writing? {
        q := SlowServeWriteStep(c, s, p, i);
      } else {
        q := SlowServeReadStep(c, s, p, i);
      }
    } else if p.phase.Writing? {
      q := SlowPollStep(c, s, p, i);
    } else if p.phase.Idle? {
      q := SlowWakeStep(c, s, p, i);
    } else {
      q := SlowResponseStep(c, s, p, i);
    }
  }

  // ----- retrying for ever -----

  // A refresh is due to end now, and so is the pending request.
  ghost predicate Ripe(s: Sim<World>, p: Situation) {
    && QueueOk(s, p) && s.world.mem.refreshing
    && (p.phase.Writing? || p.phase.Reading?)
    && p.phase.request.time == p.timer.time
    && (p.phase.Writing? ==> p.phase.wake.time >= p.timer.time)
  }

  lemma RetryOnce(c: Setup, hs: seq<Handler<World>>, s: Sim<World>, p: Situation) returns (i: nat, q: Situation)
    requires Assembled(hs) && Inv(c, s, p) && Ripe(s, p)
    ensures s.exit.None? && IsTop(s.queue, i) && ZeroDelayRetry(s, s.queue[i])
    ensures Inv(c, Tick(hs, s, i), q) && Ripe(Tick(hs, s, i), q)
    ensures Tick(hs, s, i).world == s.world && Tick(hs, s, i).now == p.timer.time
  {
    i := EarliestIsTop(s, p, p.phase.request);
    TickIsDelivery(hs, s, i);
    q := PostponeTick(c, s, p, i);
  }

  // Taking the request before the refresh event changes nothing but the
  // identity of the request, so it can be repeated without end.
  lemma {:induction false} RetryForever(c: Setup, hs: seq<Handler<World>>, s: Sim<World>, p: Situation, m: nat)
    returns (choices: seq<nat>)
    requires Assembled(hs) && Inv(c, s, p) && Ripe(s, p)
    ensures |choices| == m && Legal(hs, s, choices)
    ensures After(hs, s, choices).exit.None? && After(hs, s, choices).world == s.world
    decreases m
  {
    if m == 0 {
      choices := [];
    } else {
      var i, q := RetryOnce(c, hs, s, p);
      var rest := RetryForever(c, hs, Tick(hs, s, i), q, m - 1);
      choices := [i] + rest;
      assert choices[1..] == rest;
    }
  }

  // While the first refresh runs, everything happened early in it or before.
  lemma FirstRefreshBounds(c: Setup, s: Sim<World>, p: Situation)
    requires Inv(c, s, p) && p.cycle == 0 && s.world.mem.refreshing
    ensures p.phase.Idle? ==> p.phase.wake.time < 2560
    ensures p.phase.Responding? ==> p.phase.response.time < 2560
    ensures p.phase.Writing? || p.phase.Reading? ==> p.phase.request.time <= 2560
  {
  }

  // So when it is due to end, a request is waiting.
  lemma RefreshEndIsRipe(c: Setup, s: Sim<World>, p: Situation, i: nat)
    requires Inv(c, s, p) && p.cycle == 0 && s.world.mem.refreshing
    requires IsTop(s.queue, i) && s.queue[i] == p.timer
    ensures Ripe(s, p)
  {
    FirstRefreshBounds(c, s, p);
    TopOfSituation(s, p, i);
  }

  // The slowest order for m ticks, or until the end of the first refresh.
  lemma {:induction false} TowardsRipe(c: Setup, hs: seq<Handler<World>>, s: Sim<World>, p: Situation, m: nat)
    returns (choices: seq<nat>, q: Situation)
    requires Assembled(hs) && !EndsInAnyOrder(c) && Slowest(c, s, p)
    ensures Legal(hs, s, choices) && ZeroDelayRetries(hs, s, choices) == 0
    ensures Inv(c, After(hs, s, choices), q)
    ensures |choices| == m || Ripe(After(hs, s, choices), q)
    decreases m
  {
    var i := PreferredExists(s, p);
    if m == 0 {
      choices, q := [], p;
    } else if s.world.mem.refreshing && s.queue[i] == p.timer {
      RefreshEndIsRipe(c, s, p, i);
      choices, q := [], p;
    } else {
      var p1 := SlowStep(c, hs, s, p, i);
      var rest;
      rest, q := TowardsRipe(c, hs, Tick(hs, s, i), p1, m - 1);
      choices := [i] + rest;
      assert choices[1..] == rest;
    }
  }

  lemma SomeOrderNeverEnds(c: Setup, hs: seq<Handler<World>>, s: Sim<World>, m: nat) returns (choices: seq<nat>)
    requires Assembled(hs) && Initial(c, s) && !EndsInAnyOrder(c)
    ensures Legal(hs, s, choices) && |choices| >= m
    ensures After(hs, s, choices).exit.None?
  {
    InitialIsGood(c, s);
    var prefix, q := TowardsRipe(c, hs, s, InitialSituation(), 180 * |c.requests| + 2);
    RunsAreShortButForRetries(c, hs, s, prefix);
    var rest := RetryForever(c, hs, After(hs, s, prefix), q, m);
    LegalSplit(hs, s, prefix, rest);
    choices := prefix + rest;
  }

  // ----- exactly when every order ends -----

  ghost predicate Bounded(hs: seq<Handler<World>>, s: Sim<World>, m: nat) {
    forall choices :: Legal(hs, s, choices) ==> |choices| <= m
  }

  // Every run ends, and within the usual number of ticks, exactly if the last
  // request the processor waits for must reach the memory before time 1024.
  lemma EveryOrderEndsIff(c: Setup, hs: seq<Handler<World>>, s: Sim<World>)
    requires Assembled(hs) && Initial(c, s)
    ensures EndsInAnyOrder(c) ==> Bounded(hs, s, 180 * |c.requests| + 1)
    ensures (exists m: nat :: Bounded(hs, s, m)) <==> EndsInAnyOrder(c)
  {
    InitialIsGood(c, s);
    if EndsInAnyOrder(c) {
      forall choices | Legal(hs, s, choices)
        ensures |choices| <= 180 * |c.requests| + 1
      {
        NoZeroDelayRetries(c, hs, s, InitialSituation(), choices);
        RunsAreShortButForRetries(c, hs, s, choices);
      }
      assert Bounded(hs, s, 180 * |c.requests| + 1);
    } else {
      forall m: nat | Bounded(hs, s, m)
        ensures false
      {
        var choices := SomeOrderNeverEnds(c, hs, s, m + 1);
      }
    }
  }
}
