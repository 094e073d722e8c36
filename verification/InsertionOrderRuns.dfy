// Simultaneous events taken in the order they were inserted.
//
// Then the whole event-driven simulation collapses to a recurrence: request k
// is issued at a time computed from request k - 1 alone, the run ends, and it
// ends at a time known in advance.
module InsertionOrderRuns {
  import opened SequentialMemory
  import opened Scheduler
  import opened Devices
  import opened Protocol
  import opened Runs

  // ----- the recurrence -----

  // When request k is issued; for k one past the last request, when the
  // processor would issue one more.
  function IssueTime(c: Setup, k: nat): (t: nat)
    requires k <= |c.requests|
    ensures t >= k
  {
    if k == 0 then 0
    else
      var served := ServiceTime(IssueTime(c, k - 1));
      if c.requests[k - 1].request.Read? then served + Latency(c.mode, c.requests, k - 1) else served
  }

  // When the process exits: with the answer to a last read, or one time unit
  // after issuing a last write, whether or not the write has been performed.
  function FinishTime(c: Setup): int {
    var n := |c.requests|;
    if n == 0 then 0
    else if c.requests[n - 1].request.Read? then IssueTime(c, n)
    else IssueTime(c, n - 1) + 1
  }

  // A last write is lost exactly if it reaches the memory during a refresh.
  predicate LastWriteLost(c: Setup) {
    var n := |c.requests|;
    n > 0 && c.requests[n - 1].request.Write? && (IssueTime(c, n - 1) + 1) % 2560 >= 1024
  }

  // The requests performed by then.
  function PerformedInOrder(c: Setup): seq<Access> {
    if LastWriteLost(c) then c.requests[..|c.requests| - 1] else c.requests
  }

  // ----- message ids record insertion order -----

  // If both are due at the same time, a was sent before b.
  predicate Precedes(a: Event, b: Event) {
    a.m.id < b.m.id || a.time > b.time
  }

  ghost predicate IdsOk(s: Sim<World>) {
    && (forall j, k :: 0 <= j < k < |s.queue| ==> Precedes(s.queue[j], s.queue[k]))
    && (forall j :: 0 <= j < |s.queue| ==> s.queue[j].m.id <= s.lastId)
  }

  ghost predicate FreshIds(es: seq<Event>, lastId: nat, lastId': nat) {
    && lastId <= lastId'
    && (forall j :: 0 <= j < |es| ==> lastId < es[j].m.id <= lastId')
    && (forall j, k :: 0 <= j < k < |es| ==> es[j].m.id < es[k].m.id)
  }

  lemma {:induction false} SendsGetFreshIds(lastId: nat, now: int, sends: seq<Send>)
    ensures var o := SendAll(Outbox([], lastId), now, sends); FreshIds(o.events, lastId, o.lastId)
  {
    if sends != [] {
      SendsGetFreshIds(lastId, now, sends[..|sends| - 1]);
    }
  }

  lemma DeliveryKeepsIds(s: Sim<World>, i: nat)
    requires IdsOk(s) && i < |s.queue|
    ensures IdsOk(Deliver(s, i))
    ensures s.lastId <= Deliver(s, i).lastId
  {
    SendsGetFreshIds(s.lastId, s.queue[i].time, React(s.world, s.queue[i]).sends);
  }

  lemma OldestIsStrictlyEarlier(s: Sim<World>, i: nat, x: Event)
    requires IdsOk(s) && IsOldestTop(s.queue, i)
    requires x in s.queue && Precedes(x, s.queue[i])
    ensures s.queue[i].time < x.time
  {
  }

  // ----- exact invariant -----

  predicate OrderOk(p: Situation) {
    match p.phase
    case Idle(_) => true
    case Writing(request, wake) => Precedes(p.timer, request) && Precedes(request, wake)
    case Reading(request) => Precedes(p.timer, request)
    case Responding(_) => true
  }

  ghost predicate LogsExact(c: Setup, issuedAt: seq<int>, servedAt: seq<int>)
    requires |servedAt| <= |issuedAt| <= |c.requests|
  {
    && (forall k :: 0 <= k < |issuedAt| ==> issuedAt[k] == IssueTime(c, k))
    && (forall k :: 0 <= k < |servedAt| ==> servedAt[k] == ServiceTime(IssueTime(c, k)))
  }

  predicate RequestExact(now: int, t: int, request: Event) {
    t <= now && (request.time == t + 1 || request.time == ServiceTime(t))
  }

  predicate PhaseExact(c: Setup, now: int, n: nat, f: Phase)
    requires n <= |c.requests|
    requires !f.Idle? ==> n > 0
  {
    match f
    case Idle(wake) =>
      && wake.time == IssueTime(c, n)
      && (n == |c.requests| ==> wake.time == FinishTime(c) && !LastWriteLost(c))
    case Writing(request, wake) =>
      var t := IssueTime(c, n - 1);
      && RequestExact(now, t, request) && t < wake.time <= ServiceTime(t)
      && (n == |c.requests| || request.time == t + 1 ==> wake.time == t + 1)
    case Reading(request) => RequestExact(now, IssueTime(c, n - 1), request)
    case Responding(_) => true
  }

  ghost predicate Exact(c: Setup, s: Sim<World>, p: Situation) {
    && Inv(c, s, p) && IdsOk(s) && OrderOk(p)
    && LogsExact(c, s.world.cpu.issuedAt, s.world.mem.servedAt)
    && PhaseExact(c, s.now, s.world.cpu.opCounter, p.phase)
  }

  // ----- ticks -----

  lemma InQueue(s: Sim<World>, p: Situation)
    requires QueueOk(s, p)
    ensures p.timer in s.queue
    ensures p.phase.Idle? || p.phase.Writing? ==> p.phase.wake in s.queue
    ensures p.phase.Writing? || p.phase.Reading? ==> p.phase.request in s.queue
    ensures p.phase.Responding? ==> p.phase.response in s.queue
  {
    assert forall e :: e in s.queue <==> e in multiset(s.queue);
    match p.phase
    case Idle(wake) => assert wake in multiset(s.queue);
    case Writing(request, wake) => assert request in multiset(s.queue) && wake in multiset(s.queue);
    case Reading(request) => assert request in multiset(s.queue);
    case Responding(response) => assert response in multiset(s.queue);
    assert p.timer in multiset(s.queue);
  }

  lemma ServiceTimeFacts(t: nat)
    ensures t + 1 <= ServiceTime(t) <= t + 1 + REFRESHING_TIME
    ensures ServiceTime(t) > t + 1 ==> ServiceTime(t) % 2560 == 0
    ensures ServiceTime(t) == t + 1 <==> (t + 1) % 2560 < 1024
  {
  }

  lemma TimerKeepsOrder(c: Setup, s: Sim<World>, p: Situation, i: nat, q: Situation)
    requires Exact(c, s, p) && IsOldestTop(s.queue, i) && s.queue[i] == p.timer
    requires Inv(c, Deliver(s, i), q) && q.phase == p.phase
    requires q.timer.time >= p.timer.time + REFRESHING_INTERVAL
    ensures OrderOk(q)
  {
    if p.phase.Writing? || p.phase.Reading? {
      var t := IssueTime(c, s.world.cpu.opCounter - 1);
      ServiceTimeFacts(t);
      assert p.phase.request.time <= p.timer.time + 1;
    }
  }

  lemma TimerKeepsPhaseExact(c: Setup, s: Sim<World>, p: Situation, now: int)
    requires LogsOk(c, s.world, p.phase) && s.now <= now
    requires PhaseExact(c, s.now, s.world.cpu.opCounter, p.phase)
    ensures PhaseExact(c, now, s.world.cpu.opCounter, p.phase)
  {
  }

  lemma ExactTimerTick(c: Setup, s: Sim<World>, p: Situation, i: nat) returns (q: Situation)
    requires Exact(c, s, p) && IsOldestTop(s.queue, i) && s.queue[i] == p.timer
    ensures Exact(c, Deliver(s, i), q)
    ensures q.phase == p.phase && q.timer.time > p.timer.time
    ensures q.cycle == NextCycle(s.world.mem, p.cycle)
  {
    q := TimerTick(c, s, p, i);
    DeliveryKeepsIds(s, i);
    TimerKeepsOrder(c, s, p, i, q);
    TimerDelivery(s, i);
    TopOfSituation(s, p, i);
    TimerKeepsPhaseExact(c, s, p, p.timer.time);
  }

  // A refresh event due now would have been taken before the request.
  lemma TimerIsLater(c: Setup, s: Sim<World>, p: Situation, i: nat)
    requires Exact(c, s, p) && IsOldestTop(s.queue, i)
    requires (p.phase.Writing? || p.phase.Reading?) && s.queue[i] == p.phase.request
    ensures s.now <= s.queue[i].time < p.timer.time
    ensures RequestExact(s.now, IssueTime(c, s.world.cpu.opCounter - 1), s.queue[i])
  {
    InQueue(s, p);
    OldestIsStrictlyEarlier(s, i, p.timer);
    TopOfSituation(s, p, i);
  }

  lemma ArrivalDuringRefresh(now: int, cycle: nat, t: nat)
    requires RefreshStart(cycle) <= now < RefreshEnd(cycle)
    requires now == t + 1 || now == ServiceTime(t)
    ensures ServiceTime(t) == RefreshEnd(cycle)
  {
  }

  lemma ArrivalOutsideRefresh(now: int, cycle: nat, t: nat)
    requires 2560 * cycle <= now < RefreshStart(cycle)
    requires now == t + 1 || now == ServiceTime(t)
    ensures ServiceTime(t) == now
  {
  }

  // So a request that has to wait really waits, and is due when foreseen.
  lemma PostponedToServiceTime(c: Setup, s: Sim<World>, p: Situation, i: nat)
    requires Exact(c, s, p) && IsOldestTop(s.queue, i)
    requires (p.phase.Writing? || p.phase.Reading?) && s.queue[i] == p.phase.request
    requires s.world.mem.refreshing
    ensures s.queue[i].time < p.timer.time == ServiceTime(IssueTime(c, s.world.cpu.opCounter - 1))
  {
    TimerIsLater(c, s, p, i);
    ArrivalDuringRefresh(s.queue[i].time, p.cycle, IssueTime(c, s.world.cpu.opCounter - 1));
  }

  lemma RetryKeepsExact(c: Setup, now: int, later: int, n: nat, p: Situation, request: Event)
    requires 0 < n <= |c.requests| && (p.phase.Writing? || p.phase.Reading?)
    requires PhaseExact(c, now, n, p.phase) && now <= later
    requires p.phase.request.time < request.time == ServiceTime(IssueTime(c, n - 1))
    requires p.timer.m.id < request.m.id
    ensures PhaseExact(c, later, n, Waiting(p.phase, request))
    ensures OrderOk(Situation(p.cycle, p.timer, Waiting(p.phase, request)))
  {
  }

  lemma TimerIdIsOld(s: Sim<World>, p: Situation)
    requires QueueOk(s, p) && IdsOk(s)
    ensures p.timer.m.id <= s.lastId
  {
    InQueue(s, p);
  }

  lemma RetriedExactly(c: Setup, s: Sim<World>, p: Situation, i: nat)
    requires Exact(c, s, p) && IsOldestTop(s.queue, i)
    requires (p.phase.Writing? || p.phase.Reading?) && s.queue[i] == p.phase.request
    requires s.world.mem.refreshing
    ensures var q := Situation(p.cycle, p.timer, RetryPhase(s, p.phase, s.queue[i].time));
      OrderOk(q) && PhaseExact(c, s.queue[i].time, s.world.cpu.opCounter, q.phase)
    ensures s.queue[i].time < p.timer.time
  {
    var now := s.queue[i].time;
    PostponedToServiceTime(c, s, p, i);
    TimerIsLater(c, s, p, i);
    TimerIdIsOld(s, p);
    RetryKeepsExact(c, s.now, now, s.world.cpu.opCounter, p, Stamped(RetrySend(s.world, now), now, s.lastId + 1));
  }

  lemma ExactPostponeTick(c: Setup, s: Sim<World>, p: Situation, i: nat) returns (q: Situation)
    requires Exact(c, s, p) && IsOldestTop(s.queue, i)
    requires (p.phase.Writing? || p.phase.Reading?) && s.queue[i] == p.phase.request
    requires s.world.mem.refreshing
    ensures Exact(c, Deliver(s, i), q)
    ensures q.cycle == p.cycle
    ensures s.queue[i].time < p.timer.time
  {
    RetriedExactly(c, s, p, i);
    DeliveryKeepsIds(s, i);
    q := PostponeTick(c, s, p, i);
  }

  // A refresh starting now would have been taken first, so a request is served
  // exactly when foreseen.
  lemma ServedAtServiceTime(c: Setup, s: Sim<World>, p: Situation, i: nat)
    requires Exact(c, s, p) && IsOldestTop(s.queue, i)
    requires (p.phase.Writing? || p.phase.Reading?) && s.queue[i] == p.phase.request
    requires !s.world.mem.refreshing
    ensures s.queue[i].time == ServiceTime(IssueTime(c, s.world.cpu.opCounter - 1))
  {
    TimerIsLater(c, s, p, i);
    ArrivalOutsideRefresh(s.queue[i].time, p.cycle, IssueTime(c, s.world.cpu.opCounter - 1));
  }

  lemma ServedLogs(c: Setup, issuedAt: seq<int>, servedAt: seq<int>, now: int)
    requires |servedAt| + 1 == |issuedAt| <= |c.requests|
    requires LogsExact(c, issuedAt, servedAt) && now == ServiceTime(IssueTime(c, |servedAt|))
    ensures LogsExact(c, issuedAt, servedAt + [now])
  {
  }

  lemma IssuedLogs(c: Setup, issuedAt: seq<int>, servedAt: seq<int>, now: int)
    requires |servedAt| == |issuedAt| < |c.requests|
    requires LogsExact(c, issuedAt, servedAt) && now == IssueTime(c, |servedAt|)
    ensures LogsExact(c, issuedAt + [now], servedAt)
  {
  }

  lemma WakeAfterService(c: Setup, now: int, n: nat, request: Event, wake: Event, later: int)
    requires 0 < n <= |c.requests| && c.requests[n - 1].request.Write?
    requires PhaseExact(c, now, n, Writing(request, wake))
    requires request.time == ServiceTime(IssueTime(c, n - 1)) <= wake.time
    ensures PhaseExact(c, later, n, Idle(wake))
  {
  }

  lemma ExactServeWriteTick(c: Setup, s: Sim<World>, p: Situation, i: nat)
    requires Exact(c, s, p) && IsOldestTop(s.queue, i) && !s.world.mem.refreshing
    requires p.phase.Writing? && s.queue[i] == p.phase.request
    ensures Exact(c, Deliver(s, i), Situation(p.cycle, p.timer, Idle(p.phase.wake)))
  {
    var now := s.queue[i].time;
    ServeWriteTick(c, s, p, i);
    DeliveryKeepsIds(s, i);
    ServedAtServiceTime(c, s, p, i);
    TopOfSituation(s, p, i);
    WakeAfterService(c, s.now, s.world.cpu.opCounter, p.phase.request, p.phase.wake, now);
    ServedLogs(c, s.world.cpu.issuedAt, s.world.mem.servedAt, now);
  }

  lemma ExactServeReadTick(c: Setup, s: Sim<World>, p: Situation, i: nat) returns (q: Situation)
    requires Exact(c, s, p) && IsOldestTop(s.queue, i) && !s.world.mem.refreshing
    requires p.phase.Reading? && s.queue[i] == p.phase.request
    ensures Exact(c, Deliver(s, i), q)
    ensures q.timer == p.timer && q.cycle == p.cycle && q.phase.Responding? && q.phase.response.time > s.queue[i].time
  {
    q := ServeReadTick(c, s, p, i);
    LatencyIsPositive(c.mode, c.requests, s.world.cpu.opCounter - 1);
    DeliveryKeepsIds(s, i);
    ServedAtServiceTime(c, s, p, i);
    ServedLogs(c, s.world.cpu.issuedAt, s.world.mem.servedAt, s.queue[i].time);
  }

  lemma IssueExact(c: Setup, s: Sim<World>, p: Situation, i: nat, q: Situation)
    requires IdsOk(s) && IsOldestTop(s.queue, i) && QueueOk(s, p)
    requires s.world.cpu.opCounter < |c.requests| && s.queue[i].time == IssueTime(c, s.world.cpu.opCounter)
    requires q.timer == p.timer
    requires q.phase == IssuedPhase(c.requests[s.world.cpu.opCounter], s.queue[i].time, s.lastId)
    ensures OrderOk(q)
    ensures PhaseExact(c, s.queue[i].time, s.world.cpu.opCounter + 1, q.phase)
  {
    InQueue(s, p);
    ServiceTimeFacts(s.queue[i].time);
  }

  lemma ExactIdleWakeTick(c: Setup, s: Sim<World>, p: Situation, i: nat) returns (q: Situation)
    requires Exact(c, s, p) && IsOldestTop(s.queue, i)
    requires p.phase.Idle? && s.queue[i] == p.phase.wake && s.world.cpu.opCounter < |c.requests|
    ensures Exact(c, Deliver(s, i), q)
    ensures q.timer == p.timer && q.cycle == p.cycle
    ensures q.phase == IssuedPhase(c.requests[s.world.cpu.opCounter], s.queue[i].time, s.lastId)
  {
    q := IdleWakeTick(c, s, p, i);
    DeliveryKeepsIds(s, i);
    IssueExact(c, s, p, i, q);
    IssuedLogs(c, s.world.cpu.issuedAt, s.world.mem.servedAt, s.queue[i].time);
  }

  lemma ResponseIsForeseen(c: Setup, s: Sim<World>, p: Situation)
    requires Exact(c, s, p) && p.phase.Responding?
    ensures p.phase.response.time == IssueTime(c, s.world.cpu.opCounter)
  {
  }

  lemma ExactResponseTick(c: Setup, s: Sim<World>, p: Situation, i: nat) returns (q: Situation)
    requires Exact(c, s, p) && IsOldestTop(s.queue, i)
    requires p.phase.Responding? && s.queue[i] == p.phase.response && s.world.cpu.opCounter < |c.requests|
    ensures Exact(c, Deliver(s, i), q)
    ensures q.timer == p.timer && q.cycle == p.cycle
    ensures q.phase == IssuedPhase(c.requests[s.world.cpu.opCounter], s.queue[i].time, s.lastId)
  {
    q := ResponseTick(c, s, p, i);
    DeliveryKeepsIds(s, i);
    ResponseIsForeseen(c, s, p);
    IssueExact(c, s, p, i, q);
    IssuedLogs(c, s.world.cpu.issuedAt, s.world.mem.servedAt, s.queue[i].time);
  }

  lemma PollKeepsExact(c: Setup, now: int, n: nat, p: Situation, wake: Event)
    requires 0 < n < |c.requests| && p.phase.Writing?
    requires PhaseExact(c, now, n, p.phase) && OrderOk(p)
    requires p.phase.wake.time < p.phase.request.time && wake.time == p.phase.wake.time + 1
    requires p.phase.request.m.id < wake.m.id
    ensures PhaseExact(c, p.phase.wake.time, n, p.phase.(wake := wake))
    ensures OrderOk(Situation(p.cycle, p.timer, p.phase.(wake := wake)))
  {
  }

  lemma ExactPollTick(c: Setup, s: Sim<World>, p: Situation, i: nat) returns (q: Situation)
    requires Exact(c, s, p) && IsOldestTop(s.queue, i)
    requires p.phase.Writing? && s.queue[i] == p.phase.wake && s.world.cpu.opCounter < |c.requests|
    ensures Exact(c, Deliver(s, i), q)
    ensures var wake := Stamped(WakeSend(s.queue[i].time), s.queue[i].time, s.lastId + 1);
      q == Situation(p.cycle, p.timer, p.phase.(wake := wake))
  {
    q := PollTick(c, s, p, i);
    DeliveryKeepsIds(s, i);
    InQueue(s, p);
    OldestIsStrictlyEarlier(s, i, p.phase.request);
    PollKeepsExact(c, s.now, s.world.cpu.opCounter, p, q.phase.wake);
  }

  // ----- the end of the run -----

  ghost predicate FinishedExactly(c: Setup, s: Sim<World>) {
    && Finished(c, s)
    && s.now == FinishTime(c)
    && LogsExact(c, s.world.cpu.issuedAt, s.world.mem.servedAt)
    && |s.world.mem.servedAt| == |c.requests| - if LastWriteLost(c) then 1 else 0
  }

  lemma LateWriteIsLost(c: Setup, now: int, request: Event, wake: Event)
    requires c.requests != [] && c.requests[|c.requests| - 1].request.Write?
    requires PhaseExact(c, now, |c.requests|, Writing(request, wake)) && wake.time < request.time
    ensures wake.time == FinishTime(c) && LastWriteLost(c)
  {
  }

  lemma ReadIsNotLost(c: Setup)
    requires c.requests != [] && c.requests[|c.requests| - 1].request.Read?
    ensures IssueTime(c, |c.requests|) == FinishTime(c) && !LastWriteLost(c)
  {
  }

  lemma FinishesWhenForeseen(c: Setup, s: Sim<World>, p: Situation, e: Event)
    requires Exact(c, s, p) && s.world.cpu.opCounter == |c.requests|
    requires if p.phase.Responding? then e == p.phase.response
      else (p.phase.Idle? || p.phase.Writing?) && e == p.phase.wake
    requires p.phase.Writing? ==> e.time < p.phase.request.time
    ensures e.time == FinishTime(c)
    ensures LastWriteLost(c) == p.phase.Writing?
  {
    match p.phase
    case Idle(wake) =>
      assert PhaseExact(c, s.now, |c.requests|, Idle(wake));
    case Writing(request, wake) =>
      LateWriteIsLost(c, s.now, request, wake);
    case Responding(response) =>
      ResponseIsForeseen(c, s, p);
      ReadIsNotLost(c);
  }

  lemma ExactExitTick(c: Setup, s: Sim<World>, p: Situation, i: nat)
    requires Exact(c, s, p) && IsOldestTop(s.queue, i)
    requires s.queue[i].m.dest == CPU && s.queue[i].m.valid && s.world.cpu.opCounter >= |c.requests|
    requires p.phase.Idle? || p.phase.Writing? ==> s.queue[i] == p.phase.wake
    requires p.phase.Responding? ==> s.queue[i] == p.phase.response
    requires !p.phase.Reading?
    ensures FinishedExactly(c, Deliver(s, i))
  {
    ExitTick(c, s, p, i);
    if p.phase.Writing? {
      InQueue(s, p);
      OldestIsStrictlyEarlier(s, i, p.phase.request);
    }
    FinishesWhenForeseen(c, s, p, s.queue[i]);
  }
}
