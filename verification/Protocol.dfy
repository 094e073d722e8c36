// The processor/bus/memory protocol under every tie-break.
//
// Between two ticks the system is in exactly one of four situations, which
// also say what every queued event is.  `Inv` ties a situation to the state of
// the simulator; each tick leads from one situation to another.
module Protocol {
  import opened MainBus
  import opened SequentialMemory
  import opened Scheduler
  import opened Devices

  datatype Phase =
    | Idle(wake: Event)
    | Writing(request: Event, wake: Event)
    | Reading(request: Event)
    | Responding(response: Event)

  datatype Situation = Situation(cycle: nat, timer: Event, phase: Phase)

  function Others(f: Phase): multiset<Event> {
    match f
    case Idle(wake) => multiset{wake}
    case Writing(request, wake) => multiset{request} + multiset{wake}
    case Reading(request) => multiset{request}
    case Responding(response) => multiset{response}
  }

  function Pending(p: Situation): multiset<Event> {
    multiset{p.timer} + Others(p.phase)
  }

  predicate Carries(e: Event, source: Name, dest: Name) {
    e.m.valid && e.m.source == source && e.m.dest == dest
  }

  predicate Addressed(f: Phase) {
    match f
    case Idle(wake) => Carries(wake, CPU, CPU)
    case Writing(request, wake) => Carries(request, CPU, MEM) && Carries(wake, CPU, CPU)
    case Reading(request) => Carries(request, CPU, MEM)
    case Responding(response) => Carries(response, MEM, CPU)
  }

  predicate NotBefore(f: Phase, now: int) {
    match f
    case Idle(wake) => now <= wake.time
    case Writing(request, wake) => now <= request.time && now <= wake.time
    case Reading(request) => now <= request.time
    case Responding(response) => now <= response.time
  }

  // The queue holds exactly the events of the situation.
  ghost predicate QueueOk(s: Sim<World>, p: Situation) {
    && s.exit.None? && multiset(s.queue) == Pending(p)
    && Carries(p.timer, MEM, MEM) && Addressed(p.phase)
    && s.now <= p.timer.time && NotBefore(p.phase, s.now)
  }

  // Refresh number `cycle` is the one running, or the next one to start.
  predicate ClockOk(now: int, mem: MemState, cycle: nat, timer: Event) {
    if mem.refreshing then
      timer.time == RefreshEnd(cycle) && mem.startedAt == RefreshStart(cycle) <= now
    else
      timer.time == RefreshStart(cycle) && 2560 * cycle <= now
  }

  // Nothing has been served since the running refresh started.
  predicate QuietOk(now: int, mem: MemState) {
    mem.servedAt != [] ==>
      mem.servedAt[|mem.servedAt| - 1] <= if mem.refreshing then mem.startedAt else now
  }

  // Requests performed so far: all but a pending one.
  function Performed(w: World, f: Phase): int {
    w.cpu.opCounter - if f.Writing? || f.Reading? then 1 else 0
  }

  predicate LogsOk(c: Setup, w: World, f: Phase) {
    && w.cpu.requests == c.requests && w.mem.mode == c.mode
    && w.cpu.opCounter <= |c.requests|
    && |w.cpu.issuedAt| == w.cpu.opCounter
    && (!f.Idle? ==> w.cpu.opCounter > 0)
    && |w.mem.servedAt| == Performed(w, f)
  }

  // The memory and the data read back agree with the sequential memory.
  predicate DataOk(c: Setup, w: World, f: Phase)
    requires LogsOk(c, w, f)
  {
    var done := c.requests[..Performed(w, f)];
    && w.mem.dram == ApplyAll(c.dram, done)
    && w.cpu.received + (if f.Responding? then [w.bus.lines.data] else []) == ReadsOf(c.dram, done)
    && w.mem.firstAccess == (done == [])
    && (done != [] ==> w.mem.lastRow == Row(done[|done| - 1].address))
  }

  predicate BusOk(c: Setup, w: World, f: Phase)
    requires LogsOk(c, w, f)
  {
    && w.bus.busy == !f.Idle?
    && (w.cpu.opCounter > 0 ==>
      var a := c.requests[w.cpu.opCounter - 1];
      match f
      case Idle(_) => a.request.Write?
      case Writing(_, _) => a.request.Write? && w.bus.lines == BusStatus(Write, a.address, TEST_DATA)
      case Reading(_) => a.request.Read? && w.bus.lines == BusStatus(Read, a.address, TEST_DATA)
      case Responding(_) => a.request.Read?)
  }

  // The possible times of the request after one served at time `served`.
  predicate MayFollow(c: Setup, k: nat, served: int, t: int)
    requires k < |c.requests|
  {
    if c.requests[k].request.Read? then t == served + Latency(c.mode, c.requests, k)
    else served <= t <= served + 1
  }

  // What the two logs say about each request.
  ghost predicate HistoryOk(c: Setup, issuedAt: seq<int>, servedAt: seq<int>)
    requires |servedAt| <= |issuedAt| <= |servedAt| + 1
    requires |issuedAt| <= |c.requests|
  {
    && (|issuedAt| > 0 ==> issuedAt[0] == 0)
    && (forall k :: 0 <= k < |servedAt| ==> MayBeServed(issuedAt[k], servedAt[k]))
    && (forall k :: 0 < k < |issuedAt| ==> MayFollow(c, k - 1, servedAt[k - 1], issuedAt[k]))
  }

  ghost predicate WorldOk(c: Setup, w: World, f: Phase) {
    && LogsOk(c, w, f) && DataOk(c, w, f) && BusOk(c, w, f)
    && HistoryOk(c, w.cpu.issuedAt, w.mem.servedAt)
  }

  // A request issued at time t is still waiting: it arrives at t + 1, or has
  // been put off to the end of a refresh.
  predicate WaitOk(now: int, mem: MemState, cycle: nat, t: int, due: int) {
    || due == t + 1
    || (t + 1 < due &&
        if mem.refreshing then due == RefreshEnd(cycle) && RefreshStart(cycle) <= t + 1
        else cycle > 0 && now == due == RefreshEnd(cycle - 1) && RefreshStart(cycle - 1) <= t + 1)
  }

  predicate TimesOk(c: Setup, now: int, w: World, cycle: nat, f: Phase)
    requires LogsOk(c, w, f)
  {
    var n := w.cpu.opCounter;
    match f
    case Idle(wake) =>
      if n == 0 then wake.time == 0 else w.mem.servedAt[n - 1] <= wake.time <= w.mem.servedAt[n - 1] + 1
    case Writing(request, wake) =>
      WaitOk(now, w.mem, cycle, w.cpu.issuedAt[n - 1], request.time) && wake.time <= request.time + 1
    case Reading(request) =>
      WaitOk(now, w.mem, cycle, w.cpu.issuedAt[n - 1], request.time)
    case Responding(response) =>
      response.time == w.mem.servedAt[n - 1] + Latency(c.mode, c.requests, n - 1)
  }

  ghost predicate Inv(c: Setup, s: Sim<World>, p: Situation) {
    && QueueOk(s, p)
    && ClockOk(s.now, s.world.mem, p.cycle, p.timer)
    && QuietOk(s.now, s.world.mem)
    && WorldOk(c, s.world, p.phase)
    && TimesOk(c, s.now, s.world, p.cycle, p.phase)
  }

  // ----- a tick delivers one message to its destination -----

  function React(w: World, e: Event): Reaction<World> {
    if e.m.dest == CPU then CpuReact(w, e.time, e.m) else MemReact(w, e.time, e.m)
  }

  function Deliver(s: Sim<World>, i: nat): Sim<World>
    requires i < |s.queue|
  {
    var e := s.queue[i];
    var a := React(s.world, e);
    var o := SendAll(Outbox([], s.lastId), e.time, a.sends);
    if a.exit.Some? then Sim(e.time, o.lastId, s.queue, a.world, a.exit)
    else Sim(e.time, o.lastId, Without(s.queue, i) + o.events, a.world, None)
  }

  lemma RoundOfTwo(g: Handler<World>, h: Handler<World>, w: World, lastId: nat, e: Event)
    ensures NotifyAll([g, h], w, lastId, e)
         == NotifyNext(NotifyNext(Round(w, lastId, [], e.m.valid, None), g, e), h, e)
  {
    var hs := [g, h];
    assert hs[..1] == [g] && hs[1] == h;
    assert [g][..0] == [] && [g][0] == g;
    assert NotifyAll([], w, lastId, e) == Round(w, lastId, [], e.m.valid, None);
    assert NotifyAll([g], w, lastId, e) == NotifyNext(NotifyAll([g][..0], w, lastId, e), g, e);
    assert NotifyAll(hs, w, lastId, e) == NotifyNext(NotifyAll(hs[..1], w, lastId, e), h, e);
  }

  lemma OrderOfTwo(a: seq<Event>, b: seq<Event>)
    ensures InsertionOrder([a, b]) == b + a
  {
    assert [a, b][..1] == [a];
    assert [a][..0] == [];
    assert InsertionOrder([a]) == a + [];
  }

  // A message is valid until the end of its tick, and only its addressee acts.
  lemma OnlyTheAddresseeReacts(w: World, e: Event)
    requires e.m.valid
    ensures React(w, e).valid
    ensures e.m.dest != CPU ==> CpuReact(w, e.time, e.m) == Reaction(w, [], true, None)
    ensures e.m.dest != MEM ==> MemReact(w, e.time, e.m) == Reaction(w, [], true, None)
  {
  }

  // What a round achieves when its first, respectively second, module acts.
  ghost predicate RoundYields(r: Round<World>, lastId: nat, e: Event, a: Reaction<World>) {
    var o := SendAll(Outbox([], lastId), e.time, a.sends);
    r.world == a.world && r.exit == a.exit && r.lastId == o.lastId && InsertionOrder(r.batches) == o.events
  }

  lemma FirstActs(g: Handler<World>, h: Handler<World>, w: World, lastId: nat, e: Event, a: Reaction<World>)
    requires e.m.valid && a.valid && g(w, e.time, e.m) == a
    requires h(a.world, e.time, e.m) == Reaction(a.world, [], true, None)
    ensures RoundYields(NotifyAll([g, h], w, lastId, e), lastId, e, a)
  {
    RoundOfTwo(g, h, w, lastId, e);
    var es := SendAll(Outbox([], lastId), e.time, a.sends).events;
    OrderOfTwo(es, []);
    assert [] + es == es;
  }

  lemma SecondActs(g: Handler<World>, h: Handler<World>, w: World, lastId: nat, e: Event, a: Reaction<World>)
    requires e.m.valid && a.valid && h(w, e.time, e.m) == a
    requires g(w, e.time, e.m) == Reaction(w, [], true, None)
    ensures RoundYields(NotifyAll([g, h], w, lastId, e), lastId, e, a)
  {
    RoundOfTwo(g, h, w, lastId, e);
    var es := SendAll(Outbox([], lastId), e.time, a.sends).events;
    OrderOfTwo([], es);
    assert es + [] == es;
  }

  // The order in which the two modules are notified makes no difference.
  lemma TickIsDelivery(hs: seq<Handler<World>>, s: Sim<World>, i: nat)
    requires Assembled(hs) && i < |s.queue|
    requires s.queue[i].m.valid && s.queue[i].m.dest in {CPU, MEM}
    ensures Tick(hs, s, i) == Deliver(s, i)
  {
    var e := s.queue[i];
    var a := React(s.world, e);
    OnlyTheAddresseeReacts(s.world, e);
    OnlyTheAddresseeReacts(a.world, e);
    if hs == [CpuReact, MemReact] {
      if e.m.dest == CPU {
        FirstActs(CpuReact, MemReact, s.world, s.lastId, e, a);
      } else {
        SecondActs(CpuReact, MemReact, s.world, s.lastId, e, a);
      }
    } else {
      if e.m.dest == CPU {
        SecondActs(MemReact, CpuReact, s.world, s.lastId, e, a);
      } else {
        FirstActs(MemReact, CpuReact, s.world, s.lastId, e, a);
      }
    }
    GuardNeverRejects(hs, s, i);
  }

  // ----- bookkeeping shared by the four kinds of tick -----

  lemma TopOfSituation(s: Sim<World>, p: Situation, i: nat)
    requires QueueOk(s, p) && IsTop(s.queue, i)
    ensures s.queue[i] in Pending(p)
    ensures s.now <= s.queue[i].time <= p.timer.time && NotBefore(p.phase, s.queue[i].time)
  {
    TopIsEarliest(s.queue, i);
    assert p.timer in multiset(s.queue);
    match p.phase
    case Idle(wake) => assert wake in multiset(s.queue);
    case Writing(request, wake) => assert request in multiset(s.queue) && wake in multiset(s.queue);
    case Reading(request) => assert request in multiset(s.queue);
    case Responding(response) => assert response in multiset(s.queue);
  }

  // Exchanging one kind of pending event for another.
  lemma SwapTimer(q: seq<Event>, i: nat, timer: Event, others: multiset<Event>, next: Event)
    requires i < |q| && q[i] == timer && multiset(q) == multiset{timer} + others
    ensures multiset(Without(q, i) + [next]) == multiset{next} + others
  {
    TakeAndAdd(q, i, others, [next]);
  }

  lemma SwapOnly(q: seq<Event>, i: nat, timer: Event, e: Event, es: seq<Event>)
    requires i < |q| && q[i] == e && multiset(q) == multiset{timer} + multiset{e}
    ensures multiset(Without(q, i) + es) == multiset{timer} + multiset(es)
  {
    TakeAndAdd(q, i, multiset{timer}, es);
  }

  lemma SwapFirst(q: seq<Event>, i: nat, timer: Event, e: Event, other: Event, es: seq<Event>)
    requires i < |q| && q[i] == e && multiset(q) == multiset{timer} + (multiset{e} + multiset{other})
    ensures multiset(Without(q, i) + es) == multiset{timer} + (multiset(es) + multiset{other})
  {
    TakeAndAdd(q, i, multiset{timer} + multiset{other}, es);
  }

  lemma SwapSecond(q: seq<Event>, i: nat, timer: Event, other: Event, e: Event, next: Event)
    requires i < |q| && q[i] == e && multiset(q) == multiset{timer} + (multiset{other} + multiset{e})
    ensures multiset(Without(q, i) + [next]) == multiset{timer} + (multiset{other} + multiset{next})
  {
    TakeAndAdd(q, i, multiset{timer} + multiset{other}, [next]);
  }

  function Stamped(s: Send, now: int, id: nat): Event {
    Event(now + s.delay, s.m.(id := id))
  }

  lemma SendNone(now: int, lastId: nat)
    ensures SendAll(Outbox([], lastId), now, []) == Outbox([], lastId)
  {
  }

  lemma SendJust(now: int, lastId: nat, a: Send)
    requires a.delay >= 0
    ensures SendAll(Outbox([], lastId), now, [a]) == Outbox([Stamped(a, now, lastId + 1)], lastId + 1)
  {
  }

  lemma SendBoth(now: int, lastId: nat, a: Send, b: Send)
    requires a.delay >= 0 && b.delay >= 0
    ensures SendAll(Outbox([], lastId), now, [a, b])
         == Outbox([Stamped(a, now, lastId + 1), Stamped(b, now, lastId + 2)], lastId + 2)
  {
    assert [a, b][..1] == [a];
    SendJust(now, lastId, a);
  }

  // ----- refresh timer -----

  function TimerWorld(w: World, now: int): World {
    w.(mem := if w.mem.refreshing then EndRefresh(w.mem) else StartRefresh(w.mem, now))
  }

  function TimerSend(w: World, now: int): Send {
    Send(NewMessage(now, MEM, MEM), if w.mem.refreshing then REFRESHING_INTERVAL else REFRESHING_TIME)
  }

  lemma TimerDelivery(s: Sim<World>, i: nat)
    requires i < |s.queue| && Carries(s.queue[i], MEM, MEM)
    ensures var now := s.queue[i].time;
      Deliver(s, i) == Sim(now, s.lastId + 1,
        Without(s.queue, i) + [Stamped(TimerSend(s.world, now), now, s.lastId + 1)],
        TimerWorld(s.world, now), None)
  {
    var now := s.queue[i].time;
    SendJust(now, s.lastId, TimerSend(s.world, now));
  }

  function NextCycle(mem: MemState, cycle: nat): nat {
    if mem.refreshing then cycle + 1 else cycle
  }

  lemma TimerClock(now: int, w: World, cycle: nat, timer: Event, next: Event)
    requires ClockOk(now, w.mem, cycle, timer) && QuietOk(now, w.mem) && now <= timer.time
    requires next.time == timer.time + TimerSend(w, timer.time).delay
    ensures QuietOk(timer.time, TimerWorld(w, timer.time).mem)
    ensures ClockOk(timer.time, TimerWorld(w, timer.time).mem, NextCycle(w.mem, cycle), next)
    ensures next.time >= timer.time + REFRESHING_INTERVAL
  {
    CalendarMatchesConstants(cycle);
  }

  lemma TimerTimes(c: Setup, now: int, w: World, cycle: nat, timer: Event, f: Phase)
    requires ClockOk(now, w.mem, cycle, timer) && now <= timer.time && NotBefore(f, timer.time)
    requires LogsOk(c, w, f) && TimesOk(c, now, w, cycle, f)
    ensures LogsOk(c, TimerWorld(w, timer.time), f)
    ensures TimesOk(c, timer.time, TimerWorld(w, timer.time), NextCycle(w.mem, cycle), f)
  {
  }

  lemma TimerKeepsWorld(c: Setup, now: int, w: World, f: Phase)
    requires WorldOk(c, w, f)
    ensures WorldOk(c, TimerWorld(w, now), f)
  {
  }

  lemma TimerTick(c: Setup, s: Sim<World>, p: Situation, i: nat) returns (q: Situation)
    requires Inv(c, s, p) && IsTop(s.queue, i) && s.queue[i] == p.timer
    ensures Inv(c, Deliver(s, i), q)
    ensures q.timer.time >= p.timer.time + REFRESHING_INTERVAL && q.phase == p.phase
    ensures q.cycle == NextCycle(s.world.mem, p.cycle)
    ensures Deliver(s, i).world == TimerWorld(s.world, p.timer.time)
  {
    TopOfSituation(s, p, i);
    TimerDelivery(s, i);
    var now := p.timer.time;
    var timer := Stamped(TimerSend(s.world, now), now, s.lastId + 1);
    q := Situation(NextCycle(s.world.mem, p.cycle), timer, p.phase);
    SwapTimer(s.queue, i, p.timer, Others(p.phase), timer);
    TimerClock(s.now, s.world, p.cycle, p.timer, timer);
    TimerTimes(c, s.now, s.world, p.cycle, p.timer, p.phase);
    TimerKeepsWorld(c, now, s.world, p.phase);
  }

  // ----- a request reaching the memory during a refresh -----

  function Waiting(f: Phase, request: Event): Phase
    requires f.Writing? || f.Reading?
  {
    if f.Writing? then f.(request := request) else Reading(request)
  }

  function RetrySend(w: World, now: int): Send {
    Send(NewMessage(now, CPU, MEM), w.mem.startedAt + REFRESHING_TIME - now)
  }

  lemma PostponeDelivery(s: Sim<World>, i: nat)
    requires i < |s.queue| && Carries(s.queue[i], CPU, MEM)
    requires s.world.mem.refreshing && RetrySend(s.world, s.queue[i].time).delay >= 0
    ensures var now := s.queue[i].time;
      Deliver(s, i) == Sim(now, s.lastId + 1,
        Without(s.queue, i) + [Stamped(RetrySend(s.world, now), now, s.lastId + 1)], s.world, None)
  {
    SendJust(s.queue[i].time, s.lastId, RetrySend(s.world, s.queue[i].time));
  }

  // Put off, the request is due when the refresh ends.
  function RetryPhase(s: Sim<World>, f: Phase, now: int): Phase
    requires f.Writing? || f.Reading?
  {
    Waiting(f, Stamped(RetrySend(s.world, now), now, s.lastId + 1))
  }

  lemma PostponeQueue(q: seq<Event>, i: nat, timer: Event, f: Phase, request: Event)
    requires i < |q| && multiset(q) == multiset{timer} + Others(f)
    requires (f.Writing? || f.Reading?) && q[i] == f.request
    ensures multiset(Without(q, i) + [request]) == multiset{timer} + Others(Waiting(f, request))
  {
    if f.Writing? {
      SwapFirst(q, i, timer, f.request, f.wake, [request]);
    } else {
      SwapOnly(q, i, timer, f.request, [request]);
    }
  }

  lemma PostponeKeepsWorld(c: Setup, w: World, f: Phase, request: Event)
    requires WorldOk(c, w, f) && (f.Writing? || f.Reading?)
    ensures WorldOk(c, w, Waiting(f, request))
  {
  }

  lemma PostponeTimes(c: Setup, now: int, w: World, cycle: nat, timer: Event, f: Phase, request: Event)
    requires LogsOk(c, w, f) && (f.Writing? || f.Reading?)
    requires ClockOk(now, w.mem, cycle, timer) && w.mem.refreshing && TimesOk(c, now, w, cycle, f)
    requires now <= f.request.time <= timer.time == request.time
    ensures LogsOk(c, w, Waiting(f, request)) && TimesOk(c, f.request.time, w, cycle, Waiting(f, request))
  {
  }

  lemma PostponeTick(c: Setup, s: Sim<World>, p: Situation, i: nat) returns (q: Situation)
    requires Inv(c, s, p) && IsTop(s.queue, i)
    requires (p.phase.Writing? || p.phase.Reading?) && s.queue[i] == p.phase.request
    requires s.world.mem.refreshing
    ensures Inv(c, Deliver(s, i), q)
    ensures q == Situation(p.cycle, p.timer, RetryPhase(s, p.phase, s.queue[i].time))
    ensures q.phase.request.time == p.timer.time
    ensures Deliver(s, i).world == s.world && Deliver(s, i).lastId == s.lastId + 1
  {
    var now := s.queue[i].time;
    var request := Stamped(RetrySend(s.world, now), now, s.lastId + 1);
    q := Situation(p.cycle, p.timer, Waiting(p.phase, request));
    TopOfSituation(s, p, i);
    PostponeQueue(s.queue, i, p.timer, p.phase, request);
    PostponeDelivery(s, i);
    PostponeKeepsWorld(c, s.world, p.phase, request);
    PostponeTimes(c, s.now, s.world, p.cycle, p.timer, p.phase, request);
  }

  // ----- a request being served -----

  // What the memory makes of the request on the bus.
  function ServedWorld(w: World, now: int): World {
    var a := w.bus.lines.address;
    var mem := w.mem.(status := w.bus.lines, lastRow := Row(a), firstAccess := false,
                      servedAt := w.mem.servedAt + [now]);
    if w.bus.lines.request.Read? then
      var status := w.bus.lines.(data := w.mem.dram[Cell(a)]);
      w.(bus := BusState(true, status), mem := mem.(status := status))
    else
      w.(bus := Release(w.bus), mem := mem.(dram := w.mem.dram[Cell(a) := w.bus.lines.data]))
  }

  function ResponseSend(w: World, now: int): Send {
    Send(NewMessage(now, MEM, CPU), AccessTime(w.mem, Row(w.bus.lines.address)))
  }

  lemma ServeDelivery(s: Sim<World>, i: nat)
    requires i < |s.queue| && Carries(s.queue[i], CPU, MEM)
    requires !s.world.mem.refreshing && s.world.bus.busy && !s.world.bus.lines.request.Undefined?
    ensures var now := s.queue[i].time;
      var t := Deliver(s, i);
      if s.world.bus.lines.request.Read? then
        t == Sim(now, s.lastId + 1, Without(s.queue, i) + [Stamped(ResponseSend(s.world, now), now, s.lastId + 1)],
                 ServedWorld(s.world, now), None)
      else
        t == Sim(now, s.lastId, Without(s.queue, i), ServedWorld(s.world, now), None)
  {
    SendJust(s.queue[i].time, s.lastId, ResponseSend(s.world, s.queue[i].time));
    SendNone(s.queue[i].time, s.lastId);
    assert Without(s.queue, i) + [] == Without(s.queue, i);
  }

  lemma AppliesOneMore(c: Setup, n: nat)
    requires 0 < n <= |c.requests|
    ensures ApplyAll(c.dram, c.requests[..n]) == Apply(ApplyAll(c.dram, c.requests[..n - 1]), c.requests[n - 1])
    ensures ReadsOf(c.dram, c.requests[..n]) == ReadsOf(c.dram, c.requests[..n - 1]) +
      if c.requests[n - 1].request.Read?
      then [ApplyAll(c.dram, c.requests[..n - 1])[Cell(c.requests[n - 1].address)]] else []
  {
    assert c.requests[..n][..n - 1] == c.requests[..n - 1];
  }

  lemma ServeKeepsLogs(c: Setup, w: World, f: Phase, g: Phase, now: int)
    requires WorldOk(c, w, f) && (f.Writing? || f.Reading?)
    requires MayBeServed(w.cpu.issuedAt[w.cpu.opCounter - 1], now)
    requires if f.Writing? then g.Idle? else g.Responding?
    ensures var t := ServedWorld(w, now);
      LogsOk(c, t, g) && BusOk(c, t, g) && HistoryOk(c, t.cpu.issuedAt, t.mem.servedAt)
  {
  }

  lemma ServeKeepsData(c: Setup, w: World, f: Phase, g: Phase, now: int)
    requires LogsOk(c, w, f) && DataOk(c, w, f) && BusOk(c, w, f) && (f.Writing? || f.Reading?)
    requires if f.Writing? then g.Idle? else g.Responding?
    requires LogsOk(c, ServedWorld(w, now), g)
    ensures DataOk(c, ServedWorld(w, now), g)
  {
    var n := w.cpu.opCounter;
    AppliesOneMore(c, n);
    assert Performed(ServedWorld(w, now), g) == n && Performed(w, f) == n - 1;
    assert c.requests[..n] != [] && c.requests[..n][n - 1] == c.requests[n - 1];
  }

  // The access takes the time its place in the row-buffer history says.
  lemma ServeTakesLatency(c: Setup, w: World, f: Phase)
    requires LogsOk(c, w, f) && DataOk(c, w, f) && BusOk(c, w, f) && (f.Writing? || f.Reading?)
    ensures AccessTime(w.mem, Row(w.bus.lines.address)) == Latency(c.mode, c.requests, w.cpu.opCounter - 1)
  {
  }

  lemma ServedOnTime(now: int, mem: MemState, cycle: nat, timer: Event, t: int, due: int)
    requires ClockOk(now, mem, cycle, timer) && WaitOk(now, mem, cycle, t, due)
    requires now <= due <= timer.time && !mem.refreshing
    ensures MayBeServed(t, due)
  {
  }

  lemma ServeQueue(s: Sim<World>, p: Situation, i: nat, response: Event)
    requires QueueOk(s, p) && IsTop(s.queue, i)
    requires (p.phase.Writing? || p.phase.Reading?) && s.queue[i] == p.phase.request
    ensures p.phase.Writing? ==> multiset(Without(s.queue, i)) == multiset{p.timer} + multiset{p.phase.wake}
    ensures p.phase.Reading? ==> multiset(Without(s.queue, i) + [response]) == multiset{p.timer} + multiset{response}
    ensures s.now <= s.queue[i].time <= p.timer.time
    ensures p.phase.Writing? ==> s.queue[i].time <= p.phase.wake.time
  {
    TopOfSituation(s, p, i);
    if p.phase.Writing? {
      SwapFirst(s.queue, i, p.timer, p.phase.request, p.phase.wake, []);
      assert Without(s.queue, i) + [] == Without(s.queue, i);
    } else {
      SwapOnly(s.queue, i, p.timer, p.phase.request, [response]);
    }
  }

  lemma LatencyIsPositive(mode: Mode, ops: seq<Access>, k: nat)
    requires k < |ops|
    ensures CL <= Latency(mode, ops, k) <= CL + RCD + RP
  {
  }

  lemma ServeWriteTick(c: Setup, s: Sim<World>, p: Situation, i: nat)
    requires Inv(c, s, p) && IsTop(s.queue, i) && !s.world.mem.refreshing
    requires p.phase.Writing? && s.queue[i] == p.phase.request
    ensures Inv(c, Deliver(s, i), Situation(p.cycle, p.timer, Idle(p.phase.wake)))
    ensures Deliver(s, i).world == ServedWorld(s.world, s.queue[i].time)
    ensures Deliver(s, i).lastId == s.lastId
  {
    var now := s.queue[i].time;
    var q := Situation(p.cycle, p.timer, Idle(p.phase.wake));
    ServeDelivery(s, i);
    ServeQueue(s, p, i, p.timer);
    ServedOnTime(s.now, s.world.mem, p.cycle, p.timer, s.world.cpu.issuedAt[s.world.cpu.opCounter - 1], now);
    ServeKeepsLogs(c, s.world, p.phase, q.phase, now);
    ServeKeepsData(c, s.world, p.phase, q.phase, now);
  }

  lemma ServeReadTick(c: Setup, s: Sim<World>, p: Situation, i: nat) returns (q: Situation)
    requires Inv(c, s, p) && IsTop(s.queue, i) && !s.world.mem.refreshing
    requires p.phase.Reading? && s.queue[i] == p.phase.request
    ensures Inv(c, Deliver(s, i), q)
    ensures Deliver(s, i).world == ServedWorld(s.world, s.queue[i].time)
    ensures q.cycle == p.cycle && q.timer == p.timer && q.phase.Responding?
    ensures q.phase.response.time == s.queue[i].time + Latency(c.mode, c.requests, s.world.cpu.opCounter - 1)
    ensures q.phase.response.m.id == s.lastId + 1 == Deliver(s, i).lastId
  {
    var now := s.queue[i].time;
    var response := Stamped(ResponseSend(s.world, now), now, s.lastId + 1);
    q := Situation(p.cycle, p.timer, Responding(response));
    ServeDelivery(s, i);
    ServeQueue(s, p, i, response);
    ServedOnTime(s.now, s.world.mem, p.cycle, p.timer, s.world.cpu.issuedAt[s.world.cpu.opCounter - 1], now);
    ServeKeepsLogs(c, s.world, p.phase, q.phase, now);
    ServeKeepsData(c, s.world, p.phase, q.phase, now);
    ServeTakesLatency(c, s.world, p.phase);
    LatencyIsPositive(c.mode, c.requests, s.world.cpu.opCounter - 1);
  }

  // ----- the processor putting a request on the bus -----

  // All requests so far are performed and the bus is free.
  ghost predicate SettledOk(c: Setup, w: World, f: Phase) {
    && f.Idle? && !w.bus.busy && LogsOk(c, w, f) && DataOk(c, w, f)
    && HistoryOk(c, w.cpu.issuedAt, w.mem.servedAt)
  }

  function IssuedWorld(w: World, now: int): World
    requires w.cpu.opCounter < |w.cpu.requests|
  {
    var a := w.cpu.requests[w.cpu.opCounter];
    var status := BusStatus(a.request, a.address, TEST_DATA);
    w.(bus := BusState(true, status),
       cpu := w.cpu.(status := status, opCounter := w.cpu.opCounter + 1, issuedAt := w.cpu.issuedAt + [now]))
  }

  function RequestSend(now: int): Send { Send(NewMessage(now, CPU, MEM), 1) }

  function WakeSend(now: int): Send { Send(NewMessage(now, CPU, CPU), 1) }

  // The situation after a request is issued at time `now`.
  function IssuedPhase(a: Access, now: int, lastId: nat): Phase {
    var request := Stamped(RequestSend(now), now, lastId + 1);
    if a.request.Write? then Writing(request, Stamped(WakeSend(now), now, lastId + 2)) else Reading(request)
  }

  lemma IssueDelivery(s: Sim<World>, i: nat, w: World)
    requires i < |s.queue| && s.queue[i].m.valid && s.queue[i].m.dest == CPU
    requires w == Receive(s.world, s.queue[i].m) && !w.bus.busy && w.cpu.opCounter < |w.cpu.requests|
    ensures var now := s.queue[i].time;
      var f := IssuedPhase(w.cpu.requests[w.cpu.opCounter], now, s.lastId);
      var t := Deliver(s, i);
      && t.now == now && t.world == IssuedWorld(w, now) && t.exit.None?
      && if f.Writing? then
           t.lastId == s.lastId + 2 && t.queue == Without(s.queue, i) + [f.request, f.wake]
         else
           t.lastId == s.lastId + 1 && t.queue == Without(s.queue, i) + [f.request]
  {
    SendJust(s.queue[i].time, s.lastId, RequestSend(s.queue[i].time));
    SendBoth(s.queue[i].time, s.lastId, RequestSend(s.queue[i].time), WakeSend(s.queue[i].time));
  }

  lemma IssueKeepsWorld(c: Setup, w: World, f: Phase, g: Phase, now: int)
    requires SettledOk(c, w, f) && w.cpu.opCounter < |c.requests|
    requires if w.cpu.opCounter == 0 then now == 0
      else MayFollow(c, w.cpu.opCounter - 1, w.mem.servedAt[w.cpu.opCounter - 1], now)
    requires if c.requests[w.cpu.opCounter].request.Write? then g.Writing? else g.Reading?
    ensures WorldOk(c, IssuedWorld(w, now), g)
  {
  }

  // The event taken was the only one besides the timer.
  lemma IssueKeepsQueue(s: Sim<World>, p: Situation, i: nat, w: World)
    requires QueueOk(s, p) && IsTop(s.queue, i)
    requires s.queue[i].m.valid && s.queue[i].m.dest == CPU && Others(p.phase) == multiset{s.queue[i]}
    requires w == Receive(s.world, s.queue[i].m) && !w.bus.busy && w.cpu.opCounter < |w.cpu.requests|
    ensures QueueOk(Deliver(s, i), Situation(p.cycle, p.timer,
        IssuedPhase(w.cpu.requests[w.cpu.opCounter], s.queue[i].time, s.lastId)))
  {
    TopOfSituation(s, p, i);
    IssueDelivery(s, i, w);
    var now := s.queue[i].time;
    var request, wake := Stamped(RequestSend(now), now, s.lastId + 1), Stamped(WakeSend(now), now, s.lastId + 2);
    SwapOnly(s.queue, i, p.timer, s.queue[i], [request]);
    SwapOnly(s.queue, i, p.timer, s.queue[i], [request, wake]);
    assert multiset([request, wake]) == multiset{request} + multiset{wake};
  }

  // The state right after a request is issued.
  lemma IssueAssembles(c: Setup, t: Sim<World>, q: Situation, w: World, f: Phase, before: int, lastId: nat)
    requires SettledOk(c, w, f) && w.cpu.opCounter < |c.requests|
    requires if w.cpu.opCounter == 0 then t.now == 0
      else MayFollow(c, w.cpu.opCounter - 1, w.mem.servedAt[w.cpu.opCounter - 1], t.now)
    requires before <= t.now <= q.timer.time
    requires ClockOk(before, w.mem, q.cycle, q.timer) && QuietOk(before, w.mem)
    requires t.world == IssuedWorld(w, t.now) && QueueOk(t, q)
    requires q.phase == IssuedPhase(c.requests[w.cpu.opCounter], t.now, lastId)
    ensures Inv(c, t, q)
  {
    IssueKeepsWorld(c, w, f, q.phase, t.now);
  }

  lemma IssueFromSettled(c: Setup, s: Sim<World>, p: Situation, i: nat, w: World, f: Phase) returns (q: Situation)
    requires QueueOk(s, p) && ClockOk(s.now, s.world.mem, p.cycle, p.timer) && QuietOk(s.now, s.world.mem)
    requires IsTop(s.queue, i) && w == Receive(s.world, s.queue[i].m)
    requires s.queue[i].m.valid && s.queue[i].m.dest == CPU && Others(p.phase) == multiset{s.queue[i]}
    requires SettledOk(c, w, f) && w.cpu.opCounter < |c.requests|
    requires if w.cpu.opCounter == 0 then s.queue[i].time == 0
      else MayFollow(c, w.cpu.opCounter - 1, w.mem.servedAt[w.cpu.opCounter - 1], s.queue[i].time)
    ensures Inv(c, Deliver(s, i), q)
    ensures q.cycle == p.cycle && q.timer == p.timer
    ensures q.phase == IssuedPhase(c.requests[w.cpu.opCounter], s.queue[i].time, s.lastId)
    ensures Deliver(s, i).world == IssuedWorld(w, s.queue[i].time)
  {
    q := Situation(p.cycle, p.timer, IssuedPhase(c.requests[w.cpu.opCounter], s.queue[i].time, s.lastId));
    TopOfSituation(s, p, i);
    IssueDelivery(s, i, w);
    IssueKeepsQueue(s, p, i, w);
    IssueAssembles(c, Deliver(s, i), q, w, f, s.now, s.lastId);
  }

  predicate OneMoreIssued(w: World, w': World, now: int) {
    && w'.cpu.opCounter == w.cpu.opCounter + 1
    && w'.cpu.issuedAt == w.cpu.issuedAt + [now]
    && w'.mem == w.mem
  }

  // Woken with nothing pending.
  lemma IdleWakeTick(c: Setup, s: Sim<World>, p: Situation, i: nat) returns (q: Situation)
    requires Inv(c, s, p) && IsTop(s.queue, i)
    requires p.phase.Idle? && s.queue[i] == p.phase.wake && s.world.cpu.opCounter < |c.requests|
    ensures Inv(c, Deliver(s, i), q)
    ensures q.cycle == p.cycle && q.timer == p.timer
    ensures q.phase == IssuedPhase(c.requests[s.world.cpu.opCounter], s.queue[i].time, s.lastId)
    ensures Deliver(s, i).world == IssuedWorld(s.world, s.queue[i].time)
    ensures OneMoreIssued(s.world, Deliver(s, i).world, s.queue[i].time)
  {
    q := IssueFromSettled(c, s, p, i, s.world, p.phase);
  }

  lemma ReceiveSettles(c: Setup, w: World, f: Phase, m: Message)
    requires WorldOk(c, w, f) && f.Responding? && m.source == MEM
    ensures SettledOk(c, Receive(w, m), Idle(f.response))
  {
  }

  // A response arriving while there are requests left.
  lemma ResponseTick(c: Setup, s: Sim<World>, p: Situation, i: nat) returns (q: Situation)
    requires Inv(c, s, p) && IsTop(s.queue, i)
    requires p.phase.Responding? && s.queue[i] == p.phase.response && s.world.cpu.opCounter < |c.requests|
    ensures Inv(c, Deliver(s, i), q)
    ensures q.cycle == p.cycle && q.timer == p.timer
    ensures q.phase == IssuedPhase(c.requests[s.world.cpu.opCounter], s.queue[i].time, s.lastId)
    ensures Deliver(s, i).world == IssuedWorld(Receive(s.world, s.queue[i].m), s.queue[i].time)
    ensures OneMoreIssued(s.world, Deliver(s, i).world, s.queue[i].time)
  {
    ReceiveSettles(c, s.world, p.phase, s.queue[i].m);
    q := IssueFromSettled(c, s, p, i, Receive(s.world, s.queue[i].m), Idle(p.phase.response));
  }

  // ----- the processor polling while its write is pending -----

  function PolledWorld(w: World): World
    requires w.cpu.opCounter < |w.cpu.requests|
  {
    var a := w.cpu.requests[w.cpu.opCounter];
    w.(cpu := w.cpu.(status := BusStatus(a.request, a.address, TEST_DATA)))
  }

  lemma PollTick(c: Setup, s: Sim<World>, p: Situation, i: nat) returns (q: Situation)
    requires Inv(c, s, p) && IsTop(s.queue, i)
    requires p.phase.Writing? && s.queue[i] == p.phase.wake && s.world.cpu.opCounter < |c.requests|
    ensures Inv(c, Deliver(s, i), q)
    ensures var wake := Stamped(WakeSend(s.queue[i].time), s.queue[i].time, s.lastId + 1);
      q == Situation(p.cycle, p.timer, p.phase.(wake := wake))
    ensures Deliver(s, i).world == PolledWorld(s.world)
  {
    TopOfSituation(s, p, i);
    var now := s.queue[i].time;
    SendJust(now, s.lastId, WakeSend(now));
    q := Situation(p.cycle, p.timer, p.phase.(wake := Stamped(WakeSend(now), now, s.lastId + 1)));
    assert Deliver(s, i) == Sim(now, s.lastId + 1, Without(s.queue, i) + [q.phase.wake], PolledWorld(s.world), None);
    SwapSecond(s.queue, i, p.timer, p.phase.request, p.phase.wake, q.phase.wake);
    assert Performed(PolledWorld(s.world), q.phase) == Performed(s.world, p.phase);
  }
}
