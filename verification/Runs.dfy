// What holds in every reachable state of the simulator, for every request
// list, every initial memory and every order of simultaneous events.
module Runs {
  import opened SequentialMemory
  import opened Scheduler
  import opened Devices
  import opened Protocol

  // ----- the end of a run -----

  // What the process has achieved when it exits: all data read back is right,
  // and the memory has performed every request except possibly a last write.
  ghost predicate Finished(c: Setup, s: Sim<World>) {
    var n, w := |c.requests|, s.world;
    && s.exit == Some(0)
    && w.cpu.opCounter == |w.cpu.issuedAt| == n
    && n - 1 <= |w.mem.servedAt| <= n
    && (|w.mem.servedAt| < n ==> n > 0 && c.requests[n - 1].request.Write?)
    && w.cpu.received == ReadsOf(c.dram, c.requests)
    && w.mem.dram == ApplyAll(c.dram, c.requests[..|w.mem.servedAt|])
    && HistoryOk(c, w.cpu.issuedAt, w.mem.servedAt)
    && s.now <= 60 * n
  }

  // A request takes at most 24 units of open time: 1 to arrive and at most 23
  // to be answered.
  lemma NextIssueBound(c: Setup, k: nat, t: nat, served: int, next: int)
    requires k < |c.requests| && MayBeServed(t, served) && MayFollow(c, k, served, next)
    ensures t + 1 <= next <= t + 1560
    ensures OpenTime(next) <= OpenTime(t) + 24
  {
    ServiceDelayBound(t, served);
    OpenTimeOfService(t, served);
    LatencyIsPositive(c.mode, c.requests, k);
    OpenTimeGrows(t, 1);
    OpenTimeGrows(served, next - served);
  }

  lemma {:induction false} IssueBound(c: Setup, issuedAt: seq<int>, servedAt: seq<int>, k: nat)
    requires |servedAt| <= |issuedAt| <= |servedAt| + 1 && |issuedAt| <= |c.requests|
    requires HistoryOk(c, issuedAt, servedAt) && k < |issuedAt|
    ensures k <= issuedAt[k] <= 60 * k && OpenTime(issuedAt[k]) <= 24 * k
    ensures k > 0 ==> issuedAt[k - 1] < issuedAt[k] <= issuedAt[k - 1] + 1560
    decreases k
  {
    if k > 0 {
      IssueBound(c, issuedAt, servedAt, k - 1);
      NextIssueBound(c, k - 1, issuedAt[k - 1], servedAt[k - 1], issuedAt[k]);
      OpenTimeGrows(issuedAt[k], 0);
    }
  }

  // A pending event is due within the open time of one more request.
  lemma DueBound(t: nat, n: nat, arrived: nat, due: int)
    requires OpenTime(t) <= 24 * n && OpenTime(arrived) == OpenTime(t + 1) && arrived <= due <= arrived + 23
    ensures due <= 60 * (n + 1)
  {
    OpenTimeGrows(t, 1);
    OpenTimeGrows(arrived, due - arrived);
    OpenTimeGrows(due, 0);
  }

  lemma ArrivalBound(now: int, mem: MemState, cycle: nat, t: nat, due: int)
    requires WaitOk(now, mem, cycle, t, due)
    ensures due >= 0 && OpenTime(due) == OpenTime(t + 1)
  {
    if due != t + 1 {
      OpenTimeOfRefresh(t + 1, if mem.refreshing then cycle else cycle - 1);
    }
  }

  // Every pending event, and hence the clock, stays within 60 time units per
  // request: 24 of open time, and the refreshes these fall into.
  lemma PendingBound(c: Setup, s: Sim<World>, p: Situation)
    requires Inv(c, s, p)
    ensures s.now <= 60 * s.world.cpu.opCounter
    ensures p.phase.Idle? ==> p.phase.wake.time <= 60 * s.world.cpu.opCounter
    ensures p.phase.Writing? ==> p.phase.wake.time <= 60 * s.world.cpu.opCounter
    ensures p.phase.Responding? ==> p.phase.response.time <= 60 * s.world.cpu.opCounter
  {
    var w := s.world;
    var n := w.cpu.opCounter;
    if n > 0 {
      var t := w.cpu.issuedAt[n - 1];
      IssueBound(c, w.cpu.issuedAt, w.mem.servedAt, n - 1);
      if |w.mem.servedAt| == n {
        OpenTimeOfService(t, w.mem.servedAt[n - 1]);
        LatencyIsPositive(c.mode, c.requests, n - 1);
        var due := if p.phase.Idle? then p.phase.wake.time else p.phase.response.time;
        DueBound(t, n - 1, w.mem.servedAt[n - 1], due);
      } else {
        ArrivalBound(s.now, w.mem, p.cycle, t, p.phase.request.time);
        DueBound(t, n - 1, p.phase.request.time, p.phase.request.time + 1);
      }
    }
  }

  lemma ReadsIgnoreLastWrite(c: Setup)
    requires |c.requests| > 0 && c.requests[|c.requests| - 1].request.Write?
    ensures ReadsOf(c.dram, c.requests) == ReadsOf(c.dram, c.requests[..|c.requests| - 1])
  {
  }

  lemma ExitDelivery(s: Sim<World>, i: nat)
    requires i < |s.queue| && s.queue[i].m.dest == CPU
    requires s.world.cpu.opCounter >= |s.world.cpu.requests|
    ensures Deliver(s, i) == Sim(s.queue[i].time, s.lastId, s.queue, Receive(s.world, s.queue[i].m), Some(0))
  {
  }

  lemma AllRead(c: Setup, w: World, f: Phase, m: Message)
    requires WorldOk(c, w, f) && w.cpu.opCounter == |c.requests| && !f.Reading?
    requires m.source == if f.Responding? then MEM else CPU
    ensures Receive(w, m).cpu.received == ReadsOf(c.dram, c.requests)
  {
    assert c.requests[..|c.requests|] == c.requests;
    if f.Writing? {
      ReadsIgnoreLastWrite(c);
    }
  }

  // The processor notified with no request left ends the process.
  lemma ExitTick(c: Setup, s: Sim<World>, p: Situation, i: nat)
    requires Inv(c, s, p) && IsTop(s.queue, i)
    requires s.queue[i].m.dest == CPU && s.queue[i].m.valid && s.world.cpu.opCounter >= |c.requests|
    requires p.phase.Idle? || p.phase.Writing? ==> s.queue[i] == p.phase.wake
    requires p.phase.Responding? ==> s.queue[i] == p.phase.response
    requires !p.phase.Reading?
    ensures Finished(c, Deliver(s, i))
    ensures Deliver(s, i).now == s.queue[i].time
    ensures Deliver(s, i).world.mem == s.world.mem && Deliver(s, i).world.cpu.issuedAt == s.world.cpu.issuedAt
  {
    PendingBound(c, s, p);
    ExitDelivery(s, i);
    AllRead(c, s.world, p.phase, s.queue[i].m);
  }

  // ----- one tick, whichever event is taken -----

  lemma EventOfSituation(s: Sim<World>, p: Situation, i: nat)
    requires QueueOk(s, p) && IsTop(s.queue, i)
    ensures s.queue[i].m.valid && s.queue[i].m.dest in {CPU, MEM}
    ensures s.queue[i] == p.timer
      || (p.phase.Idle? && s.queue[i] == p.phase.wake)
      || (p.phase.Writing? && s.queue[i] in {p.phase.request, p.phase.wake})
      || (p.phase.Reading? && s.queue[i] == p.phase.request)
      || (p.phase.Responding? && s.queue[i] == p.phase.response)
  {
    TopOfSituation(s, p, i);
  }

  lemma Step(c: Setup, hs: seq<Handler<World>>, s: Sim<World>, p: Situation, i: nat) returns (q: Situation)
    requires Assembled(hs) && Inv(c, s, p) && IsTop(s.queue, i)
    ensures Tick(hs, s, i) == Deliver(s, i)
    ensures Deliver(s, i).exit.None? ==> Inv(c, Deliver(s, i), q)
    ensures Deliver(s, i).exit.Some? ==> Finished(c, Deliver(s, i))
  {
    EventOfSituation(s, p, i);
    TickIsDelivery(hs, s, i);
    q := p;
    var e := s.queue[i];
    if e == p.timer {
      q := TimerTick(c, s, p, i);
    } else if e.m.dest == MEM {
      if s.world.mem.refreshing {
        q := PostponeTick(c, s, p, i);
      } else if p.phase.Writing? {
        ServeWriteTick(c, s, p, i);
        q := Situation(p.cycle, p.timer, Idle(p.phase.wake));
      } else {
        q := ServeReadTick(c, s, p, i);
      }
    } else if s.world.cpu.opCounter >= |c.requests| {
      ExitTick(c, s, p, i);
    } else if p.phase.Idle? {
      q := IdleWakeTick(c, s, p, i);
    } else if p.phase.Writing? {
      q := PollTick(c, s, p, i);
    } else {
      q := ResponseTick(c, s, p, i);
    }
  }

  // ----- runs -----

  ghost predicate Good(c: Setup, s: Sim<World>) {
    if s.exit.None? then exists p :: Inv(c, s, p) else Finished(c, s)
  }

  lemma {:induction false} RunsStayGood(c: Setup, hs: seq<Handler<World>>, s: Sim<World>, choices: seq<nat>)
    requires Assembled(hs) && Good(c, s) && Legal(hs, s, choices)
    ensures Good(c, After(hs, s, choices))
    decreases |choices|
  {
    if choices != [] {
      var p :| Inv(c, s, p);
      var q := Step(c, hs, s, p, choices[0]);
      RunsStayGood(c, hs, Tick(hs, s, choices[0]), choices[1..]);
    }
  }

  function InitialSituation(): Situation {
    var timer := Event(REFRESHING_INTERVAL, Message(2, true, 0, MEM, MEM));
    Situation(0, timer, Idle(Event(0, Message(1, true, 0, CPU, CPU))))
  }

  lemma InitialQueue(c: Setup, s: Sim<World>)
    requires Initial(c, s)
    ensures QueueOk(s, InitialSituation())
  {
  }

  lemma InitialWorld(c: Setup, w: World)
    requires exists s :: Initial(c, s) && s.world == w
    ensures WorldOk(c, w, InitialSituation().phase)
  {
    assert Performed(w, InitialSituation().phase) == 0;
    assert c.requests[..0] == [];
  }

  lemma InitialIsGood(c: Setup, s: Sim<World>)
    requires Initial(c, s)
    ensures Inv(c, s, InitialSituation())
    ensures Good(c, s)
  {
    InitialQueue(c, s);
    InitialWorld(c, s.world);
    var p := InitialSituation();
    assert Inv(c, s, p);
  }

  // A state some run of the assembled simulator passes through.
  ghost predicate Reachable(c: Setup, s: Sim<World>) {
    exists hs: seq<Handler<World>>, s0: Sim<World>, choices: seq<nat> ::
      Assembled(hs) && Initial(c, s0) && Legal(hs, s0, choices) && After(hs, s0, choices) == s
  }

  lemma ReachableIsGood(c: Setup, s: Sim<World>)
    requires Reachable(c, s)
    ensures Good(c, s)
  {
    var hs: seq<Handler<World>>, s0: Sim<World>, choices: seq<nat> :|
      Assembled(hs) && Initial(c, s0) && Legal(hs, s0, choices) && After(hs, s0, choices) == s;
    InitialIsGood(c, s0);
    RunsStayGood(c, hs, s0, choices);
  }
}
