// How long a run can be.
//
// Every tick at time T creates only events later than T, except one kind: a
// request that reaches the memory at the very moment a refresh is due to end,
// but is taken before the event ending it, is put off by zero time units.
// Apart from such retries every run is short; in insertion order there are
// none, so the run ends.
module Termination {
  import opened SequentialMemory
  import opened Scheduler
  import opened Devices
  import opened Protocol
  import opened Runs
  import opened InsertionOrderRuns

  predicate ZeroDelayRetry(s: Sim<World>, e: Event) {
    Carries(e, CPU, MEM) && s.world.mem.refreshing && s.world.mem.startedAt + REFRESHING_TIME == e.time
  }

  function One(b: bool): nat { if b then 1 else 0 }

  // Pending events due at time `now`.
  function CountDue(p: Situation, now: int): nat {
    One(p.timer.time == now) +
    match p.phase
    case Idle(wake) => One(wake.time == now)
    case Writing(request, wake) => One(request.time == now) + One(wake.time == now)
    case Reading(request) => One(request.time == now)
    case Responding(response) => One(response.time == now)
  }

  // Ticks that may still happen: at most three per remaining time unit.
  function Budget(c: Setup, now: int, p: Situation): int {
    3 * (60 * |c.requests| - now) + CountDue(p, now)
  }

  lemma BudgetShrinks(c: Setup, now: int, p: Situation, later: int, q: Situation, retry: bool)
    requires now <= later
    requires CountDue(q, later) + 1 == CountDue(p, later) + One(retry)
    ensures Budget(c, later, q) + 1 <= Budget(c, now, p) + One(retry)
  {
  }

  lemma IssueCountDue(p: Situation, q: Situation, a: Access, e: Event, lastId: nat)
    requires q.timer == p.timer && q.phase == IssuedPhase(a, e.time, lastId)
    requires p.phase == Idle(e) || p.phase == Responding(e)
    ensures CountDue(q, e.time) + 1 == CountDue(p, e.time)
  {
  }

  // One tick from a situation, with its cost.
  ghost predicate Costs(c: Setup, s: Sim<World>, p: Situation, i: nat, q: Situation)
    requires i < |s.queue|
  {
    var e := s.queue[i];
    Inv(c, Deliver(s, i), q) && CountDue(q, e.time) + 1 == CountDue(p, e.time) + One(ZeroDelayRetry(s, e))
  }

  lemma CostOfMemoryStep(c: Setup, s: Sim<World>, p: Situation, i: nat) returns (q: Situation)
    requires Inv(c, s, p) && IsTop(s.queue, i)
    requires (p.phase.Writing? || p.phase.Reading?) && s.queue[i] == p.phase.request
    ensures Costs(c, s, p, i, q)
  {
    if s.world.mem.refreshing {
      TopOfSituation(s, p, i);
      q := PostponeTick(c, s, p, i);
    } else if p.phase.Writing? {
      ServeWriteTick(c, s, p, i);
      q := Situation(p.cycle, p.timer, Idle(p.phase.wake));
    } else {
      q := ServeReadTick(c, s, p, i);
      LatencyIsPositive(c.mode, c.requests, s.world.cpu.opCounter - 1);
    }
  }

  lemma CostOfProcessorStep(c: Setup, s: Sim<World>, p: Situation, i: nat) returns (q: Situation)
    requires Inv(c, s, p) && IsTop(s.queue, i) && s.world.cpu.opCounter < |c.requests|
    requires if p.phase.Responding? then s.queue[i] == p.phase.response
      else (p.phase.Idle? || p.phase.Writing?) && s.queue[i] == p.phase.wake
    ensures Costs(c, s, p, i, q)
  {
    if p.phase.Writing? {
      q := PollTick(c, s, p, i);
    } else {
      if p.phase.Idle? {
        q := IdleWakeTick(c, s, p, i);
      } else {
        q := ResponseTick(c, s, p, i);
      }
      IssueCountDue(p, q, c.requests[s.world.cpu.opCounter], s.queue[i], s.lastId);
    }
  }

  lemma CostOfStep(c: Setup, s: Sim<World>, p: Situation, i: nat) returns (q: Situation)
    requires Inv(c, s, p) && IsTop(s.queue, i) && Deliver(s, i).exit.None?
    ensures Costs(c, s, p, i, q)
  {
    EventOfSituation(s, p, i);
    if s.queue[i] == p.timer {
      q := TimerTick(c, s, p, i);
    } else if s.queue[i].m.dest == MEM {
      q := CostOfMemoryStep(c, s, p, i);
    } else if s.world.cpu.opCounter < |c.requests| {
      q := CostOfProcessorStep(c, s, p, i);
    } else {
      ExitTick(c, s, p, i);
      assert false;
    }
  }

  lemma NextTimeBound(c: Setup, hs: seq<Handler<World>>, s: Sim<World>, p: Situation, i: nat)
    requires Assembled(hs) && Inv(c, s, p) && IsTop(s.queue, i)
    ensures s.queue[i].time <= 60 * |c.requests|
  {
    var q := Step(c, hs, s, p, i);
    if Deliver(s, i).exit.None? {
      PendingBound(c, Deliver(s, i), q);
    }
  }

  // There is budget left as long as the process runs.
  lemma BudgetIsPositive(c: Setup, hs: seq<Handler<World>>, s: Sim<World>, p: Situation, i: nat)
    requires Assembled(hs) && Inv(c, s, p) && IsTop(s.queue, i)
    ensures Budget(c, s.now, p) >= 1
  {
    NextTimeBound(c, hs, s, p, i);
    TopOfSituation(s, p, i);
    EventOfSituation(s, p, i);
    assert s.queue[i].time == s.now ==> CountDue(p, s.now) >= 1;
  }

  // ----- any order -----

  ghost function ZeroDelayRetries(hs: seq<Handler<World>>, s: Sim<World>, choices: seq<nat>): nat
    requires Legal(hs, s, choices)
    decreases |choices|
  {
    if choices == [] then 0
    else One(ZeroDelayRetry(s, s.queue[choices[0]])) + ZeroDelayRetries(hs, Tick(hs, s, choices[0]), choices[1..])
  }

  lemma {:induction false} RunLength(c: Setup, hs: seq<Handler<World>>, s: Sim<World>, p: Situation, choices: seq<nat>)
    requires Assembled(hs) && Inv(c, s, p) && Legal(hs, s, choices)
    ensures |choices| <= Budget(c, s.now, p) + ZeroDelayRetries(hs, s, choices)
    decreases |choices|
  {
    PendingBound(c, s, p);
    if choices != [] {
      var i := choices[0];
      EventOfSituation(s, p, i);
      TickIsDelivery(hs, s, i);
      BudgetIsPositive(c, hs, s, p, i);
      if Deliver(s, i).exit.None? {
        TopOfSituation(s, p, i);
        var q := CostOfStep(c, s, p, i);
        BudgetShrinks(c, s.now, p, s.queue[i].time, q, ZeroDelayRetry(s, s.queue[i]));
        RunLength(c, hs, Tick(hs, s, i), q, choices[1..]);
      }
    }
  }

  // A run over n requests has at most 180n + 1 ticks besides its
  // zero-delay retries, in whatever order simultaneous events are taken.
  lemma RunsAreShortButForRetries(c: Setup, hs: seq<Handler<World>>, s: Sim<World>, choices: seq<nat>)
    requires Assembled(hs) && Initial(c, s) && Legal(hs, s, choices)
    ensures |choices| <= 180 * |c.requests| + 1 + ZeroDelayRetries(hs, s, choices)
  {
    InitialIsGood(c, s);
    RunLength(c, hs, s, InitialSituation(), choices);
  }

  // ----- insertion order -----

  // A run that always takes the oldest of the earliest events.
  ghost predicate InInsertionOrder(hs: seq<Handler<World>>, s: Sim<World>, choices: seq<nat>)
    requires Legal(hs, s, choices)
    decreases |choices|
  {
    choices != [] ==>
      IsOldestTop(s.queue, choices[0]) && InInsertionOrder(hs, Tick(hs, s, choices[0]), choices[1..])
  }

  lemma ExactStep(c: Setup, hs: seq<Handler<World>>, s: Sim<World>, p: Situation, i: nat) returns (q: Situation)
    requires Assembled(hs) && Exact(c, s, p) && IsOldestTop(s.queue, i)
    ensures Tick(hs, s, i) == Deliver(s, i)
    ensures Deliver(s, i).exit.None? ==> Exact(c, Deliver(s, i), q)
    ensures Deliver(s, i).exit.Some? ==> FinishedExactly(c, Deliver(s, i))
    ensures !ZeroDelayRetry(s, s.queue[i])
    ensures q.cycle == p.cycle || (s.queue[i] == p.timer && s.world.mem.refreshing)
  {
    EventOfSituation(s, p, i);
    TickIsDelivery(hs, s, i);
    q := p;
    var e := s.queue[i];
    if e == p.timer {
      q := ExactTimerTick(c, s, p, i);
    } else if e.m.dest == MEM {
      if s.world.mem.refreshing {
        q := ExactPostponeTick(c, s, p, i);
      } else if p.phase.Writing? {
        ExactServeWriteTick(c, s, p, i);
        q := Situation(p.cycle, p.timer, Idle(p.phase.wake));
      } else {
        q := ExactServeReadTick(c, s, p, i);
      }
    } else if s.world.cpu.opCounter >= |c.requests| {
      ExactExitTick(c, s, p, i);
    } else if p.phase.Idle? {
      q := ExactIdleWakeTick(c, s, p, i);
    } else if p.phase.Writing? {
      q := ExactPollTick(c, s, p, i);
    } else {
      q := ExactResponseTick(c, s, p, i);
    }
  }

  lemma {:induction false} RunsStayExact(
    c: Setup, hs: seq<Handler<World>>, s: Sim<World>, p: Situation, choices: seq<nat>)
    returns (q: Situation)
    requires Assembled(hs) && Exact(c, s, p) && Legal(hs, s, choices) && InInsertionOrder(hs, s, choices)
    ensures After(hs, s, choices).exit.None? ==> Exact(c, After(hs, s, choices), q)
    ensures After(hs, s, choices).exit.Some? ==> FinishedExactly(c, After(hs, s, choices))
    ensures ZeroDelayRetries(hs, s, choices) == 0
    decreases |choices|
  {
    q := p;
    if choices != [] {
      q := ExactStep(c, hs, s, p, choices[0]);
      var t := Tick(hs, s, choices[0]);
      if t.exit.None? {
        q := RunsStayExact(c, hs, t, q, choices[1..]);
      }
    }
  }

  lemma InitialIsExact(c: Setup, s: Sim<World>) returns (p: Situation)
    requires Initial(c, s)
    ensures Exact(c, s, p) && p.cycle == 0
  {
    InitialIsGood(c, s);
    p := InitialSituation();
  }

  lemma OldestExists(q: seq<Event>) returns (i: nat)
    requires q != []
    ensures IsOldestTop(q, i)
  {
    i := 0;
    var k := 1;
    while k < |q|
      invariant i < k <= |q|
      invariant IsOldestTop(q[..k], i)
    {
      if q[k].time < q[i].time {
        i := k;
      }
      k := k + 1;
    }
    assert q[..k] == q;
  }

  // Whatever such a run has reached, it is within the length bound, it has
  // not stopped short of the exit, and at the exit everything is as foreseen.
  lemma InsertionOrderRun(c: Setup, hs: seq<Handler<World>>, s: Sim<World>, choices: seq<nat>)
    requires Assembled(hs) && Initial(c, s) && Legal(hs, s, choices) && InInsertionOrder(hs, s, choices)
    ensures |choices| <= 180 * |c.requests| + 1
    ensures var t := After(hs, s, choices);
      if t.exit.None? then exists i :: IsOldestTop(t.queue, i) else FinishedExactly(c, t)
  {
    var p := InitialIsExact(c, s);
    RunsAreShortButForRetries(c, hs, s, choices);
    var q := RunsStayExact(c, hs, s, p, choices);
    var t := After(hs, s, choices);
    if t.exit.None? {
      InQueue(t, q);
      var i := OldestExists(t.queue);
    }
  }

  lemma {:induction false} LegalSnoc(hs: seq<Handler<World>>, s: Sim<World>, choices: seq<nat>, i: nat)
    requires Legal(hs, s, choices) && InInsertionOrder(hs, s, choices)
    requires After(hs, s, choices).exit.None? && IsOldestTop(After(hs, s, choices).queue, i)
    ensures Legal(hs, s, choices + [i]) && InInsertionOrder(hs, s, choices + [i])
    decreases |choices|
  {
    if choices == [] {
      assert [i][1..] == [];
      assert choices + [i] == [i];
    } else {
      LegalSnoc(hs, Tick(hs, s, choices[0]), choices[1..], i);
      assert (choices + [i])[1..] == choices[1..] + [i];
    }
  }

  // The event-driven simulation with ties in insertion order terminates, and
  // computes exactly what the recurrence says: the exit time, the issue and
  // service time of every request, all data read, and the final memory, from
  // which a last write is missing just when it arrives during a refresh.
  lemma SimulationMatchesRecurrence(c: Setup, hs: seq<Handler<World>>, s: Sim<World>) returns (choices: seq<nat>)
    requires Assembled(hs) && Initial(c, s)
    ensures Legal(hs, s, choices) && InInsertionOrder(hs, s, choices)
    ensures |choices| <= 180 * |c.requests| + 1
    ensures var t := After(hs, s, choices);
      var n := |c.requests|;
      && t.exit == Some(0)
      && t.now == FinishTime(c)
      && t.world.cpu.received == ReadsOf(c.dram, c.requests)
      && t.world.mem.dram == ApplyAll(c.dram, PerformedInOrder(c))
      && t.world.cpu.issuedAt == seq(n, k requires 0 <= k < n => IssueTime(c, k))
  {
    choices := [];
    InsertionOrderRun(c, hs, s, choices);
    while After(hs, s, choices).exit.None?
      invariant Legal(hs, s, choices) && InInsertionOrder(hs, s, choices)
      decreases 180 * |c.requests| + 1 - |choices|
    {
      InsertionOrderRun(c, hs, s, choices);
      var i :| IsOldestTop(After(hs, s, choices).queue, i);
      LegalSnoc(hs, s, choices, i);
      choices := choices + [i];
      InsertionOrderRun(c, hs, s, choices);
    }
    InsertionOrderRun(c, hs, s, choices);
    assert c.requests[..|c.requests|] == c.requests;
  }
}
