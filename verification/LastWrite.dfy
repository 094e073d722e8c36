// The write that may be missing: the processor exits without waiting for its
// last write to be performed.
module LastWrite {
  import opened MainBus
  import opened SequentialMemory
  import opened Scheduler
  import opened Devices
  import opened Protocol
  import opened Runs
  import opened InsertionOrderRuns
  import opened Termination
  import opened TieBreaks

  // ----- ties in insertion order: some last writes are lost -----

  // Writes alone are issued one per time unit until a refresh catches one.
  lemma {:induction false} WritesFollowEachOther(c: Setup, k: nat)
    requires k <= |c.requests| && k < REFRESHING_INTERVAL
    requires forall j :: 0 <= j < k ==> c.requests[j].request.Write?
    ensures IssueTime(c, k) == k
    decreases k
  {
    if k > 0 {
      WritesFollowEachOther(c, k - 1);
      ServiceTimeFacts(k - 1);
    }
  }

  lemma LastOf1024WritesIsLost(c: Setup)
    requires |c.requests| == 1024 && forall j :: 0 <= j < 1024 ==> c.requests[j].request.Write?
    ensures LastWriteLost(c)
  {
    WritesFollowEachOther(c, 1023);
  }

  lemma {:induction false} UntouchedCell(d: Dram, ops: seq<Access>, cell: nat)
    requires cell < DRAM_CELLS && forall k :: 0 <= k < |ops| ==> Cell(ops[k].address) != cell
    ensures ApplyAll(d, ops)[cell] == d[cell]
    decreases |ops|
  {
    if ops != [] {
      UntouchedCell(d, ops[..|ops| - 1], cell);
    }
  }

  // A run whose final memory is not the one a sequential memory would have.
  lemma SomeMemoryIsWrong(mode: Mode) returns (c: Setup)
    ensures c.mode == mode && LastWriteLost(c)
    ensures ApplyAll(c.dram, PerformedInOrder(c)) != ApplyAll(c.dram, c.requests)
  {
    var requests: seq<Access> := seq(1024, k requires 0 <= k < 1024 => AccessRequest(Write, 4 * k));
    var blank: Dram := seq(DRAM_CELLS, _ => 0);
    c := Setup(requests, mode, blank);
    LastOf1024WritesIsLost(c);
    UntouchedCell(blank, requests[..1023], 1023);
    assert ApplyAll(c.dram, c.requests)[1023] == TEST_DATA;
  }

  // ----- any order: every last write can be lost -----

  // The last write has just been issued.
  predicate JustIssued(p: Situation) {
    p.phase.Writing? && p.phase.request.time == p.phase.wake.time <= p.timer.time + 1
  }

  ghost predicate LastWriteIssued(c: Setup, s: Sim<World>, p: Situation) {
    Inv(c, s, p) && s.world.cpu.opCounter == |c.requests| && JustIssued(p)
  }

  // If the processor is woken before the memory gets the request, it exits.
  lemma ExitBeforeWrite(c: Setup, hs: seq<Handler<World>>, s: Sim<World>, p: Situation) returns (i: nat)
    requires Assembled(hs) && LastWriteIssued(c, s, p) && p.phase.wake.time <= p.timer.time
    ensures s.exit.None? && IsTop(s.queue, i)
    ensures Tick(hs, s, i).exit.Some? && |Tick(hs, s, i).world.mem.servedAt| < |c.requests|
  {
    i := EarliestIsTop(s, p, p.phase.wake);
    TickIsDelivery(hs, s, i);
    ExitTick(c, s, p, i);
  }

  lemma RefreshBeforeWrite(c: Setup, hs: seq<Handler<World>>, s: Sim<World>, p: Situation)
    returns (i: nat, q: Situation)
    requires Assembled(hs) && LastWriteIssued(c, s, p) && p.timer.time < p.phase.wake.time
    ensures s.exit.None? && IsTop(s.queue, i)
    ensures LastWriteIssued(c, Tick(hs, s, i), q) && q.phase.wake.time <= q.timer.time
  {
    i := EarliestIsTop(s, p, p.timer);
    TickIsDelivery(hs, s, i);
    q := TimerTick(c, s, p, i);
  }

  lemma FinishWithoutWrite(c: Setup, hs: seq<Handler<World>>, s: Sim<World>, p: Situation) returns (choices: seq<nat>)
    requires Assembled(hs) && LastWriteIssued(c, s, p)
    ensures Legal(hs, s, choices) && After(hs, s, choices).exit.Some?
    ensures |After(hs, s, choices).world.mem.servedAt| < |c.requests|
  {
    if p.phase.wake.time <= p.timer.time {
      var i := ExitBeforeWrite(c, hs, s, p);
      TickFirst(hs, s, i, []);
      choices := [i] + [];
    } else {
      var i, q := RefreshBeforeWrite(c, hs, s, p);
      var t := Tick(hs, s, i);
      var j := ExitBeforeWrite(c, hs, t, q);
      TickFirst(hs, t, j, []);
      TickFirst(hs, s, i, [j] + []);
      choices := [i] + ([j] + []);
    }
  }

  ghost predicate LastIsWrite(c: Setup) {
    c.requests != [] && c.requests[|c.requests| - 1].request.Write?
  }

  // Before the last write is issued, insertion order makes progress towards it.
  lemma TimerStepTowards(c: Setup, s: Sim<World>, p: Situation, i: nat) returns (q: Situation)
    requires Exact(c, s, p) && IsOldestTop(s.queue, i) && s.queue[i] == p.timer
    ensures Exact(c, Deliver(s, i), q) && Deliver(s, i).world.cpu == s.world.cpu
  {
    TimerDelivery(s, i);
    q := ExactTimerTick(c, s, p, i);
  }

  lemma MemoryStepTowards(c: Setup, s: Sim<World>, p: Situation, i: nat) returns (q: Situation)
    requires Exact(c, s, p) && IsOldestTop(s.queue, i)
    requires (p.phase.Writing? || p.phase.Reading?) && s.queue[i] == p.phase.request
    ensures Exact(c, Deliver(s, i), q) && Deliver(s, i).world.cpu == s.world.cpu
  {
    if s.world.mem.refreshing {
      var _ := PostponeTick(c, s, p, i);
      q := ExactPostponeTick(c, s, p, i);
    } else if p.phase.Writing? {
      ServeWriteTick(c, s, p, i);
      ExactServeWriteTick(c, s, p, i);
      q := Situation(p.cycle, p.timer, Idle(p.phase.wake));
    } else {
      var _ := ServeReadTick(c, s, p, i);
      q := ExactServeReadTick(c, s, p, i);
    }
  }

  lemma PollStepTowards(c: Setup, s: Sim<World>, p: Situation, i: nat) returns (q: Situation)
    requires Exact(c, s, p) && IsOldestTop(s.queue, i) && s.world.cpu.opCounter < |c.requests|
    requires p.phase.Writing? && s.queue[i] == p.phase.wake
    ensures Exact(c, Deliver(s, i), q) && Deliver(s, i).world.cpu.opCounter == s.world.cpu.opCounter
  {
    var _ := PollTick(c, s, p, i);
    q := ExactPollTick(c, s, p, i);
  }

  lemma IssuedJustNow(a: Access, now: int, lastId: nat, p: Situation)
    requires a.request.Write? && now <= p.timer.time && p.phase == IssuedPhase(a, now, lastId)
    ensures JustIssued(p)
  {
  }

  lemma IssueStepTowards(c: Setup, s: Sim<World>, p: Situation, i: nat) returns (q: Situation)
    requires LastIsWrite(c) && Exact(c, s, p) && IsOldestTop(s.queue, i) && s.world.cpu.opCounter < |c.requests|
    requires p.phase == Idle(s.queue[i]) || p.phase == Responding(s.queue[i])
    ensures Exact(c, Deliver(s, i), q)
    ensures Deliver(s, i).world.cpu.opCounter < |c.requests| || LastWriteIssued(c, Deliver(s, i), q)
  {
    TopOfSituation(s, p, i);
    q := IssueStepExactly(c, s, p, i);
    if s.world.cpu.opCounter == |c.requests| - 1 {
      IssuedJustNow(c.requests[|c.requests| - 1], s.queue[i].time, s.lastId, q);
    }
  }

  lemma IssueStepExactly(c: Setup, s: Sim<World>, p: Situation, i: nat) returns (q: Situation)
    requires Exact(c, s, p) && IsOldestTop(s.queue, i) && s.world.cpu.opCounter < |c.requests|
    requires p.phase == Idle(s.queue[i]) || p.phase == Responding(s.queue[i])
    ensures Exact(c, Deliver(s, i), q) && q.timer == p.timer
    ensures q.phase == IssuedPhase(c.requests[s.world.cpu.opCounter], s.queue[i].time, s.lastId)
    ensures Deliver(s, i).world.cpu.opCounter == s.world.cpu.opCounter + 1
  {
    if p.phase.Idle? {
      var _ := IdleWakeTick(c, s, p, i);
      q := ExactIdleWakeTick(c, s, p, i);
    } else {
      var _ := ResponseTick(c, s, p, i);
      q := ExactResponseTick(c, s, p, i);
    }
  }

  lemma StepTowardsLastWrite(c: Setup, hs: seq<Handler<World>>, s: Sim<World>, p: Situation, i: nat)
    returns (q: Situation)
    requires Assembled(hs) && LastIsWrite(c) && Exact(c, s, p) && s.world.cpu.opCounter < |c.requests|
    requires IsOldestTop(s.queue, i)
    ensures s.exit.None? && Exact(c, Tick(hs, s, i), q)
    ensures Tick(hs, s, i).world.cpu.opCounter < |c.requests| || LastWriteIssued(c, Tick(hs, s, i), q)
  {
    EventOfSituation(s, p, i);
    TickIsDelivery(hs, s, i);
    if s.queue[i] == p.timer {
      q := TimerStepTowards(c, s, p, i);
    } else if s.queue[i].m.dest == MEM {
      q := MemoryStepTowards(c, s, p, i);
    } else if p.phase.Writing? {
      q := PollStepTowards(c, s, p, i);
    } else {
      q := IssueStepTowards(c, s, p, i);
    }
  }

  lemma {:induction false} ReachLastWrite(c: Setup, hs: seq<Handler<World>>, s: Sim<World>, p: Situation, m: nat)
    returns (choices: seq<nat>, q: Situation)
    requires Assembled(hs) && LastIsWrite(c) && Exact(c, s, p) && s.world.cpu.opCounter < |c.requests|
    ensures Legal(hs, s, choices) && InInsertionOrder(hs, s, choices)
    ensures |choices| == m || LastWriteIssued(c, After(hs, s, choices), q)
    decreases m
  {
    choices, q := [], p;
    if m > 0 {
      InQueue(s, p);
      var i := OldestExists(s.queue);
      q := StepTowardsLastWrite(c, hs, s, p, i);
      var rest := [];
      if Tick(hs, s, i).world.cpu.opCounter < |c.requests| {
        rest, q := ReachLastWrite(c, hs, Tick(hs, s, i), q, m - 1);
      }
      choices := [i] + rest;
      assert choices[1..] == rest;
    }
  }

  lemma LastWriteCanBeLost(c: Setup, hs: seq<Handler<World>>, s: Sim<World>) returns (choices: seq<nat>)
    requires Assembled(hs) && Initial(c, s) && LastIsWrite(c)
    ensures Legal(hs, s, choices) && After(hs, s, choices).exit.Some?
    ensures |After(hs, s, choices).world.mem.servedAt| < |c.requests|
  {
    var p := InitialIsExact(c, s);
    var prefix, q := ReachLastWrite(c, hs, s, p, 180 * |c.requests| + 2);
    InsertionOrderRun(c, hs, s, prefix);
    var rest := FinishWithoutWrite(c, hs, After(hs, s, prefix), q);
    LegalSplit(hs, s, prefix, rest);
    choices := prefix + rest;
  }

  // The process has exited with the last request not performed, and the memory
  // as if it had not been made.
  ghost predicate ExitsWithoutLast(c: Setup, t: Sim<World>) {
    && t.exit.Some? && c.requests != []
    && |t.world.mem.servedAt| == |c.requests| - 1
    && t.world.mem.dram == ApplyAll(c.dram, c.requests[..|c.requests| - 1])
  }

  lemma MissingIsLastWrite(c: Setup, t: Sim<World>)
    requires Finished(c, t)
    ensures ExitsWithoutLast(c, t) <==> |t.world.mem.servedAt| < |c.requests|
    ensures ExitsWithoutLast(c, t) ==> LastIsWrite(c)
  {
  }

  // Some order loses the last request exactly if that request is a write.
  lemma LastWriteMayBeLostIff(c: Setup, hs: seq<Handler<World>>, s: Sim<World>)
    requires Assembled(hs) && Initial(c, s)
    ensures LastIsWrite(c) <==> exists choices :: Legal(hs, s, choices) && ExitsWithoutLast(c, After(hs, s, choices))
  {
    InitialIsGood(c, s);
    if LastIsWrite(c) {
      var choices := LastWriteCanBeLost(c, hs, s);
      RunsStayGood(c, hs, s, choices);
      MissingIsLastWrite(c, After(hs, s, choices));
    }
    forall choices | Legal(hs, s, choices) && ExitsWithoutLast(c, After(hs, s, choices))
      ensures LastIsWrite(c)
    {
      RunsStayGood(c, hs, s, choices);
      MissingIsLastWrite(c, After(hs, s, choices));
    }
  }
}
