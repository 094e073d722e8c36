// When requests are issued, for any read latencies and at three paces: the
// earliest and the latest that any order of simultaneous events allows, and
// that of insertion order in between.
module IssueTimes {
  import opened SequentialMemory
  import opened Scheduler
  import opened Devices
  import opened Protocol
  import opened Runs
  import opened InsertionOrderRuns

  datatype Pace = Earliest | InOrder | Latest

  // A request arriving as a refresh starts may still be served, or not.
  function ServiceAt(pace: Pace, t: int): int {
    if pace.Earliest? && (t + 1) % 2560 == 1024 then t + 1 else ServiceTime(t)
  }

  // After a write, the processor may try once in vain before the bus is free.
  function Polls(pace: Pace): nat { if pace.Latest? then 1 else 0 }

  // When request k is issued, if read j takes time latencies[j].
  function IssueAt(pace: Pace, ops: seq<Access>, latencies: seq<nat>, k: nat): (t: nat)
    requires k <= |ops| == |latencies|
  {
    if k == 0 then 0
    else
      var before := IssueAt(pace, ops, latencies, k - 1);
      ServiceIsDetermined(before, before + 1);
      ServiceAt(pace, before) + if ops[k - 1].request.Read? then latencies[k - 1] else Polls(pace)
  }

  // When the process exits, in insertion order.
  function FinishAt(ops: seq<Access>, latencies: seq<nat>): int
    requires |ops| == |latencies|
  {
    var n := |ops|;
    if n == 0 then 0
    else if ops[n - 1].request.Read? then IssueAt(InOrder, ops, latencies, n)
    else IssueAt(InOrder, ops, latencies, n - 1) + 1
  }

  function Latencies(mode: Mode, ops: seq<Access>): (r: seq<nat>)
    ensures |r| == |ops| && forall k :: 0 <= k < |r| ==> r[k] == Latency(mode, ops, k)
  {
    seq(|ops|, k requires 0 <= k < |ops| => Latency(mode, ops, k))
  }

  // ----- faster reads -----

  lemma ServiceTimeIsMonotone(t: int, u: int)
    requires -1 <= t <= u
    ensures ServiceTime(t) <= ServiceTime(u)
  {
  }

  lemma ServiceAtIsMonotone(pace: Pace, t: nat, u: nat)
    requires t <= u
    ensures ServiceAt(pace, t) <= ServiceAt(pace, u)
    ensures ServiceAt(Earliest, t) <= ServiceAt(pace, t) <= ServiceTime(t)
  {
    ServiceTimeIsMonotone(t, u);
    ServiceIsDetermined(t, t + 1);
    ServiceIsDetermined(u, u + 1);
  }

  ghost predicate NoSlower(ops: seq<Access>, fast: seq<nat>, slow: seq<nat>) {
    && |fast| == |slow| == |ops|
    && forall j :: 0 <= j < |ops| && ops[j].request.Read? ==> fast[j] <= slow[j]
  }

  // No timing anomalies: making any reads faster, in any way, makes no later
  // request later, at any of the three paces.
  lemma {:induction false} FasterReadsIssueEarlier(pace: Pace, ops: seq<Access>, fast: seq<nat>, slow: seq<nat>, k: nat)
    requires NoSlower(ops, fast, slow) && k <= |ops|
    ensures IssueAt(pace, ops, fast, k) <= IssueAt(pace, ops, slow, k)
    decreases k
  {
    if k > 0 {
      FasterReadsIssueEarlier(pace, ops, fast, slow, k - 1);
      ServiceAtIsMonotone(pace, IssueAt(pace, ops, fast, k - 1), IssueAt(pace, ops, slow, k - 1));
    }
  }

  // With ties in insertion order, nor does the process exit later.
  lemma FasterReadsFinishEarlier(ops: seq<Access>, fast: seq<nat>, slow: seq<nat>)
    requires NoSlower(ops, fast, slow)
    ensures FinishAt(ops, fast) <= FinishAt(ops, slow)
  {
    var n := |ops|;
    FasterReadsIssueEarlier(InOrder, ops, fast, slow, n);
    if n > 0 {
      FasterReadsIssueEarlier(InOrder, ops, fast, slow, n - 1);
    }
  }

  // ----- the simulator -----

  // Insertion order is one of the paces.
  lemma {:induction false} InOrderIsIssueTime(c: Setup, k: nat)
    requires k <= |c.requests|
    ensures IssueTime(c, k) == IssueAt(InOrder, c.requests, Latencies(c.mode, c.requests), k)
    decreases k
  {
    if k > 0 {
      InOrderIsIssueTime(c, k - 1);
    }
  }

  lemma InOrderIsFinishTime(c: Setup)
    ensures FinishTime(c) == FinishAt(c.requests, Latencies(c.mode, c.requests))
  {
    var n := |c.requests|;
    InOrderIsIssueTime(c, n);
    if n > 0 {
      InOrderIsIssueTime(c, n - 1);
    }
  }

  ghost predicate Between(c: Setup, k: nat, t: int)
    requires k <= |c.requests|
  {
    var latencies := Latencies(c.mode, c.requests);
    IssueAt(Earliest, c.requests, latencies, k) <= t <= IssueAt(Latest, c.requests, latencies, k)
  }

  lemma NextIsBetween(c: Setup, k: nat, t: nat, served: int, next: int)
    requires k < |c.requests| && Between(c, k, t)
    requires MayBeServed(t, served) && MayFollow(c, k, served, next)
    ensures Between(c, k + 1, next)
  {
    var latencies := Latencies(c.mode, c.requests);
    ServiceIsDetermined(t, served);
    ServiceAtIsMonotone(Earliest, IssueAt(Earliest, c.requests, latencies, k), t);
    ServiceAtIsMonotone(Latest, t, IssueAt(Latest, c.requests, latencies, k));
  }

  lemma {:induction false} HistoryIsBetween(c: Setup, issuedAt: seq<int>, servedAt: seq<int>, k: nat)
    requires |servedAt| <= |issuedAt| <= |servedAt| + 1 && |issuedAt| <= |c.requests|
    requires HistoryOk(c, issuedAt, servedAt) && k < |issuedAt|
    ensures issuedAt[k] >= 0 && Between(c, k, issuedAt[k])
    decreases k
  {
    if k > 0 {
      HistoryIsBetween(c, issuedAt, servedAt, k - 1);
      IssueBound(c, issuedAt, servedAt, k);
      NextIsBetween(c, k - 1, issuedAt[k - 1], servedAt[k - 1], issuedAt[k]);
    }
  }

  // In every order of simultaneous events, each request is issued between its
  // earliest and its latest time.
  lemma IssueEnvelope(c: Setup, s: Sim<World>, k: nat)
    requires Reachable(c, s) && k < |s.world.cpu.issuedAt|
    ensures |s.world.cpu.issuedAt| <= |c.requests| && Between(c, k, s.world.cpu.issuedAt[k])
  {
    ReachableIsGood(c, s);
    HistoryIsBetween(c, s.world.cpu.issuedAt, s.world.mem.servedAt, k);
  }
}
