// What the row buffer is worth: read delays added up over a request list, and
// their effect on the length of the whole simulation.
module RowBuffer {
  import opened SequentialMemory
  import opened Devices
  import opened InsertionOrderRuns
  import opened IssueTimes
  import opened Words

  // Total delay of the reads in ops.
  function ReadDelay(mode: Mode, ops: seq<Access>): int {
    if ops == [] then 0
    else
      var n := |ops| - 1;
      ReadDelay(mode, ops[..n]) + if ops[n].request.Read? then Latency(mode, ops, n) else 0
  }

  function Reads(ops: seq<Access>): set<nat> {
    set k: nat | k < |ops| && ops[k].request.Read?
  }

  // Reads of the row of 1024 bytes addressed just before, by a read or a write.
  // The first access is neither a hit nor a miss.
  function Hits(ops: seq<Access>): set<nat> {
    set k: nat | 0 < k < |ops| && ops[k].request.Read? && ops[k].address / 1024 == ops[k - 1].address / 1024
  }

  function Misses(ops: seq<Access>): set<nat> {
    set k: nat | 0 < k < |ops| && ops[k].request.Read? && ops[k].address / 1024 != ops[k - 1].address / 1024
  }

  lemma OneMoreRead(ops: seq<Access>, n: nat)
    requires |ops| == n + 1
    ensures |Reads(ops)| == |Reads(ops[..n])| + if ops[n].request.Read? then 1 else 0
  {
    assert Reads(ops) == Reads(ops[..n]) + if ops[n].request.Read? then {n} else {};
  }

  lemma OneMoreHit(ops: seq<Access>, n: nat)
    requires |ops| == n + 1
    ensures |Hits(ops)| == |Hits(ops[..n])| + if n in Hits(ops) then 1 else 0
  {
    assert Hits(ops) == Hits(ops[..n]) + if n in Hits(ops) then {n} else {};
  }

  lemma OneMoreMiss(ops: seq<Access>, n: nat)
    requires |ops| == n + 1
    ensures |Misses(ops)| == |Misses(ops[..n])| + if n in Misses(ops) then 1 else 0
  {
    assert Misses(ops) == Misses(ops[..n]) + if n in Misses(ops) then {n} else {};
  }

  // A plain access takes 15, a hit saves 8 of it, a miss costs 8 more.
  lemma {:induction false} RowBufferAccounting(ops: seq<Access>)
    ensures ReadDelay(Default, ops) == 15 * |Reads(ops)|
    ensures ReadDelay(Fast, ops) == 15 * |Reads(ops)| + 8 * (|Misses(ops)| - |Hits(ops)|)
  {
    if ops != [] {
      var n := |ops| - 1;
      RowBufferAccounting(ops[..n]);
      OneMoreRead(ops, n);
      OneMoreHit(ops, n);
      OneMoreMiss(ops, n);
      DelayIs(Default, ops, n);
      DelayIs(Fast, ops, n);
    }
  }

  lemma FastPaysOffIff(ops: seq<Access>)
    ensures ReadDelay(Fast, ops) <= ReadDelay(Default, ops) <==> |Hits(ops)| >= |Misses(ops)|
  {
    RowBufferAccounting(ops);
  }

  // ----- whole simulations -----

  lemma FastModeLatencies(ops: seq<Access>)
    ensures Misses(ops) == {} ==> NoSlower(ops, Latencies(Fast, ops), Latencies(Default, ops))
    ensures Hits(ops) == {} ==> NoSlower(ops, Latencies(Default, ops), Latencies(Fast, ops))
  {
    forall j: nat | j < |ops| && ops[j].request.Read?
      ensures j !in Misses(ops) ==> Latency(Fast, ops, j) <= Latency(Default, ops, j)
      ensures j !in Hits(ops) ==> Latency(Default, ops, j) <= Latency(Fast, ops, j)
    {
      DelayIs(Fast, ops, j);
      DelayIs(Default, ops, j);
    }
  }

  // With ties in insertion order, fast mode never takes longer on a list
  // without row misses, and never less time on one without row hits.
  lemma FastModeFinish(requests: seq<Access>, dram: Dram)
    ensures Misses(requests) == {} ==>
      FinishTime(Setup(requests, Fast, dram)) <= FinishTime(Setup(requests, Default, dram))
    ensures Hits(requests) == {} ==>
      FinishTime(Setup(requests, Fast, dram)) >= FinishTime(Setup(requests, Default, dram))
  {
    InOrderIsFinishTime(Setup(requests, Fast, dram));
    InOrderIsFinishTime(Setup(requests, Default, dram));
    FastModeLatencies(requests);
    if Misses(requests) == {} {
      FasterReadsFinishEarlier(requests, Latencies(Fast, requests), Latencies(Default, requests));
    }
    if Hits(requests) == {} {
      FasterReadsFinishEarlier(requests, Latencies(Default, requests), Latencies(Fast, requests));
    }
  }
}
