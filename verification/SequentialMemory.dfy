// What the timed simulator is measured against: a memory that performs a list
// of requests one after the other, with no bus, no messages and no clock, and
// a calendar that says when a request issued at a given time is served.
module SequentialMemory {
  import opened MainBus

  const DRAM_CELLS := 16384
  const CL := 7
  const RCD := 8
  const RP := 8
  const RAS := 24
  const ROWS := 64
  const REFRESHING_INTERVAL := 32 * 32 // 32 ms at 32 kHz
  const REFRESHING_TIME := RAS * ROWS

  // The word every write request of the test processor carries.
  const TEST_DATA: Word := 77

  type Dram = d: seq<Word> | |d| == DRAM_CELLS witness seq(DRAM_CELLS, _ => 0)

  datatype Mode = Default | Fast

  datatype AccessRequest = AccessRequest(request: Request, address: Address)

  type Access = a: AccessRequest | a.request != Undefined witness AccessRequest(Read, 0)

  function Cell(a: Address): (c: nat)
    ensures c < DRAM_CELLS
  {
    a / 4
  }

  function Row(a: Address): nat {
    Cell(a) / 256
  }

  // ----- sequential meaning of a request list -----

  function Apply(d: Dram, a: Access): Dram {
    if a.request.Write? then d[Cell(a.address) := TEST_DATA] else d
  }

  function ApplyAll(d: Dram, ops: seq<Access>): Dram {
    if ops == [] then d else Apply(ApplyAll(d, ops[..|ops| - 1]), ops[|ops| - 1])
  }

  function ReadsOf(d: Dram, ops: seq<Access>): seq<Word> {
    if ops == [] then
      []
    else
      var before := ops[..|ops| - 1];
      var last := ops[|ops| - 1];
      ReadsOf(d, before) +
      if last.request.Read? then [ApplyAll(d, before)[Cell(last.address)]] else []
  }

  // Access time of request k: the row buffer holds the row of the request
  // before it, whether that was a read or a write.
  function Latency(mode: Mode, ops: seq<Access>, k: nat): int
    requires k < |ops|
  {
    if mode.Default? || k == 0 then CL + RCD
    else if Row(ops[k].address) == Row(ops[k - 1].address) then CL
    else CL + RCD + RP
  }

  // ----- refresh calendar -----

  // Refresh number k; consecutive refreshes are 2560 time units apart.
  function RefreshStart(k: nat): int { 1024 + 2560 * k }

  function RefreshEnd(k: nat): int { 2560 * (k + 1) }

  // One interval leads to each start, and each refresh lasts its full time.
  lemma CalendarMatchesConstants(k: nat)
    ensures RefreshStart(0) == REFRESHING_INTERVAL
    ensures RefreshEnd(k) == RefreshStart(k) + REFRESHING_TIME
    ensures RefreshStart(k + 1) == RefreshEnd(k) + REFRESHING_INTERVAL
  {
  }

  predicate StrictlyInsideRefresh(t: int) { 1024 < t % 2560 }

  // When a request issued at time t may be served, whatever the order in which
  // simultaneous events are taken: on arrival at t + 1, or at the end of a
  // refresh that had started by then.
  ghost predicate MayBeServed(t: int, served: int) {
    || (served == t + 1 && !StrictlyInsideRefresh(t + 1))
    || exists k: nat :: RefreshStart(k) <= t + 1 < RefreshEnd(k) && served == RefreshEnd(k)
  }

  lemma CalendarOf(t: int, k: nat)
    requires 2560 * k <= t < 2560 * (k + 1)
    ensures t % 2560 == t - 2560 * k
    ensures t / 2560 == k
  {
  }

  // The calendar in closed form.
  lemma StrictlyInsideIffBetween(t: int)
    requires t >= 0
    ensures StrictlyInsideRefresh(t) <==> exists k: nat :: RefreshStart(k) < t < RefreshEnd(k)
  {
    var k: nat := t / 2560;
    CalendarOf(t, k);
    if StrictlyInsideRefresh(t) {
      assert RefreshStart(k) < t < RefreshEnd(k);
    }
    forall j: nat | RefreshStart(j) < t < RefreshEnd(j)
      ensures StrictlyInsideRefresh(t)
    {
      CalendarOf(t, j);
    }
  }

  lemma ServiceDelayBound(t: int, served: int)
    requires MayBeServed(t, served)
    ensures t + 1 <= served <= t + 1 + REFRESHING_TIME
  {
  }

  // Time outside refreshes up to time t.
  function OpenTime(t: nat): nat {
    1024 * (t / 2560) + if t % 2560 < 1024 then t % 2560 else 1024
  }

  // It grows with time but no faster, and is two fifths of it or more.
  lemma OpenTimeGrows(t: nat, d: nat)
    ensures OpenTime(t) <= OpenTime(t + d) <= OpenTime(t) + d
    ensures OpenTime(t) <= t && 2 * t <= 5 * OpenTime(t)
  {
  }

  // Waiting for the end of a refresh takes no open time.
  lemma OpenTimeOfRefresh(t: nat, k: nat)
    requires RefreshStart(k) <= t <= RefreshEnd(k)
    ensures OpenTime(t) == OpenTime(RefreshEnd(k))
  {
    CalendarOf(RefreshEnd(k), k + 1);
    if t < RefreshEnd(k) {
      CalendarOf(t, k);
    }
  }

  lemma OpenTimeOfService(t: nat, served: int)
    requires MayBeServed(t, served)
    ensures served >= 0 && OpenTime(served) == OpenTime(t + 1)
  {
    if served != t + 1 {
      var k: nat :| RefreshStart(k) <= t + 1 < RefreshEnd(k) && served == RefreshEnd(k);
      OpenTimeOfRefresh(t + 1, k);
    }
  }

  // When a request issued at time t is served if simultaneous events are taken
  // in insertion order; and, in any order, the latest time it can be served.
  function ServiceTime(t: int): int {
    if (t + 1) % 2560 < 1024 then t + 1 else 2560 * ((t + 1) / 2560 + 1)
  }

  // Only a request arriving as a refresh starts can be served at two times.
  lemma ServiceIsDetermined(t: nat, served: int)
    ensures MayBeServed(t, served) <==>
      || served == ServiceTime(t)
      || (served == t + 1 && (t + 1) % 2560 == 1024)
    ensures t + 1 <= ServiceTime(t) <= t + 1 + REFRESHING_TIME
    ensures MayBeServed(t, served) ==> served <= ServiceTime(t) && !StrictlyInsideRefresh(served)
  {
    var k: nat := (t + 1) / 2560;
    CalendarOf(t + 1, k);
    if (t + 1) % 2560 >= 1024 {
      assert RefreshStart(k) <= t + 1 < RefreshEnd(k) == ServiceTime(t);
      CalendarOf(RefreshEnd(k), k + 1);
    }
    forall j: nat | RefreshStart(j) <= t + 1 < RefreshEnd(j)
      ensures j == k
    {
      CalendarOf(t + 1, j);
    }
  }
}
