// The test processor and the DRAM module as behaviours on the state they share.
module Devices {
  import opened MainBus
  import opened SequentialMemory
  import opened Scheduler

  // `issuedAt` and `received` are the processor's log: when each request was
  // put on the bus, and the data words read back.
  datatype CpuState = CpuState(
    requests: seq<Access>, opCounter: nat, status: BusStatus, issuedAt: seq<int>, received: seq<Word>)

  // `servedAt` is the memory's log: when each request was performed.
  datatype MemState = MemState(
    mode: Mode, dram: Dram, firstAccess: bool, lastRow: nat,
    refreshing: bool, startedAt: int, status: BusStatus, servedAt: seq<int>)

  datatype World = World(bus: BusState, cpu: CpuState, mem: MemState)

  function NewMessage(now: int, source: Name, dest: Name): Message {
    Message(0, true, now, source, dest)
  }

  // ----- processor -----

  function SendRequest(w: World, now: int): Reaction<World>
    requires w.cpu.opCounter < |w.cpu.requests|
  {
    var a := w.cpu.requests[w.cpu.opCounter];
    var status := BusStatus(a.request, a.address, TEST_DATA);
    var wake := Send(NewMessage(now, CPU, CPU), 1);
    if w.bus.busy then
      Reaction(w.(cpu := w.cpu.(status := status)), [wake], true, None)
    else
      var request := Send(NewMessage(now, CPU, MEM), 1);
      var cpu := w.cpu.(status := status, opCounter := w.cpu.opCounter + 1, issuedAt := w.cpu.issuedAt + [now]);
      Reaction(w.(bus := Put(w.bus, status), cpu := cpu),
               if a.request.Write? then [request, wake] else [request], true, None)
  }

  // What the processor does with a response before it looks for more work.
  function Receive(w: World, m: Message): World {
    if m.source == CPU then
      w
    else
      var status := Sampled(w.bus, w.cpu.status);
      var received := if w.bus.busy then w.cpu.received + [status.data] else w.cpu.received;
      w.(bus := Release(w.bus), cpu := w.cpu.(status := status, received := received))
  }

  function CpuReact(w: World, now: int, m: Message): Reaction<World> {
    if m.dest != CPU then
      Reaction(w, [], m.valid, None)
    else
      var w1 := Receive(w, m);
      if w1.cpu.opCounter >= |w1.cpu.requests| then
        Reaction(w1, [], m.valid, Some(0))
      else
        SendRequest(w1, now).(valid := m.valid)
  }

  // ----- memory -----

  function StartRefresh(mem: MemState, now: int): MemState {
    mem.(refreshing := true, startedAt := now)
  }

  function EndRefresh(mem: MemState): MemState {
    mem.(refreshing := false)
  }

  function AccessTime(mem: MemState, row: nat): int {
    if mem.mode.Default? || mem.firstAccess then CL + RCD
    else if row == mem.lastRow then CL
    else CL + RCD + RP
  }

  // The memory serving the request whose status it has just sampled.
  function Serve(w: World, now: int, m: Message): Reaction<World> {
    var cell := Cell(w.mem.status.address);
    var row := Row(w.mem.status.address);
    var served := w.mem.(lastRow := row, firstAccess := false, servedAt := w.mem.servedAt + [now]);
    match w.mem.status.request
    case Read =>
      var status := w.mem.status.(data := w.mem.dram[cell]);
      if w.bus.busy then
        Reaction(w.(mem := w.mem.(status := status)), [], m.valid, Some(1))
      else
        Reaction(w.(bus := Put(w.bus, status), mem := served.(status := status)),
                 [Send(NewMessage(now, MEM, m.source), AccessTime(w.mem, row))], m.valid, None)
    case Write =>
      Reaction(w.(mem := served.(dram := w.mem.dram[cell := w.mem.status.data])), [], m.valid, None)
    case Undefined =>
      Reaction(w, [], m.valid, Some(1))
  }

  function MemReact(w: World, now: int, m: Message): Reaction<World> {
    if m.dest != MEM then
      Reaction(w, [], m.valid, None)
    else if m.source == MEM then
      var timer := NewMessage(now, MEM, MEM);
      if w.mem.refreshing then
        Reaction(w.(mem := EndRefresh(w.mem)), [Send(timer, REFRESHING_INTERVAL)], m.valid, None)
      else
        Reaction(w.(mem := StartRefresh(w.mem, now)), [Send(timer, REFRESHING_TIME)], m.valid, None)
    else if w.mem.refreshing then
      Reaction(w, [Send(NewMessage(now, m.source, MEM), w.mem.startedAt + REFRESHING_TIME - now)], m.valid, None)
    else if !w.bus.busy then
      Reaction(w, [], m.valid, None)
    else
      Serve(World(Release(w.bus), w.cpu, w.mem.(status := w.bus.lines)), now, m)
  }

  // ----- the assembled system -----

  // Both modules have priority 0, so either may come first.
  ghost predicate Assembled(hs: seq<Handler<World>>) {
    hs == [CpuReact, MemReact] || hs == [MemReact, CpuReact]
  }

  datatype Setup = Setup(requests: seq<Access>, mode: Mode, dram: Dram)

  // The state in which the event loop starts: the processor has asked to be
  // woken at time 0 and the memory has armed its refresh timer.
  ghost predicate Initial(c: Setup, s: Sim<World>) {
    var wake := Event(0, Message(1, true, 0, CPU, CPU));
    var timer := Event(REFRESHING_INTERVAL, Message(2, true, 0, MEM, MEM));
    && s.now == 0 && s.lastId == 2 && s.exit.None?
    && (s.queue == [wake, timer] || s.queue == [timer, wake])
    && !s.world.bus.busy
    && s.world.cpu.requests == c.requests && s.world.cpu.opCounter == 0
    && s.world.cpu.issuedAt == [] && s.world.cpu.received == []
    && s.world.mem.mode == c.mode && s.world.mem.dram == c.dram
    && s.world.mem.firstAccess && !s.world.mem.refreshing && s.world.mem.servedAt == []
  }
}
