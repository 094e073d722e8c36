// The test processor in its own form.
module CpuModule {
  import opened MainBus
  import opened SequentialMemory
  import opened Scheduler
  import opened Devices

  class CpuTest {
    const requests: seq<Access>
    const bus: Bus
    var opCounter: nat
    var status: BusStatus
    var sends: seq<Send>
    ghost var issuedAt: seq<int>
    ghost var received: seq<Word>

    ghost function View(): CpuState
      reads this
    {
      CpuState(requests, opCounter, status, issuedAt, received)
    }

    ghost function Seen(mem: MemState): World
      reads this, bus
    {
      World(bus.View(), View(), mem)
    }

    constructor (requests: seq<Access>, bus: Bus)
      ensures this.requests == requests && this.bus == bus
      ensures opCounter == 0 && issuedAt == [] && received == []
      ensures sends == [Send(NewMessage(0, CPU, CPU), 0)]
    {
      this.requests, this.bus := requests, bus;
      opCounter, issuedAt, received := 0, [], [];
      sends := [Send(NewMessage(0, CPU, CPU), 0)];
    }

    method SendSelfMessage(now: int)
      modifies this`sends
      ensures sends == old(sends) + [Send(NewMessage(now, CPU, CPU), 1)]
    {
      sends := sends + [Send(NewMessage(now, CPU, CPU), 1)];
    }

    method SendRequest(now: int, ghost mem: MemState)
      requires opCounter < |requests|
      modifies this, bus
      ensures var r := Devices.SendRequest(old(Seen(mem)), now);
        Seen(mem) == r.world && sends == old(sends) + r.sends
      ensures if old(bus.busy) then
          bus.View() == old(bus.View()) && opCounter == old(opCounter)
          && sends == old(sends) + [Send(Message(0, true, now, CPU, CPU), 1)]
        else
          var a := requests[old(opCounter)];
          && bus.View() == BusState(true, BusStatus(a.request, a.address, 77)) && opCounter == old(opCounter) + 1
          && sends == old(sends) + [Send(Message(0, true, now, CPU, MEM), 1)]
               + if a.request.Write? then [Send(Message(0, true, now, CPU, CPU), 1)] else []
    {
      var a := requests[opCounter];
      status := BusStatus(a.request, a.address, TEST_DATA);
      var ok := bus.Set(status);
      if !ok {
        SendSelfMessage(now);
        return;
      }
      sends := sends + [Send(NewMessage(now, CPU, MEM), 1)];
      if requests[opCounter].request == Write {
        SendSelfMessage(now);
      }
      issuedAt := issuedAt + [now];
      opCounter := opCounter + 1;
    }

    // The handler does exactly what the behaviour on values says.
    method OnNotify(now: int, m: Message, ghost mem: MemState) returns (exit: Option<int>)
      modifies this, bus
      ensures var r := CpuReact(old(Seen(mem)), now, m);
        && Seen(mem) == r.world
        && sends == old(sends) + r.sends
        && exit == r.exit
      // In detail: messages for others are ignored,
      ensures m.dest != CPU ==> Seen(mem) == old(Seen(mem)) && sends == old(sends) && exit.None?
      // a response is received if there is data on the bus,
      ensures received == old(received) +
        if m.dest == CPU && m.source != CPU && old(bus.busy) then [old(bus.data)] else []
      // and then the process exits, or the next request is made.
      ensures m.dest == CPU ==> (exit == Some(0) <==> old(opCounter) >= |requests|) && (exit == Some(0) || exit == None)
      ensures exit == Some(0) ==> opCounter == old(opCounter) && sends == old(sends)
      ensures m.dest == CPU && exit.None? ==>
        opCounter == old(opCounter) + if m.source == CPU && old(bus.busy) then 0 else 1
    {
      exit := None;
      if m.dest == CPU {
        if m.source != CPU {
          var ok, s := bus.Get(status);
          status := s;
          if ok {
            received := received + [status.data];
          }
        }
        if opCounter >= |requests| {
          exit := Some(0);
          return;
        }
        SendRequest(now, mem);
      }
    }
  }
}
