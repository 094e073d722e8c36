// The DRAM module in its own form: an object that updates its fields and the
// shared bus.  Messages it passes to sendWithDelay collect in `sends`.
module DramModule {
  import opened MainBus
  import opened SequentialMemory
  import opened Scheduler
  import opened Devices

  class Memory {
    const mode: Mode
    const dram: array<Word>
    const bus: Bus
    var firstAccess: bool
    var lastRow: nat
    var refreshing: bool
    var startedAt: int
    var status: BusStatus
    var sends: seq<Send>
    ghost var servedAt: seq<int>

    ghost predicate Valid()
    {
      dram.Length == DRAM_CELLS
    }

    ghost function View(): MemState
      requires Valid()
      reads this, dram
    {
      MemState(mode, dram[..], firstAccess, lastRow, refreshing, startedAt, status, servedAt)
    }

    // The state of the whole system, given the processor's part of it.
    ghost function Seen(cpu: CpuState): World
      requires Valid()
      reads this, dram, bus
    {
      World(bus.View(), cpu, View())
    }

    constructor (mode: Mode, program: Dram, bus: Bus)
      ensures Valid() && fresh(dram) && this.bus == bus && this.mode == mode
      ensures View().dram == program && firstAccess && !refreshing && servedAt == []
      ensures sends == [Send(NewMessage(0, MEM, MEM), REFRESHING_INTERVAL)]
    {
      this.mode := mode;
      this.bus := bus;
      firstAccess, refreshing := true, false;
      servedAt := [];
      sends := [Send(NewMessage(0, MEM, MEM), REFRESHING_INTERVAL)];
      dram := new Word[DRAM_CELLS](i requires 0 <= i < DRAM_CELLS => program[i]);
      new;
      assert dram[..] == program;
    }

    method StartRefresh(now: int)
      requires Valid()
      modifies this
      ensures Valid() && View() == Devices.StartRefresh(old(View()), now)
      ensures sends == old(sends) + [Send(NewMessage(now, MEM, MEM), REFRESHING_TIME)]
    {
      refreshing := true;
      startedAt := now;
      sends := sends + [Send(NewMessage(now, MEM, MEM), REFRESHING_TIME)];
    }

    method EndRefresh(now: int)
      requires Valid()
      modifies this
      ensures Valid() && View() == Devices.EndRefresh(old(View()))
      ensures sends == old(sends) + [Send(NewMessage(now, MEM, MEM), REFRESHING_INTERVAL)]
    {
      refreshing := false;
      sends := sends + [Send(NewMessage(now, MEM, MEM), REFRESHING_INTERVAL)];
    }

    method DefaultBehavior() returns (time: int)
      ensures time == CL + RCD
    {
      time := CL + RCD;
    }

    method OptimizedBehavior(row: nat) returns (time: int)
      requires Valid() && mode.Fast?
      ensures time == AccessTime(View(), row)
    {
      if firstAccess {
        time := CL + RCD;
      } else if row == lastRow {
        time := CL;
      } else {
        time := CL + RCD + RP;
      }
    }

    method OnReadRequest(now: int, cell: nat, row: nat, responseDest: Name) returns (exit: Option<int>)
      requires Valid() && cell < DRAM_CELLS
      modifies this, bus
      ensures var s := old(status).(data := old(dram[cell]));
        && View() == old(View()).(status := s)
        && bus.View() == Put(old(bus.View()), s)
        && exit == (if old(bus.busy) then Some(1) else None)
        && sends == old(sends) +
             if old(bus.busy) then []
             else [Send(NewMessage(now, MEM, responseDest), AccessTime(old(View()), row))]
    {
      status := status.(data := dram[cell]);
      var ok := bus.Set(status);
      if ok {
        var time;
        if mode.Default? {
          time := DefaultBehavior();
        } else {
          time := OptimizedBehavior(row);
        }
        sends := sends + [Send(NewMessage(now, MEM, responseDest), time)];
        exit := None;
      } else {
        exit := Some(1);
      }
    }

    method OnWriteRequest(cell: nat)
      requires Valid() && cell < DRAM_CELLS
      modifies dram
      ensures View() == old(View()).(dram := old(dram[..])[cell := status.data])
    {
      dram[cell] := status.data;
    }

    // The handler does exactly what the behaviour on values says, to the
    // memory, the bus, the messages sent and the exit of the process.
    method OnNotify(now: int, m: Message, ghost cpu: CpuState) returns (exit: Option<int>)
      requires Valid()
      modifies this, dram, bus
      ensures Valid()
      ensures var r := MemReact(old(Seen(cpu)), now, m);
        && Seen(cpu) == r.world
        && sends == old(sends) + r.sends
        && exit == r.exit
      // In detail: messages for others are ignored,
      ensures m.dest != MEM ==> Seen(cpu) == old(Seen(cpu)) && sends == old(sends) && exit.None?
      // its own messages start and end refreshes,
      ensures m.dest == MEM && m.source == MEM ==>
        && bus.View() == old(bus.View()) && exit.None?
        && View() == old(View()).(refreshing := !old(refreshing),
                                  startedAt := if old(refreshing) then old(startedAt) else now)
        && sends == old(sends) + [Send(Message(0, true, now, MEM, MEM), if old(refreshing) then 1024 else 1536)]
      // requests during a refresh are put off, and without anything on the bus dropped,
      ensures m.dest == MEM && m.source != MEM && (old(refreshing) || !old(bus.busy)) ==>
        && Seen(cpu) == old(Seen(cpu)) && exit.None?
        && sends == old(sends) + if old(refreshing)
             then [Send(Message(0, true, now, m.source, MEM), old(startedAt) + 1536 - now)] else []
      // and others are for the word their address lies in.
      ensures m.dest == MEM && m.source != MEM && !old(refreshing) && old(bus.busy) ==>
        match old(bus.request)
        case Read =>
          && dram[..] == old(dram[..]) && bus.busy && bus.data == old(dram[bus.address / 4]) && exit.None?
          && lastRow == old(bus.address) / 1024 && !firstAccess
          && sends == old(sends) + [Send(Message(0, true, now, MEM, m.source),
               if mode.Default? || old(firstAccess) then 15
               else if old(bus.address) / 1024 == old(lastRow) then 7 else 23)]
        case Write =>
          && dram[..] == old(dram[..])[old(bus.address) / 4 := old(bus.data)] && !bus.busy && exit.None?
          && lastRow == old(bus.address) / 1024 && !firstAccess && sends == old(sends)
        case Undefined =>
          dram[..] == old(dram[..]) && !bus.busy && exit == Some(1) && sends == old(sends)
    {
      exit := None;
      if m.dest != MEM {
        return;
      }
      if m.source == MEM {
        if refreshing {
          EndRefresh(now);
        } else {
          StartRefresh(now);
        }
        return;
      }
      if refreshing {
        sends := sends + [Send(NewMessage(now, m.source, MEM), startedAt + REFRESHING_TIME - now)];
        return;
      }
      var ok, s := bus.Get(status);
      status := s;
      if !ok {
        return;
      }
      var cell := Cell(status.address);
      var row := cell / 256;
      match status.request {
        case Read =>
          exit := OnReadRequest(now, cell, row, m.source);
          if exit.Some? {
            return;
          }
        case Write =>
          OnWriteRequest(cell);
        case Undefined =>
          exit := Some(1);
          return;
      }
      lastRow := row;
      if firstAccess {
        firstAccess := !firstAccess;
      }
      servedAt := servedAt + [now];
    }
  }
}
