// The main bus: one slot holding a request, an address and a data word, and
// a busy line.  A component may drive the lines only while the bus is idle,
// and may sample them only while it is busy; sampling frees the slot.
module MainBus {

  type Address = x: nat | x < 0x1_0000
  type Word = x: nat | x < 0x1_0000_0000

  datatype Request = Read | Write | Undefined

  datatype BusStatus = BusStatus(request: Request, address: Address, data: Word)

  datatype BusState = BusState(busy: bool, lines: BusStatus)

  // ----- the two bus operations, on values -----

  function Put(b: BusState, s: BusStatus): BusState {
    if b.busy then b else BusState(true, s)
  }

  // The status a component holds after trying to sample the bus.
  function Sampled(b: BusState, s: BusStatus): BusStatus {
    if b.busy then b.lines else s
  }

  function Release(b: BusState): BusState {
    b.(busy := false)
  }

  class Bus {
    var busy: bool
    var request: Request
    var address: Address
    var data: Word

    ghost function View(): BusState
      reads this
    {
      BusState(busy, BusStatus(request, address, data))
    }

    constructor ()
      ensures !View().busy && View().lines.request == Undefined
    {
      request := Undefined;
      busy := false;
    }

    method Set(s: BusStatus) returns (ok: bool)
      modifies this
      ensures ok == !old(busy)
      ensures View() == Put(old(View()), s)
      ensures if ok then busy && BusStatus(request, address, data) == s else View() == old(View())
    {
      if busy {
        return false;
      }
      request := s.request;
      address := s.address;
      data := s.data;
      busy := true;
      return true;
    }

    method Get(s: BusStatus) returns (ok: bool, t: BusStatus)
      modifies this
      ensures ok == old(busy)
      ensures t == Sampled(old(View()), s)
      ensures View() == Release(old(View()))
      ensures t == if ok then BusStatus(request, address, data) else s
      ensures !busy && request == old(request) && address == old(address) && data == old(data)
    {
      if !busy {
        return false, s;
      }
      t := BusStatus(request, address, data);
      busy := false;
      return true, t;
    }
  }

  // ----- the handshake over every sequence of calls -----

  datatype BusCall = CallSet(s: BusStatus) | CallGet

  // What a sequence of calls achieved: the statuses driven by the successful
  // sets and those returned by the successful gets, in order.
  datatype Transfer = Transfer(bus: BusState, driven: seq<BusStatus>, sampled: seq<BusStatus>)

  function Perform(b: BusState, calls: seq<BusCall>): Transfer {
    if calls == [] then
      Transfer(b, [], [])
    else
      var t := Perform(b, calls[..|calls| - 1]);
      match calls[|calls| - 1]
      case CallSet(s) =>
        Transfer(Put(t.bus, s), if t.bus.busy then t.driven else t.driven + [s], t.sampled)
      case CallGet =>
        Transfer(Release(t.bus), t.driven, if t.bus.busy then t.sampled + [t.bus.lines] else t.sampled)
  }

  // However components interleave their calls, nothing driven on the bus is
  // lost, duplicated or reordered: the sampled statuses are the driven ones in
  // order, and exactly one driven status is outstanding while the bus is busy.
  lemma {:induction false} HandshakeIsOneSlotQueue(b: BusState, calls: seq<BusCall>)
    requires !b.busy
    ensures var t := Perform(b, calls);
      t.driven == t.sampled + (if t.bus.busy then [t.bus.lines] else [])
  {
    if calls != [] {
      HandshakeIsOneSlotQueue(b, calls[..|calls| - 1]);
    }
  }
}
