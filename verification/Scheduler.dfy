// The discrete-event kernel on values, for arbitrary modules.
//
// A module is its behaviour: a function from the shared state, the current
// time and a message to a reaction (new state, sends, whether the message is
// still valid, and an exit code if the module ended the process).
// The queue is kept in insertion order; which of several earliest events comes
// out first is left open, and a run is the list of queue positions chosen.
module Scheduler {

  datatype Option<+T> = None | Some(value: T)

  datatype Name = CPU | MEM | Other(title: string)

  datatype Message = Message(id: nat, valid: bool, timestamp: int, source: Name, dest: Name)

  datatype Event = Event(time: int, m: Message)

  datatype Send = Send(m: Message, delay: int)

  datatype Reaction<W> = Reaction(world: W, sends: seq<Send>, valid: bool, exit: Option<int>)

  type Handler<!W> = (W, int, Message) -> Reaction<W>

  datatype Sim<W> = Sim(now: int, lastId: nat, queue: seq<Event>, world: W, exit: Option<int>)

  // ----- one module: stamping and buffering its sends -----

  datatype Outbox = Outbox(events: seq<Event>, lastId: nat)

  function SendOne(o: Outbox, now: int, s: Send): Outbox {
    if s.delay < 0 then o
    else Outbox(o.events + [Event(now + s.delay, s.m.(id := o.lastId + 1))], o.lastId + 1)
  }

  function SendAll(o: Outbox, now: int, sends: seq<Send>): Outbox {
    if sends == [] then o
    else SendOne(SendAll(o, now, sends[..|sends| - 1]), now, sends[|sends| - 1])
  }

  // Sends that are not dropped get consecutive ids and are due after their delays.
  lemma {:induction false} AllAreStamped(o: Outbox, now: int, sends: seq<Send>)
    ensures (forall k :: 0 <= k < |sends| ==> sends[k].delay >= 0) ==>
      var r := SendAll(o, now, sends);
      && |r.events| == |o.events| + |sends| && r.lastId == o.lastId + |sends|
      && r.events[..|o.events|] == o.events
      && forall k :: 0 <= k < |sends| ==>
           r.events[|o.events| + k] == Event(now + sends[k].delay, sends[k].m.(id := o.lastId + k + 1))
  {
    if sends != [] {
      AllAreStamped(o, now, sends[..|sends| - 1]);
    }
  }

  // ----- notifying the modules in turn -----

  datatype Round<W> = Round(world: W, lastId: nat, batches: seq<seq<Event>>, valid: bool, exit: Option<int>)

  predicate Stopped<W>(r: Round<W>) {
    !r.valid || r.exit.Some?
  }

  function NotifyNext<W>(r: Round<W>, h: Handler<W>, e: Event): Round<W> {
    if Stopped(r) then
      r.(batches := r.batches + [[]])
    else
      var a := h(r.world, e.time, e.m);
      var o := SendAll(Outbox([], r.lastId), e.time, a.sends);
      Round(a.world, o.lastId, r.batches + [o.events], a.valid, a.exit)
  }

  function NotifyAll<W>(hs: seq<Handler<W>>, w: W, lastId: nat, e: Event): Round<W> {
    if hs == [] then
      Round(w, lastId, [], e.m.valid, None)
    else
      NotifyNext(NotifyAll(hs[..|hs| - 1], w, lastId, e), hs[|hs| - 1], e)
  }

  // The order in which one tick inserts what its modules emitted: each
  // module's events as emitted, modules in reverse notification order.
  function InsertionOrder(batches: seq<seq<Event>>): seq<Event> {
    if batches == [] then []
    else batches[|batches| - 1] + InsertionOrder(batches[..|batches| - 1])
  }

  // Events that pass the guard of insert.
  function Accepted(es: seq<Event>, now: int): seq<Event> {
    if es == [] then []
    else Accepted(es[..|es| - 1], now) +
         if es[|es| - 1].time >= now then [es[|es| - 1]] else []
  }

  // ----- one tick -----

  ghost predicate IsTop(q: seq<Event>, i: nat) {
    i < |q| && forall j :: 0 <= j < |q| ==> q[i].time <= q[j].time
  }

  // Among the earliest events, the one inserted first.
  ghost predicate IsOldestTop(q: seq<Event>, i: nat) {
    IsTop(q, i) && forall j :: 0 <= j < i ==> q[i].time < q[j].time
  }

  function Without(q: seq<Event>, i: nat): (r: seq<Event>)
    requires i < |q|
  {
    q[..i] + q[i + 1..]
  }

  // Everything the tick on queue position i emits, in insertion order.
  function Emitted<W>(hs: seq<Handler<W>>, s: Sim<W>, i: nat): seq<Event>
    requires i < |s.queue|
  {
    InsertionOrder(NotifyAll(hs, s.world, s.lastId, s.queue[i]).batches)
  }

  function Tick<W>(hs: seq<Handler<W>>, s: Sim<W>, i: nat): Sim<W>
    requires i < |s.queue|
  {
    var e := s.queue[i];
    var r := NotifyAll(hs, s.world, s.lastId, e);
    if r.exit.Some? then
      Sim(e.time, r.lastId, s.queue, r.world, r.exit)
    else
      Sim(e.time, r.lastId, Without(s.queue, i) + Accepted(InsertionOrder(r.batches), e.time), r.world, None)
  }

  // ----- runs -----

  ghost predicate Legal<W>(hs: seq<Handler<W>>, s: Sim<W>, choices: seq<nat>)
    decreases |choices|
  {
    choices == [] ||
    (s.exit.None? && IsTop(s.queue, choices[0]) && Legal(hs, Tick(hs, s, choices[0]), choices[1..]))
  }

  ghost function After<W>(hs: seq<Handler<W>>, s: Sim<W>, choices: seq<nat>): Sim<W>
    requires Legal(hs, s, choices)
    decreases |choices|
  {
    if choices == [] then s else After(hs, Tick(hs, s, choices[0]), choices[1..])
  }

  // The events a run takes out of the queue, in order.
  ghost function Processed<W>(hs: seq<Handler<W>>, s: Sim<W>, choices: seq<nat>): seq<Event>
    requires Legal(hs, s, choices)
    decreases |choices|
  {
    if choices == [] then []
    else [s.queue[choices[0]]] + Processed(hs, Tick(hs, s, choices[0]), choices[1..])
  }

  // The events a run's modules send, in order of insertion.
  ghost function Sent<W>(hs: seq<Handler<W>>, s: Sim<W>, choices: seq<nat>): seq<Event>
    requires Legal(hs, s, choices)
    decreases |choices|
  {
    if choices == [] then []
    else Emitted(hs, s, choices[0]) + Sent(hs, Tick(hs, s, choices[0]), choices[1..])
  }

  lemma {:induction false} LegalSplit<W>(hs: seq<Handler<W>>, s: Sim<W>, a: seq<nat>, b: seq<nat>)
    requires Legal(hs, s, a)
    requires Legal(hs, After(hs, s, a), b)
    ensures Legal(hs, s, a + b)
    ensures After(hs, s, a + b) == After(hs, After(hs, s, a), b)
    decreases |a|
  {
    if a == [] {
      assert a + b == b;
    } else {
      LegalSplit(hs, Tick(hs, s, a[0]), a[1..], b);
      assert (a + b)[1..] == a[1..] + b;
    }
  }

  lemma TickFirst<W>(hs: seq<Handler<W>>, s: Sim<W>, i: nat, rest: seq<nat>)
    requires s.exit.None? && IsTop(s.queue, i) && Legal(hs, Tick(hs, s, i), rest)
    ensures Legal(hs, s, [i] + rest)
    ensures After(hs, s, [i] + rest) == After(hs, Tick(hs, s, i), rest)
  {
    assert ([i] + rest)[1..] == rest;
  }

  lemma RunOneMore<W>(hs: seq<Handler<W>>, s: Sim<W>, choices: seq<nat>, i: nat)
    requires Legal(hs, s, choices)
    requires After(hs, s, choices).exit.None? && IsTop(After(hs, s, choices).queue, i)
    ensures Legal(hs, s, choices + [i])
    ensures After(hs, s, choices + [i]) == Tick(hs, After(hs, s, choices), i)
  {
    var t := After(hs, s, choices);
    assert [i][1..] == [];
    assert Legal(hs, t, [i]) && After(hs, t, [i]) == Tick(hs, t, i);
    LegalSplit(hs, s, choices, [i]);
  }

  // ----- causality: the guard of insert never rejects what a module sends -----

  ghost predicate NoneBefore(es: seq<Event>, now: int) {
    forall j :: 0 <= j < |es| ==> now <= es[j].time
  }

  lemma {:induction false} SendsAreNotBeforeNow(o: Outbox, now: int, sends: seq<Send>)
    requires NoneBefore(o.events, now)
    ensures NoneBefore(SendAll(o, now, sends).events, now)
  {
    if sends != [] {
      SendsAreNotBeforeNow(o, now, sends[..|sends| - 1]);
    }
  }

  lemma {:induction false} BatchesAreNotBeforeNow<W>(hs: seq<Handler<W>>, w: W, lastId: nat, e: Event)
    ensures |NotifyAll(hs, w, lastId, e).batches| == |hs|
    ensures forall k :: 0 <= k < |hs| ==> NoneBefore(NotifyAll(hs, w, lastId, e).batches[k], e.time)
  {
    if hs != [] {
      BatchesAreNotBeforeNow(hs[..|hs| - 1], w, lastId, e);
      var r := NotifyAll(hs[..|hs| - 1], w, lastId, e);
      if !Stopped(r) {
        SendsAreNotBeforeNow(Outbox([], r.lastId), e.time, hs[|hs| - 1](r.world, e.time, e.m).sends);
      }
    }
  }

  lemma {:induction false} InsertedAreNotBeforeNow(batches: seq<seq<Event>>, now: int)
    requires forall k :: 0 <= k < |batches| ==> NoneBefore(batches[k], now)
    ensures NoneBefore(InsertionOrder(batches), now)
  {
    if batches != [] {
      InsertedAreNotBeforeNow(batches[..|batches| - 1], now);
    }
  }

  lemma {:induction false} AcceptedKeepsAll(es: seq<Event>, now: int)
    requires NoneBefore(es, now)
    ensures Accepted(es, now) == es
  {
    if es != [] {
      AcceptedKeepsAll(es[..|es| - 1], now);
    }
  }

  // Whatever the modules do, everything they send in a tick is accepted.
  lemma GuardNeverRejects<W>(hs: seq<Handler<W>>, s: Sim<W>, i: nat)
    requires i < |s.queue|
    ensures NoneBefore(Emitted(hs, s, i), s.queue[i].time)
    ensures Accepted(Emitted(hs, s, i), s.queue[i].time) == Emitted(hs, s, i)
  {
    BatchesAreNotBeforeNow(hs, s.world, s.lastId, s.queue[i]);
    InsertedAreNotBeforeNow(NotifyAll(hs, s.world, s.lastId, s.queue[i]).batches, s.queue[i].time);
    AcceptedKeepsAll(Emitted(hs, s, i), s.queue[i].time);
  }

  ghost predicate Ascending(es: seq<Event>) {
    forall j, k :: 0 <= j < k < |es| ==> es[j].time <= es[k].time
  }

  lemma TickKeepsQueueAhead<W>(hs: seq<Handler<W>>, s: Sim<W>, i: nat)
    requires NoneBefore(s.queue, s.now) && IsTop(s.queue, i)
    ensures NoneBefore(Tick(hs, s, i).queue, Tick(hs, s, i).now)
    ensures s.now <= Tick(hs, s, i).now == s.queue[i].time
  {
    GuardNeverRejects(hs, s, i);
  }

  // Time never runs backwards, in any run of any modules.
  lemma {:induction false} Causality<W>(hs: seq<Handler<W>>, s: Sim<W>, choices: seq<nat>)
    requires NoneBefore(s.queue, s.now) && Legal(hs, s, choices)
    ensures Ascending(Processed(hs, s, choices))
    ensures NoneBefore(Processed(hs, s, choices), s.now)
    ensures NoneBefore(After(hs, s, choices).queue, After(hs, s, choices).now)
    ensures s.now <= After(hs, s, choices).now
    decreases |choices|
  {
    if choices != [] {
      TickKeepsQueueAhead(hs, s, choices[0]);
      Causality(hs, Tick(hs, s, choices[0]), choices[1..]);
    }
  }

  // ----- conservation -----

  lemma WithoutRemovesOne(q: seq<Event>, i: nat)
    requires i < |q|
    ensures multiset(q) == multiset(Without(q, i)) + multiset{q[i]}
  {
    assert q == q[..i] + [q[i]] + q[i + 1..];
  }

  lemma TopIsEarliest(q: seq<Event>, i: nat)
    requires IsTop(q, i)
    ensures q[i] in multiset(q)
    ensures forall x :: x in multiset(q) ==> q[i].time <= x.time
  {
  }

  // Taking one event out and adding others.
  lemma TakeAndAdd(q: seq<Event>, i: nat, rest: multiset<Event>, es: seq<Event>)
    requires i < |q| && multiset(q) == multiset{q[i]} + rest
    ensures multiset(Without(q, i) + es) == rest + multiset(es)
  {
    WithoutRemovesOne(q, i);
    var kept := multiset(Without(q, i));
    forall x
      ensures kept[x] == rest[x]
    {
      assert (kept + multiset{q[i]})[x] == (multiset{q[i]} + rest)[x];
    }
    assert kept == rest;
  }

  lemma TickConserves(q: seq<Event>, i: nat, es: seq<Event>, sent: seq<Event>, done: seq<Event>, left: multiset<Event>)
    requires i < |q|
    requires multiset(Without(q, i) + es) + multiset(sent) == multiset(done) + left
    ensures multiset(q) + multiset(es + sent) == multiset([q[i]] + done) + left
  {
    WithoutRemovesOne(q, i);
    var kept := multiset(Without(q, i));
    assert multiset(Without(q, i) + es) == kept + multiset(es);
    assert multiset(es + sent) == multiset(es) + multiset(sent);
    assert multiset([q[i]] + done) == multiset{q[i]} + multiset(done);
    calc {
      multiset(q) + multiset(es + sent);
      (kept + multiset{q[i]}) + (multiset(es) + multiset(sent));
      multiset{q[i]} + ((kept + multiset(es)) + multiset(sent));
      multiset{q[i]} + (multiset(done) + left);
    }
  }

  // No event is lost, invented or processed twice: as long as nobody ended the
  // process, initial plus sent events are the processed ones plus the queue.
  lemma {:induction false} Conservation<W>(hs: seq<Handler<W>>, s: Sim<W>, choices: seq<nat>)
    requires Legal(hs, s, choices) && After(hs, s, choices).exit.None?
    ensures multiset(s.queue) + multiset(Sent(hs, s, choices))
         == multiset(Processed(hs, s, choices)) + multiset(After(hs, s, choices).queue)
    decreases |choices|
  {
    if choices != [] {
      var i := choices[0];
      var t := Tick(hs, s, i);
      if t.exit.Some? {
        assert false;
      } else {
        GuardNeverRejects(hs, s, i);
        WithoutRemovesOne(s.queue, i);
        var es, rest := Emitted(hs, s, i), choices[1..];
        Conservation(hs, t, rest);
        TickConserves(s.queue, i, es, Sent(hs, t, rest), Processed(hs, t, rest), multiset(After(hs, t, rest).queue));
      }
    }
  }

  // ----- order of insertion and interception -----

  // As long as nobody invalidates the message or ends the process, the next
  // module reacts to the state the ones before it have left.
  lemma NextModuleReacts<W>(hs: seq<Handler<W>>, h: Handler<W>, w: W, lastId: nat, e: Event)
    requires NotifyAll(hs, w, lastId, e).valid && NotifyAll(hs, w, lastId, e).exit.None?
    ensures var r0, r := NotifyAll(hs, w, lastId, e), NotifyAll(hs + [h], w, lastId, e);
      var a := h(r0.world, e.time, e.m);
      var sent := SendAll(Outbox([], r0.lastId), e.time, a.sends);
      && r.world == a.world && r.valid == a.valid && r.exit == a.exit && r.lastId == sent.lastId
      && InsertionOrder(r.batches) == sent.events + InsertionOrder(r0.batches)
  {
    assert (hs + [h])[..|hs|] == hs;
    var r0 := NotifyAll(hs, w, lastId, e);
    var sent := SendAll(Outbox([], r0.lastId), e.time, h(r0.world, e.time, e.m).sends);
    assert (r0.batches + [sent.events])[..|r0.batches|] == r0.batches;
  }

  lemma EmptyBatchInsertsNothing(batches: seq<seq<Event>>)
    ensures InsertionOrder(batches + [[]]) == InsertionOrder(batches)
  {
  }

  // A message invalidated by a module is not shown to the modules after it:
  // they contribute nothing and leave the state alone.
  lemma {:induction false} InterceptionSilencesTheRest<W>(
    hs: seq<Handler<W>>, rest: seq<Handler<W>>, w: W, lastId: nat, e: Event)
    requires !NotifyAll(hs, w, lastId, e).valid || NotifyAll(hs, w, lastId, e).exit.Some?
    ensures var r0, r := NotifyAll(hs, w, lastId, e), NotifyAll(hs + rest, w, lastId, e);
      && r.world == r0.world && r.lastId == r0.lastId && r.exit == r0.exit
      && InsertionOrder(r.batches) == InsertionOrder(r0.batches)
      && Stopped(r)
    decreases |rest|
  {
    if rest == [] {
      assert hs + rest == hs;
    } else {
      var init := rest[..|rest| - 1];
      InterceptionSilencesTheRest(hs, init, w, lastId, e);
      assert (hs + rest)[..|hs + rest| - 1] == hs + init;
      EmptyBatchInsertsNothing(NotifyAll(hs + init, w, lastId, e).batches);
    }
  }
}
