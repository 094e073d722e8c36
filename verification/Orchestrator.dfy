// The event kernel in its own form: module objects that buffer what they send,
// and a system object that owns the modules and the event queue.  Every method
// is tied to the kernel on values.
module Orchestrator {
  import opened Scheduler

  class MessageIds {
    var last: nat

    constructor ()
      ensures last == 0
    {
      last := 0;
    }
  }

  class Module<W> {
    const name: Name
    const priority: int
    const onNotify: Handler<W>
    var currentTime: int
    var events: seq<Event>

    constructor (name: Name, priority: int, onNotify: Handler<W>)
      ensures this.name == name && this.priority == priority && this.onNotify == onNotify
      ensures currentTime == 0 && events == []
    {
      this.name, this.priority, this.onNotify := name, priority, onNotify;
      currentTime, events := 0, [];
    }

    ghost function Box(ids: MessageIds): Outbox
      reads this, ids
    {
      Outbox(events, ids.last)
    }

    method SendWithDelay(ids: MessageIds, m: Message, delay: int)
      modifies this`events, ids
      ensures Box(ids) == SendOne(old(Box(ids)), currentTime, Send(m, delay))
      ensures delay < 0 ==> events == old(events) && ids.last == old(ids.last)
      ensures delay >= 0 ==>
        && ids.last == old(ids.last) + 1
        && events == old(events) + [Event(currentTime + delay, m.(id := ids.last))]
    {
      if delay < 0 {
        return;
      }
      ids.last := ids.last + 1;
      events := events + [Event(currentTime + delay, m.(id := ids.last))];
    }

    method Initialize() returns (result: seq<Event>)
      modifies this`events
      ensures result == old(events) && events == []
    {
      result := events;
      events := [];
    }

    method Notify(ids: MessageIds, w: W, e: Event) returns (a: Reaction<W>, result: seq<Event>)
      modifies this, ids
      ensures a == onNotify(w, e.time, e.m)
      ensures Outbox(result, ids.last) == SendAll(old(Box(ids)), e.time, a.sends)
      ensures currentTime == e.time && events == []
    {
      currentTime := e.time;
      a := onNotify(w, e.time, e.m);
      var i := 0;
      while i < |a.sends|
        invariant 0 <= i <= |a.sends|
        invariant currentTime == e.time
        invariant Box(ids) == SendAll(old(Box(ids)), e.time, a.sends[..i])
      {
        assert a.sends[..i + 1][..i] == a.sends[..i];
        SendWithDelay(ids, a.sends[i].m, a.sends[i].delay);
        i := i + 1;
      }
      assert a.sends[..i] == a.sends;
      result := events;
      events := [];
    }
  }

  function Reversed<T>(s: seq<T>): seq<T> {
    if s == [] then [] else [s[|s| - 1]] + Reversed(s[..|s| - 1])
  }

  lemma {:induction false} ReversedConcat<T>(a: seq<T>, b: seq<T>)
    ensures Reversed(a + b) == Reversed(b) + Reversed(a)
  {
    if b == [] {
      assert a + b == a;
    } else {
      assert (a + b)[..|a + b| - 1] == a + b[..|b| - 1];
      ReversedConcat(a, b[..|b| - 1]);
    }
  }

  lemma {:induction false} ReversedTwice<T>(s: seq<T>)
    ensures Reversed(Reversed(s)) == s
  {
    if s != [] {
      var front, last := s[..|s| - 1], [s[|s| - 1]];
      assert Reversed(last) == last;
      ReversedConcat(last, Reversed(front));
      ReversedTwice(front);
    }
  }

  lemma InsertionOrderSnoc(batches: seq<seq<Event>>, b: seq<Event>)
    ensures InsertionOrder(batches + [b]) == b + InsertionOrder(batches)
  {
  }

  lemma AcceptedSnoc(es: seq<Event>, e: Event, now: int)
    ensures Accepted(es + [e], now) == Accepted(es, now) + if e.time >= now then [e] else []
  {
  }

  ghost function Handlers<W>(modules: seq<Module<W>>): (hs: seq<Handler<W>>)
    ensures |hs| == |modules|
    ensures forall k :: 0 <= k < |hs| ==> hs[k] == modules[k].onNotify
  {
    seq(|modules|, k requires 0 <= k < |modules| => modules[k].onNotify)
  }

  ghost predicate ByPriority<W>(modules: seq<Module<W>>) {
    forall j, k :: 0 <= j < k < |modules| ==> modules[j].priority >= modules[k].priority
  }

  lemma MultisetInsert<T>(a: seq<T>, m: T, b: seq<T>)
    ensures multiset(a + [m] + b) == multiset(a + b) + multiset{m}
  {
  }

  lemma PlacedByPriority<W>(ms: seq<Module<W>>, i: nat, m: Module<W>)
    requires i <= |ms| && ByPriority(ms)
    requires i > 0 ==> ms[i - 1].priority >= m.priority
    requires forall k :: i <= k < |ms| ==> ms[k].priority < m.priority
    ensures ByPriority(ms[..i] + [m] + ms[i..])
  {
  }

  lemma RoundWith<W>(r: Round<W>, h: Handler<W>, e: Event, sent: seq<Event>, lastId: nat)
    requires !Stopped(r)
    requires Outbox(sent, lastId) == SendAll(Outbox([], r.lastId), e.time, h(r.world, e.time, e.m).sends)
    ensures var a := h(r.world, e.time, e.m);
      NotifyNext(r, h, e) == Round(a.world, lastId, r.batches + [sent], a.valid, a.exit)
    ensures Reversed(InsertionOrder(r.batches + [sent])) == Reversed(InsertionOrder(r.batches)) + Reversed(sent)
  {
    InsertionOrderSnoc(r.batches, sent);
    ReversedConcat(sent, InsertionOrder(r.batches));
  }

  lemma StoppedEarly<W>(hs: seq<Handler<W>>, i: nat, w: W, lastId: nat, e: Event)
    requires i == |hs| || (i < |hs| && Stopped(NotifyAll(hs[..i], w, lastId, e)))
    ensures var r0, r := NotifyAll(hs[..i], w, lastId, e), NotifyAll(hs, w, lastId, e);
      && r.world == r0.world && r.lastId == r0.lastId && r.exit == r0.exit
      && InsertionOrder(r.batches) == InsertionOrder(r0.batches)
  {
    if i < |hs| {
      assert hs[..i] + hs[i..] == hs;
      InterceptionSilencesTheRest(hs[..i], hs[i..], w, lastId, e);
    } else {
      assert hs[..i] == hs;
    }
  }

  // What the modules buffered before the loop, as it enters the queue: module
  // by module, each module's events back to front.
  function FirstEvents(buffered: seq<seq<Event>>, now: int): seq<Event> {
    if buffered == [] then []
    else FirstEvents(buffered[..|buffered| - 1], now) + Accepted(Reversed(buffered[|buffered| - 1]), now)
  }

  ghost function FirstModules<W>(modules: seq<Module<W>>, i: nat): set<Module<W>>
    requires i <= |modules|
  {
    set m | m in modules[..i]
  }

  // What each module hands over, if one that occurs again has nothing left.
  ghost function Buffers<W>(modules: seq<Module<W>>, was: map<Module<W>, seq<Event>>): (b: seq<seq<Event>>)
    requires forall m :: m in modules ==> m in was
    ensures |b| == |modules|
    ensures forall k :: 0 <= k < |b| ==> b[k] == if modules[k] in FirstModules(modules, k) then [] else was[modules[k]]
  {
    seq(|modules|, k requires 0 <= k < |modules| =>
      if modules[k] in FirstModules(modules, k) then [] else was[modules[k]])
  }

  lemma FirstModulesOfOneMore<W>(modules: seq<Module<W>>, i: nat)
    requires i < |modules|
    ensures FirstModules(modules, i + 1) == FirstModules(modules, i) + {modules[i]}
  {
    assert modules[..i + 1] == modules[..i] + [modules[i]];
  }

  lemma FirstEventsOfOneMore(before: seq<Event>, buffered: seq<seq<Event>>, i: nat, now: int)
    requires i < |buffered|
    ensures before + FirstEvents(buffered[..i], now) + Accepted(Reversed(buffered[i]), now)
         == before + FirstEvents(buffered[..i + 1], now)
  {
    assert buffered[..i + 1][..i] == buffered[..i];
  }

  // Moves a module's events over, as the vector yields them: last one first.
  method AppendBackToFront<T>(target: seq<T>, source: seq<T>) returns (r: seq<T>)
    ensures r == target + Reversed(source)
  {
    r := target;
    var rest := source;
    while |rest| > 0
      invariant target + Reversed(source) == r + Reversed(rest)
      decreases |rest|
    {
      r := r + [rest[|rest| - 1]];
      rest := rest[..|rest| - 1];
    }
    assert r + [] == r;
  }

  class System<W> {
    var modules: seq<Module<W>>
    var queue: seq<Event>
    var currentTime: int
    var world: W
    var exit: Option<int>
    const ids: MessageIds

    constructor (world: W, ids: MessageIds)
      ensures modules == [] && View() == Sim(0, ids.last, [], world, None) && this.ids == ids
    {
      modules, queue, currentTime, this.world, exit, this.ids := [], [], 0, world, None, ids;
    }

    ghost function View(): Sim<W>
      reads this, ids
    {
      Sim(currentTime, ids.last, queue, world, exit)
    }

    ghost predicate Drained()
      reads this, modules
    {
      forall k :: 0 <= k < |modules| ==> modules[k].events == []
    }

    method AddModule(m: Module<W>)
      requires ByPriority(modules)
      modifies this`modules
      ensures ByPriority(modules)
      ensures multiset(modules) == multiset(old(modules)) + multiset{m}
    {
      var i := |modules|;
      while i > 0 && modules[i - 1].priority < m.priority
        invariant 0 <= i <= |modules|
        invariant forall k :: i <= k < |modules| ==> modules[k].priority < m.priority
      {
        i := i - 1;
      }
      PlacedByPriority(modules, i, m);
      MultisetInsert(modules[..i], m, modules[i..]);
      assert modules[..i] + modules[i..] == modules;
      modules := modules[..i] + [m] + modules[i..];
    }

    method Insert(e: Event)
      modifies this`queue
      ensures queue == old(queue) + if e.time >= currentTime then [e] else []
    {
      if e.time >= currentTime {
        queue := queue + [e];
      }
    }

    method InsertBackToFront(es: seq<Event>)
      modifies this`queue
      ensures queue == old(queue) + Accepted(Reversed(es), currentTime)
    {
      var rest := es;
      ghost var done: seq<Event> := [];
      while |rest| > 0
        invariant Reversed(es) == done + Reversed(rest)
        invariant queue == old(queue) + Accepted(done, currentTime)
        decreases |rest|
      {
        var e := rest[|rest| - 1];
        AcceptedSnoc(done, e, currentTime);
        Insert(e);
        done := done + [e];
        rest := rest[..|rest| - 1];
      }
      assert done + [] == done;
    }

    // Some earliest event: which one is up to the heap.
    method Top() returns (i: nat)
      requires queue != []
      ensures IsTop(queue, i)
    {
      i := 0;
      var k := 1;
      while k < |queue|
        invariant i < k <= |queue|
        invariant forall j :: 0 <= j < k ==> queue[i].time <= queue[j].time
      {
        if queue[k].time < queue[i].time {
          i := k;
        }
        k := k + 1;
      }
    }

    // The state of a round over the first modules.
    ghost predicate Midway(r: Round<W>, valid: bool, newEvents: seq<Event>)
      reads this, ids, modules
    {
      && Drained()
      && world == r.world && ids.last == r.lastId && valid == r.valid && exit == r.exit
      && newEvents == Reversed(InsertionOrder(r.batches))
    }

    method NotifyOne(i: nat, e: Event, soFar: seq<Event>, ghost r: Round<W>)
      returns (valid: bool, newEvents: seq<Event>)
      requires i < |modules| && !Stopped(r) && Midway(r, true, soFar)
      modifies this`world, this`exit, modules, ids
      ensures Midway(NotifyNext(r, modules[i].onNotify, e), valid, newEvents)
    {
      var a, temp := modules[i].Notify(ids, world, e);
      world, valid, exit := a.world, a.valid, a.exit;
      newEvents := AppendBackToFront(soFar, temp);
      RoundWith(r, modules[i].onNotify, e, temp, ids.last);
    }

    // Shows the event to the modules in turn while its message is valid and
    // the process runs; what they emitted is returned last module first, each
    // module's events back to front.
    method NotifyAll(e: Event) returns (newEvents: seq<Event>)
      requires Drained() && exit.None?
      modifies this`world, this`exit, modules, ids
      ensures Drained()
      ensures var r := Scheduler.NotifyAll(Handlers(modules), old(world), old(ids.last), e);
        && world == r.world && ids.last == r.lastId && exit == r.exit
        && newEvents == Reversed(InsertionOrder(r.batches))
    {
      ghost var hs := Handlers(modules);
      ghost var r := Round(world, ids.last, [], e.m.valid, None);
      newEvents := [];
      var valid := e.m.valid;
      var i := 0;
      assert hs[..0] == [];
      while i < |modules| && valid && exit.None?
        invariant 0 <= i <= |modules|
        invariant r == Scheduler.NotifyAll(hs[..i], old(world), old(ids.last), e)
        invariant Midway(r, valid, newEvents)
        decreases |modules| - i
      {
        valid, newEvents := NotifyOne(i, e, newEvents, r);
        assert hs[..i + 1][..i] == hs[..i];
        r := NotifyNext(r, hs[i], e);
        i := i + 1;
      }
      StoppedEarly(hs, i, old(world), old(ids.last), e);
      assert hs == Handlers(modules);
    }

    // One step of the event loop.
    method Tick()
      requires Drained() && exit.None? && queue != []
      modifies this`queue, this`currentTime, this`world, this`exit, modules, ids
      ensures Drained()
      ensures exists i :: IsTop(old(queue), i) && View() == Scheduler.Tick(Handlers(modules), old(View()), i)
    {
      var i := Top();
      var e := queue[i];
      currentTime := e.time;
      var result := NotifyAll(e);
      if exit.Some? {
        return;
      }
      queue := queue[..i] + queue[i + 1..];
      ReversedTwice(InsertionOrder(Scheduler.NotifyAll(Handlers(modules), old(world), old(ids.last), e).batches));
      InsertBackToFront(result);
    }

    ghost function Snapshot(): (s: map<Module<W>, seq<Event>>)
      reads this, modules
      ensures forall m :: m in modules ==> m in s && s[m] == m.events
    {
      map m: Module<W> | m in modules :: m.events
    }

    ghost function Buffered(): seq<seq<Event>>
      reads this, modules
    {
      Buffers(modules, Snapshot())
    }

    // The modules in `started` have been emptied, and the others are as they were.
    ghost predicate Started(started: set<Module<W>>, was: map<Module<W>, seq<Event>>)
      reads this, modules
    {
      forall m :: m in modules ==> m in was && m.events == if m in started then [] else was[m]
    }

    method EmptyOne(m: Module<W>, ghost started: set<Module<W>>, ghost was: map<Module<W>, seq<Event>>)
      requires m in modules && Started(started, was)
      modifies this`queue, m
      ensures Started(started + {m}, was)
      ensures queue == old(queue) + Accepted(Reversed(if m in started then [] else was[m]), currentTime)
    {
      var temp := m.Initialize();
      InsertBackToFront(temp);
    }

    // The state of Start after i modules.
    ghost predicate StartedUpTo(i: nat, was: map<Module<W>, seq<Event>>, before: seq<Event>)
      requires i <= |modules| && forall m :: m in modules ==> m in was
      reads this, modules
    {
      && Started(FirstModules(modules, i), was)
      && queue == before + FirstEvents(Buffers(modules, was)[..i], currentTime)
    }

    method StartOne(i: nat, ghost was: map<Module<W>, seq<Event>>, ghost before: seq<Event>)
      requires i < |modules| && (forall m :: m in modules ==> m in was) && StartedUpTo(i, was, before)
      modifies this`queue, modules[i]
      ensures StartedUpTo(i + 1, was, before)
    {
      EmptyOne(modules[i], FirstModules(modules, i), was);
      FirstModulesOfOneMore(modules, i);
      FirstEventsOfOneMore(before, Buffers(modules, was), i, currentTime);
    }

    lemma AllStarted(was: map<Module<W>, seq<Event>>, before: seq<Event>)
      requires (forall m :: m in modules ==> m in was) && StartedUpTo(|modules|, was, before)
      ensures Drained() && queue == before + FirstEvents(Buffers(modules, was), currentTime)
    {
      assert modules[..|modules|] == modules;
      assert Buffers(modules, was)[..|modules|] == Buffers(modules, was);
      forall k | 0 <= k < |modules|
        ensures modules[k].events == []
      {
        assert modules[k] in FirstModules(modules, |modules|);
      }
    }

    lemma NoneStarted()
      ensures StartedUpTo(0, Snapshot(), queue)
    {
      assert Buffers(modules, Snapshot())[..0] == [];
    }

    method StartAll(ghost was: map<Module<W>, seq<Event>>, ghost before: seq<Event>)
      requires (forall m :: m in modules ==> m in was) && StartedUpTo(0, was, before)
      modifies this`queue, modules
      ensures Drained() && queue == before + FirstEvents(Buffers(modules, was), currentTime)
    {
      var i := 0;
      while i < |modules|
        invariant 0 <= i <= |modules| && StartedUpTo(i, was, before)
      {
        StartOne(i, was, before);
        i := i + 1;
      }
      AllStarted(was, before);
    }

    // Puts the modules' first events into the queue.
    method Start()
      modifies this`queue, modules
      ensures Drained()
      ensures View() == old(View()).(queue := old(queue) + FirstEvents(old(Buffered()), currentTime))
    {
      NoneStarted();
      StartAll(Snapshot(), queue);
    }

    // The event loop, stopped after at most `fuel` ticks; `choices` is the run.
    method Loop(fuel: nat) returns (ghost choices: seq<nat>)
      requires exit.None? && Drained()
      modifies this`queue, this`currentTime, this`world, this`exit, modules, ids
      ensures Legal(Handlers(modules), old(View()), choices) && |choices| <= fuel
      ensures View() == After(Handlers(modules), old(View()), choices)
      ensures |choices| == fuel || queue == [] || exit.Some?
    {
      ghost var start, hs := View(), Handlers(modules);
      choices := [];
      var ticks := 0;
      while ticks < fuel && queue != [] && exit.None?
        invariant ticks == |choices| <= fuel && Drained()
        invariant Legal(hs, start, choices) && View() == After(hs, start, choices)
        decreases fuel - ticks
      {
        ghost var before := View();
        Tick();
        ghost var top: nat :| IsTop(before.queue, top) && View() == Scheduler.Tick(hs, before, top);
        RunOneMore(hs, start, choices, top);
        choices := choices + [top];
        ticks := ticks + 1;
      }
    }

    // The whole simulation.
    method Run(fuel: nat) returns (ghost start: Sim<W>, ghost choices: seq<nat>)
      requires exit.None?
      modifies this`queue, this`currentTime, this`world, this`exit, modules, ids
      ensures start == old(View()).(queue := old(queue) + FirstEvents(old(Buffered()), old(currentTime)))
      ensures Legal(Handlers(modules), start, choices) && |choices| <= fuel
      ensures View() == After(Handlers(modules), start, choices)
      ensures |choices| == fuel || queue == [] || exit.Some?
    {
      Start();
      start := View();
      choices := Loop(fuel);
    }
  }
}
