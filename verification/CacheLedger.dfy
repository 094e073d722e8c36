// What the cache is, without arrays, pointers or bit operations: a ledger of
// the tags allocated since the last flush.  A line is resident exactly if its
// tag is among the last `ways` allocations into its set, the ledger starting
// with that many zero tags.
module CacheLedger {
  import opened CacheSets
  import opened CacheSpec
  import opened CacheOperations

  // The allocations into set i of n.
  function OfSet(log: seq<Tag>, n: nat, i: nat): seq<Tag>
    requires n > 0
  {
    if log == [] then []
    else
      var last := log[|log| - 1];
      OfSet(log[..|log| - 1], n, i) + if last % n == i then [last] else []
  }

  function Window(ways: nat, xs: seq<Tag>): (r: seq<Tag>)
    ensures |r| == ways
  {
    (Zeros(ways) + xs)[|xs|..]
  }

  predicate Resident(n: nat, ways: nat, log: seq<Tag>, tag: Tag)
    requires n > 0
  {
    tag in Window(ways, OfSet(log, n, tag % n))
  }

  datatype Note = Note(log: seq<Tag>, hit: bool)

  function NoteOne(g: Geometry, ways: nat, log: seq<Tag>, tag: Tag, kind: AccessType): Note {
    var hit := Resident(NumSets(g), ways, log, tag);
    Note(if !hit && Allocates(g, kind) then log + [tag] else log, hit)
  }

  function NoteAll(g: Geometry, ways: nat, log: seq<Tag>, tags: seq<Tag>, kind: AccessType): Note {
    if tags == [] then Note(log, true)
    else
      var before := NoteAll(g, ways, log, tags[..|tags| - 1], kind);
      var last := NoteOne(g, ways, before.log, tags[|tags| - 1], kind);
      Note(last.log, before.hit && last.hit)
  }

  datatype Ledger = Ledger(log: seq<Tag>, stats: Stats)

  datatype LedgerOutcome = LedgerOutcome(ledger: Ledger, hit: bool)

  function PerformOnLedger(g: Geometry, ways: nat, l: Ledger, op: Operation): LedgerOutcome
    requires ValidGeometry(g) && Admissible(g, NumSets(g) + 1, op)
  {
    match op
    case Flush => LedgerOutcome(if FlushedSets(g) == 0 then l else l.(log := []), true)
    case ResetStats => LedgerOutcome(l.(stats := NO_STATS), true)
    case _ =>
      var r := NoteAll(g, ways, l.log, LinesOf(g, op), op.kind);
      LedgerOutcome(Ledger(r.log, Counted(l.stats, op.kind, r.hit)), r.hit)
  }

  // ----- one operation -----

  ghost predicate Agrees(g: Geometry, ways: nat, sets: seq<SetState>, log: seq<Tag>) {
    && ValidSets(g, sets) && ways > 0
    && forall i :: 0 <= i < NumSets(g) ==> Queue(sets[i]) == Window(ways, OfSet(log, NumSets(g), i))
  }

  lemma WindowMoves(ways: nat, xs: seq<Tag>, t: Tag)
    requires ways > 0
    ensures Window(ways, xs + [t]) == Window(ways, xs)[1..] + [t]
  {
  }

  lemma OfSetSnoc(log: seq<Tag>, t: Tag, n: nat, i: nat)
    requires n > 0
    ensures OfSet(log + [t], n, i) == OfSet(log, n, i) + if t % n == i then [t] else []
  {
  }

  lemma TouchAgrees(g: Geometry, ways: nat, sets: seq<SetState>, log: seq<Tag>, tag: Tag, kind: AccessType)
    requires Agrees(g, ways, sets, log)
    ensures Touch(g, sets, tag, kind).hit == NoteOne(g, ways, log, tag, kind).hit
    ensures Agrees(g, ways, Touch(g, sets, tag, kind).sets, NoteOne(g, ways, log, tag, kind).log)
  {
    var n, i := NumSets(g), SetIndexOf(g, tag);
    SetIndexIsRemainder(g, tag);
    FindSearchesQueue(sets[i], tag);
    var r, note := Touch(g, sets, tag, kind), NoteOne(g, ways, log, tag, kind);
    if !r.hit && Allocates(g, kind) {
      ReplaceIsFirstInFirstOut(sets[i], tag);
      WindowMoves(ways, OfSet(log, n, i), tag);
      forall j | 0 <= j < n
        ensures Queue(r.sets[j]) == Window(ways, OfSet(note.log, n, j))
      {
        OfSetSnoc(log, tag, n, j);
        if j != i {
          assert OfSet(log, n, j) + [] == OfSet(log, n, j);
        }
      }
    }
  }

  lemma {:induction false} TouchAllAgrees(
    g: Geometry, ways: nat, sets: seq<SetState>, log: seq<Tag>, tags: seq<Tag>, kind: AccessType)
    requires Agrees(g, ways, sets, log)
    ensures TouchAll(g, sets, tags, kind).hit == NoteAll(g, ways, log, tags, kind).hit
    ensures Agrees(g, ways, TouchAll(g, sets, tags, kind).sets, NoteAll(g, ways, log, tags, kind).log)
    decreases |tags|
  {
    if tags != [] {
      var front := tags[..|tags| - 1];
      TouchAllAgrees(g, ways, sets, log, front, kind);
      var before, noted := TouchAll(g, sets, front, kind), NoteAll(g, ways, log, front, kind);
      TouchAgrees(g, ways, before.sets, noted.log, tags[|tags| - 1], kind);
    }
  }

  lemma FlushAgrees(g: Geometry, ways: nat, sets: seq<SetState>, log: seq<Tag>)
    requires Agrees(g, ways, sets, log) && FlushedSets(g) <= |sets|
    ensures ValidSets(g, FlushFirst(sets, FlushedSets(g)))
    ensures Agrees(g, ways, FlushFirst(sets, FlushedSets(g)), if FlushedSets(g) == 0 then log else [])
  {
    FlushReaches(g, |sets|);
    FlushKeepsValid(sets, FlushedSets(g));
    if FlushedSets(g) == 0 {
      assert FlushFirst(sets, 0) == sets;
    } else {
      assert Window(ways, OfSet([], NumSets(g), 0)) == Zeros(ways);
    }
  }

  lemma PerformAgrees(g: Geometry, ways: nat, c: CacheState, l: Ledger, op: Operation)
    requires Agrees(g, ways, c.sets, l.log) && c.stats == l.stats && Admissible(g, |c.sets|, op)
    ensures var r, note := Perform(g, c, op), PerformOnLedger(g, ways, l, op);
      r.hit == note.hit && r.state.stats == note.ledger.stats && Agrees(g, ways, r.state.sets, note.ledger.log)
  {
    match op
    case Flush => FlushAgrees(g, ways, c.sets, l.log);
    case ResetStats =>
    case _ => TouchAllAgrees(g, ways, c.sets, l.log, LinesOf(g, op), op.kind);
  }

  // ----- every trace -----

  ghost predicate AllAdmissible(g: Geometry, maxSets: nat, ops: seq<Operation>) {
    forall k :: 0 <= k < |ops| ==> Admissible(g, maxSets, ops[k])
  }

  datatype CacheRun = CacheRun(state: CacheState, results: seq<bool>)

  ghost function RunCache(g: Geometry, c: CacheState, ops: seq<Operation>): (r: CacheRun)
    requires ValidSets(g, c.sets) && AllAdmissible(g, |c.sets|, ops)
    ensures ValidSets(g, r.state.sets) && |r.state.sets| == |c.sets| && |r.results| == |ops|
  {
    if ops == [] then CacheRun(c, [])
    else
      var before := RunCache(g, c, ops[..|ops| - 1]);
      var last := Perform(g, before.state, ops[|ops| - 1]);
      CacheRun(last.state, before.results + [last.hit])
  }

  datatype LedgerRun = LedgerRun(ledger: Ledger, results: seq<bool>)

  ghost function RunLedger(g: Geometry, ways: nat, l: Ledger, ops: seq<Operation>): (r: LedgerRun)
    requires ValidGeometry(g) && AllAdmissible(g, NumSets(g) + 1, ops)
    ensures |r.results| == |ops|
  {
    if ops == [] then LedgerRun(l, [])
    else
      var before := RunLedger(g, ways, l, ops[..|ops| - 1]);
      var last := PerformOnLedger(g, ways, before.ledger, ops[|ops| - 1]);
      LedgerRun(last.ledger, before.results + [last.hit])
  }

  // The indexed cache returns what the ledger says, and counts the same hits
  // and misses, on every trace.
  lemma {:induction false} CacheRefinesLedger(g: Geometry, ways: nat, c: CacheState, l: Ledger, ops: seq<Operation>)
    requires Agrees(g, ways, c.sets, l.log) && c.stats == l.stats && AllAdmissible(g, |c.sets|, ops)
    ensures AllAdmissible(g, NumSets(g) + 1, ops)
    ensures var r, note := RunCache(g, c, ops), RunLedger(g, ways, l, ops);
      && r.results == note.results && r.state.stats == note.ledger.stats
      && Agrees(g, ways, r.state.sets, note.ledger.log)
    decreases |ops|
  {
    assert forall k :: 0 <= k < |ops| ==> Admissible(g, |c.sets|, ops[k]) ==> Admissible(g, NumSets(g) + 1, ops[k]);
    if ops != [] {
      var front := ops[..|ops| - 1];
      CacheRefinesLedger(g, ways, c, l, front);
      PerformAgrees(g, ways, RunCache(g, c, front).state, RunLedger(g, ways, l, front).ledger, ops[|ops| - 1]);
    }
  }

  // A cache as constructed or just flushed.
  ghost predicate EmptyCache(g: Geometry, ways: nat, c: CacheState) {
    && ValidSets(g, c.sets) && ways > 0
    && forall i :: 0 <= i < NumSets(g) ==> Queue(c.sets[i]) == Zeros(ways)
  }

  lemma EmptyCacheAgrees(g: Geometry, ways: nat, c: CacheState)
    requires EmptyCache(g, ways, c)
    ensures Agrees(g, ways, c.sets, [])
  {
  }

  // The replacement structure does not matter, only its size: direct-mapped
  // and one-way round-robin caches cannot be told apart, and neither can
  // round-robin caches with arrays of different capacity.
  lemma TraceEquivalence(g: Geometry, ways: nat, c: CacheState, d: CacheState, ops: seq<Operation>)
    requires EmptyCache(g, ways, c) && EmptyCache(g, ways, d) && c.stats == d.stats
    requires AllAdmissible(g, |c.sets|, ops) && AllAdmissible(g, |d.sets|, ops)
    ensures RunCache(g, c, ops).results == RunCache(g, d, ops).results
    ensures RunCache(g, c, ops).state.stats == RunCache(g, d, ops).state.stats
  {
    EmptyCacheAgrees(g, ways, c);
    EmptyCacheAgrees(g, ways, d);
    CacheRefinesLedger(g, ways, c, Ledger([], c.stats), ops);
    CacheRefinesLedger(g, ways, d, Ledger([], c.stats), ops);
  }
}
