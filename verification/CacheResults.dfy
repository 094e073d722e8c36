// What the operations of the cache return and leave behind, said of addresses,
// lines and the queues of the sets alone.
module CacheResults {
  import opened Bits
  import opened CacheSets
  import opened CacheSpec
  import opened CacheOperations
  import opened CacheLedger
  import opened CacheLaws

  // ----- one line -----

  // The set a line belongs to.
  function SetOf(g: Geometry, t: Tag): (i: nat)
    ensures i < NumSets(g)
  {
    t % NumSets(g)
  }

  // What looking up tag t leaves of its set: on a hit everything, and on a miss
  // everything but the oldest tag, unless it is a store that does not allocate.
  ghost predicate SetAfter(g: Geometry, before: SetState, after: SetState, t: Tag, kind: AccessType)
    requires ValidSet(before) && ValidSet(after)
  {
    if t in Queue(before) || (kind.Store? && !g.storeAllocate) then after == before
    else Queue(after) == Queue(before)[1..] + [t]
  }

  lemma HeldAfter(g: Geometry, before: SetState, after: SetState, t: Tag, kind: AccessType)
    requires ValidSet(before) && ValidSet(after) && SetAfter(g, before, after, t, kind)
    requires kind.Load? || g.storeAllocate
    ensures t in Queue(after)
  {
    assert t in Queue(before) || Queue(after)[|Queue(after)| - 1] == t;
  }

  lemma TouchResult(g: Geometry, sets: seq<SetState>, t: Tag, kind: AccessType)
    requires ValidSets(g, sets)
    ensures var r, i := Touch(g, sets, t, kind), SetOf(g, t);
      && r.hit == (t in Queue(sets[i]))
      && SetAfter(g, sets[i], r.sets[i], t, kind)
      && forall j :: 0 <= j < |sets| && j != i ==> r.sets[j] == sets[j]
  {
    SetIndexIsRemainder(g, t);
    FindSearchesQueue(sets[SetOf(g, t)], t);
    ReplaceIsFirstInFirstOut(sets[SetOf(g, t)], t);
  }

  // A single-line access is to line addr / lineSize, and to the set that line
  // belongs to.
  lemma SingleLineResult(g: Geometry, c: CacheState, addr: nat, kind: AccessType)
    requires ValidSets(g, c.sets) && addr < Space(g)
    ensures var r, t := Perform(g, c, AccessSingleLine(addr, kind)), addr / g.lineSize;
      var i := SetOf(g, t);
      && r.hit == (t in Queue(c.sets[i]))
      && SetAfter(g, c.sets[i], r.state.sets[i], t, kind)
      && (kind.Load? || g.storeAllocate ==> t in Queue(r.state.sets[i]))
      && forall j :: 0 <= j < |c.sets| && j != i ==> r.state.sets[j] == c.sets[j]
  {
    var t := TagOf(g, addr);
    ShiftIsDivision(addr, g.lineShift);
    TouchOneLine(g, c.sets, t, kind);
    TouchResult(g, c.sets, t, kind);
    var after := Perform(g, c, AccessSingleLine(addr, kind)).state.sets;
    if kind.Load? || g.storeAllocate {
      HeldAfter(g, c.sets[SetOf(g, t)], after[SetOf(g, t)], t, kind);
    }
  }

  lemma {:induction false} StoresTouchNothing(g: Geometry, sets: seq<SetState>, tags: seq<Tag>)
    requires ValidSets(g, sets) && !g.storeAllocate
    ensures TouchAll(g, sets, tags, Store).sets == sets
    decreases |tags|
  {
    if tags != [] {
      StoresTouchNothing(g, sets, tags[..|tags| - 1]);
    }
  }

  // Without store allocation no store changes any set.
  lemma StoresChangeNoSet(g: Geometry, c: CacheState, op: Operation)
    requires ValidSets(g, c.sets) && Admissible(g, |c.sets|, op) && !g.storeAllocate
    requires (op.Access? || op.AccessSingleLine?) && op.kind == Store
    ensures Perform(g, c, op).state.sets == c.sets
  {
    StoresTouchNothing(g, c.sets, LinesOf(g, op));
  }

  // ----- several lines -----

  // Looking up lines of different sets: a hit if all were held, and each set as
  // its own line leaves it.
  ghost predicate LookedUp(g: Geometry, before: seq<SetState>, after: Lookup, tags: seq<Tag>, kind: AccessType)
    requires ValidSets(g, before) && ValidSets(g, after.sets) && |before| == |after.sets|
  {
    && (after.hit <==> forall t :: t in tags ==> t in Queue(before[SetOf(g, t)]))
    && (forall t :: t in tags ==> SetAfter(g, before[SetOf(g, t)], after.sets[SetOf(g, t)], t, kind))
    && OthersKept(g, before, after.sets, tags)
  }

  ghost predicate OthersKept(g: Geometry, before: seq<SetState>, after: seq<SetState>, tags: seq<Tag>)
    requires |before| == |after|
  {
    forall j :: 0 <= j < |before| && (forall t :: t in tags ==> SetOf(g, t) != j) ==> after[j] == before[j]
  }

  lemma LookedUpOneMore(
    g: Geometry, before: seq<SetState>, mid: Lookup, last: Lookup, front: seq<Tag>, t: Tag, kind: AccessType)
    requires ValidSets(g, before) && ValidSets(g, mid.sets) && ValidSets(g, last.sets)
    requires |before| == |mid.sets| == |last.sets| && LookedUp(g, before, mid, front, kind)
    requires forall u :: u in front ==> SetOf(g, u) != SetOf(g, t)
    requires last.hit == (t in Queue(mid.sets[SetOf(g, t)]))
    requires SetAfter(g, mid.sets[SetOf(g, t)], last.sets[SetOf(g, t)], t, kind)
    requires forall j :: 0 <= j < |before| && j != SetOf(g, t) ==> last.sets[j] == mid.sets[j]
    ensures LookedUp(g, before, Lookup(last.sets, mid.hit && last.hit), front + [t], kind)
  {
    assert mid.sets[SetOf(g, t)] == before[SetOf(g, t)];
  }

  ghost predicate Apart(g: Geometry, tags: seq<Tag>) {
    forall j, k :: 0 <= j < k < |tags| ==> SetOf(g, tags[j]) != SetOf(g, tags[k])
  }

  lemma ApartFromLast(g: Geometry, front: seq<Tag>, t: Tag)
    requires Apart(g, front + [t])
    ensures Apart(g, front)
    ensures forall u :: u in front ==> SetOf(g, u) != SetOf(g, t)
  {
    assert (front + [t])[|front|] == t;
    assert forall k :: 0 <= k < |front| ==> (front + [t])[k] == front[k];
  }

  lemma {:induction false} TouchAllResult(g: Geometry, sets: seq<SetState>, tags: seq<Tag>, kind: AccessType)
    requires ValidSets(g, sets) && Apart(g, tags)
    ensures LookedUp(g, sets, TouchAll(g, sets, tags, kind), tags, kind)
    decreases |tags|
  {
    if tags != [] {
      var front, t := tags[..|tags| - 1], tags[|tags| - 1];
      assert tags == front + [t];
      ApartFromLast(g, front, t);
      TouchAllResult(g, sets, front, kind);
      var mid := TouchAll(g, sets, front, kind);
      TouchResult(g, mid.sets, t, kind);
      LookedUpOneMore(g, sets, mid, Touch(g, mid.sets, t, kind), front, t, kind);
    }
  }

  // The lines an access meets.
  ghost function LinesMet(g: Geometry, addr: nat, size: nat): set<Tag>
    requires ValidGeometry(g)
  {
    set t: Tag | t < LineCount(g) && Meets(g, addr, size, t)
  }

  // Where an access that ends looks up just the lines it meets.
  predicate Regular(g: Geometry, addr: nat, size: nat) {
    && addr < Space(g) && size < Space(g) && Stops(g, addr, size)
    && if addr + size >= Space(g) then addr + g.lineSize >= Space(g)
       else addr + g.lineSize < Space(g) || g.lineSize == Space(g)
  }

  lemma {:induction false} NoRepeatsSize(xs: seq<Tag>, s: set<Tag>)
    requires NoRepeats(xs) && forall t :: t in s <==> t in xs
    ensures |s| == |xs|
    decreases |xs|
  {
    if xs == [] {
      assert s == {};
    } else {
      NoRepeatsSize(xs[..|xs| - 1], s - {xs[|xs| - 1]});
    }
  }

  lemma VisitsAreLinesMet(g: Geometry, addr: nat, size: nat)
    requires ValidGeometry(g) && Regular(g, addr, size)
    ensures var v := Visits(g, addr, HighAddress(g, addr, size));
      && (forall t :: t in v <==> Meets(g, addr, size, t))
      && (forall t :: t in v <==> t in LinesMet(g, addr, size))
      && |LinesMet(g, addr, size)| == |v|
  {
    var v := Visits(g, addr, HighAddress(g, addr, size));
    VisitsTheLinesMetIff(g, addr, size);
    VisitsInOrder(g, addr, HighAddress(g, addr, size));
    assert forall t: Tag :: t in v <==> Meets(g, addr, size, t);
    forall j, k | 0 <= j < k < |v|
      ensures v[j] != v[k]
    {
      CloseNumbersDiffer(TagOf(g, addr) + j, TagOf(g, addr) + k, LineCount(g));
    }
    NoRepeatsSize(v, LinesMet(g, addr, size));
  }

  // An access that meets at most as many lines as there are sets returns true
  // exactly if all of them were held, and changes each one's set, and no other,
  // as looking up that line alone does.
  lemma AccessResult(g: Geometry, c: CacheState, addr: nat, size: nat, kind: AccessType)
    requires ValidSets(g, c.sets) && Regular(g, addr, size)
    requires |LinesMet(g, addr, size)| <= NumSets(g)
    ensures var r := Perform(g, c, Access(addr, size, kind));
      && (r.hit <==> forall t: Tag :: Meets(g, addr, size, t) ==> t in Queue(c.sets[SetOf(g, t)]))
      && (forall t: Tag :: Meets(g, addr, size, t) ==>
            SetAfter(g, c.sets[SetOf(g, t)], r.state.sets[SetOf(g, t)], t, kind))
      && (forall j :: 0 <= j < |c.sets| && (forall t: Tag :: Meets(g, addr, size, t) ==> SetOf(g, t) != j) ==>
            r.state.sets[j] == c.sets[j])
  {
    var v := Visits(g, addr, HighAddress(g, addr, size));
    VisitsAreLinesMet(g, addr, size);
    VisitsInOwnSets(g, addr, HighAddress(g, addr, size));
    TouchAllResult(g, c.sets, v, kind);
  }

  // So a load, or a store that allocates, leaves all its lines held.
  lemma AccessLeavesLinesHeld(g: Geometry, c: CacheState, addr: nat, size: nat, kind: AccessType, t: Tag)
    requires ValidSets(g, c.sets) && Regular(g, addr, size)
    requires |LinesMet(g, addr, size)| <= NumSets(g)
    requires (kind.Load? || g.storeAllocate) && Meets(g, addr, size, t)
    ensures t in Queue(Perform(g, c, Access(addr, size, kind)).state.sets[SetOf(g, t)])
  {
    AccessResult(g, c, addr, size, kind);
    HeldAfter(g, c.sets[SetOf(g, t)], Perform(g, c, Access(addr, size, kind)).state.sets[SetOf(g, t)], t, kind);
  }

  // ----- an access is its single-line accesses -----

  ghost predicate AllTrue(results: seq<bool>) {
    forall k :: 0 <= k < |results| ==> results[k]
  }

  // Single-line accesses to the given lines.
  ghost predicate SingleLines(g: Geometry, ops: seq<Operation>, tags: seq<Tag>, kind: AccessType) {
    && |ops| == |tags|
    && forall k :: 0 <= k < |ops| ==>
         ops[k].AccessSingleLine? && ops[k].kind == kind && ops[k].addr < Space(g) && TagOf(g, ops[k].addr) == tags[k]
  }

  lemma {:induction false} RunOfSingleLines(
    g: Geometry, c: CacheState, ops: seq<Operation>, tags: seq<Tag>, kind: AccessType)
    requires ValidSets(g, c.sets) && SingleLines(g, ops, tags, kind)
    ensures AllAdmissible(g, |c.sets|, ops)
    ensures var r, all := RunCache(g, c, ops), TouchAll(g, c.sets, tags, kind);
      r.state.sets == all.sets && all.hit == AllTrue(r.results)
    decreases |ops|
  {
    if ops != [] {
      var n := |ops| - 1;
      RunOfSingleLines(g, c, ops[..n], tags[..n], kind);
      var before := RunCache(g, c, ops[..n]);
      TouchOneLine(g, before.state.sets, tags[n], kind);
      AllTrueOneMore(before.results, Perform(g, before.state, ops[n]).hit);
    }
  }

  lemma AllTrueOneMore(results: seq<bool>, last: bool)
    ensures AllTrue(results + [last]) == (AllTrue(results) && last)
  {
    if AllTrue(results + [last]) {
      assert forall k :: 0 <= k < |results| ==> (results + [last])[k] == results[k];
      assert (results + [last])[|results|] == last;
    }
  }

  // The line an operation accesses.
  function LineAt(g: Geometry, op: Operation): Tag
    requires op.AccessSingleLine? && g.lineSize > 0
  {
    op.addr / g.lineSize
  }

  // Any regular access, however many lines it meets, leaves the sets as do
  // single-line accesses to these lines, each once, in cyclic order from the
  // line of addr on, and returns true exactly if all of those do.
  lemma AccessIsSingleLines(g: Geometry, c: CacheState, addr: nat, size: nat, kind: AccessType)
    returns (ops: seq<Operation>)
    requires ValidSets(g, c.sets) && Regular(g, addr, size)
    ensures |ops| == |LinesMet(g, addr, size)|
    ensures forall k :: 0 <= k < |ops| ==>
      && ops[k].AccessSingleLine? && ops[k].kind == kind && ops[k].addr < Space(g)
      && LineAt(g, ops[k]) == LineAfter(g, addr / g.lineSize, k)
      && Meets(g, addr, size, LineAt(g, ops[k]))
    ensures AllAdmissible(g, |c.sets|, ops)
    ensures var r, all := RunCache(g, c, ops), Perform(g, c, Access(addr, size, kind));
      r.state.sets == all.state.sets && all.hit == AllTrue(r.results)
  {
    var v := Visits(g, addr, HighAddress(g, addr, size));
    VisitsAreLinesMet(g, addr, size);
    VisitsInOrder(g, addr, HighAddress(g, addr, size));
    ShiftIsDivision(addr, g.lineShift);
    ops := SingleLinesOf(g, TagOf(g, addr), v, kind);
    forall k | 0 <= k < |ops|
      ensures Meets(g, addr, size, LineAt(g, ops[k]))
    {
      assert v[k] in v;
    }
    RunOfSingleLines(g, c, ops, v, kind);
  }

  lemma SingleLinesOf(g: Geometry, first: Tag, v: seq<Tag>, kind: AccessType) returns (ops: seq<Operation>)
    requires ValidGeometry(g) && g.lineSize > 0 && forall k :: 0 <= k < |v| ==> v[k] == LineAfter(g, first, k)
    ensures SingleLines(g, ops, v, kind)
    ensures forall k :: 0 <= k < |ops| ==> LineAt(g, ops[k]) == v[k]
  {
    ops := seq(|v|, k requires 0 <= k < |v| => AccessSingleLine(Base(g, v[k]), kind));
    forall k | 0 <= k < |v|
      ensures ops[k].addr < Space(g) && TagOf(g, ops[k].addr) == LineAt(g, ops[k]) == v[k]
    {
      StartOfLine(g, first, k, v[k]);
    }
  }

  lemma StartOfLine(g: Geometry, first: Tag, k: nat, t: Tag)
    requires ValidGeometry(g) && t == LineAfter(g, first, k)
    ensures Base(g, t) < Space(g) && TagOf(g, Base(g, t)) == Base(g, t) / g.lineSize == t
  {
    LineEndsInSpace(g, t);
    TagOfBase(g, t);
    ShiftIsDivision(Base(g, t), g.lineShift);
  }

  // ----- flushes and statistics -----

  // A flush leaves zeros in the sets it reaches, and nothing else changes.
  lemma FlushResult(g: Geometry, c: CacheState)
    requires ValidSets(g, c.sets) && Admissible(g, |c.sets|, Flush)
    ensures var r := Perform(g, c, Flush).state;
      && r.stats == c.stats
      && forall i :: 0 <= i < |c.sets| ==>
           if NumSets(g) < 0x8000_0000 && i <= NumSets(g) then
             Ways(r.sets[i]) == Ways(c.sets[i]) && forall k :: 0 <= k < Ways(c.sets[i]) ==> Queue(r.sets[i])[k] == 0
           else r.sets[i] == c.sets[i]
  {
    FlushReaches(g, |c.sets|);
    forall i | 0 <= i < |c.sets|
      ensures Queue(Flushed(c.sets[i])) == Zeros(Ways(c.sets[i])) && Ways(Flushed(c.sets[i])) == Ways(c.sets[i])
    {
      FlushEmptiesQueue(c.sets[i]);
    }
  }

  // Operation number k is an access of the given kind and result, with no reset
  // after it.
  predicate Tallied(ops: seq<Operation>, results: seq<bool>, kind: AccessType, hit: bool, k: nat)
    requires |results| == |ops| && k < |ops|
  {
    && (ops[k].Access? || ops[k].AccessSingleLine?) && ops[k].kind == kind && results[k] == hit
    && forall j :: k < j < |ops| ==> !ops[j].ResetStats?
  }

  function Tally(ops: seq<Operation>, results: seq<bool>, kind: AccessType, hit: bool): set<nat>
    requires |results| == |ops|
  {
    set k: nat | k < |ops| && Tallied(ops, results, kind, hit, k)
  }

  ghost predicate Counts(ops: seq<Operation>, results: seq<bool>, kind: AccessType, hit: bool, before: nat, after: nat)
    requires |results| == |ops|
  {
    after == |Tally(ops, results, kind, hit)| + if ResetStats in ops then 0 else before
  }

  lemma TalliedOneMore(
    ops: seq<Operation>, op: Operation, results: seq<bool>, result: bool, kind: AccessType, hit: bool, k: nat)
    requires |results| == |ops| && k < |ops|
    ensures Tallied(ops + [op], results + [result], kind, hit, k) <==>
      Tallied(ops, results, kind, hit, k) && !op.ResetStats?
  {
    var all := ops + [op];
    if Tallied(all, results + [result], kind, hit, k) {
      assert !all[|ops|].ResetStats?;
      assert forall j :: k < j < |ops| ==> all[j] == ops[j];
    }
  }

  lemma TallyGrows(ops: seq<Operation>, op: Operation, results: seq<bool>, result: bool, kind: AccessType, hit: bool)
    requires |results| == |ops|
    ensures Tally(ops + [op], results + [result], kind, hit) ==
      (if op.ResetStats? then {} else Tally(ops, results, kind, hit))
      + if (op.Access? || op.AccessSingleLine?) && op.kind == kind && result == hit then {|ops|} else {}
  {
    var n, after := |ops|, Tally(ops + [op], results + [result], kind, hit);
    assert Tallied(ops + [op], results + [result], kind, hit, n) <==>
      (op.Access? || op.AccessSingleLine?) && op.kind == kind && result == hit;
    forall k: nat | k < n
      ensures k in after <==> !op.ResetStats? && k in Tally(ops, results, kind, hit)
    {
      TalliedOneMore(ops, op, results, result, kind, hit, k);
    }
  }

  lemma OneMoreTally(ops: seq<Operation>, op: Operation, results: seq<bool>, result: bool, kind: AccessType, hit: bool)
    requires |results| == |ops|
    ensures var before, after := Tally(ops, results, kind, hit), Tally(ops + [op], results + [result], kind, hit);
      if op.ResetStats? then after == {}
      else if op.Flush? then after == before
      else |after| == |before| + if op.kind == kind && result == hit then 1 else 0
  {
    TallyGrows(ops, op, results, result, kind, hit);
    assert |ops| !in Tally(ops, results, kind, hit);
  }

  // After any trace, each of the four counters is the number of accesses of its
  // kind that returned its result since the last reset; without a reset, these
  // come on top of what it was before.
  lemma {:induction false} StatisticsCount(g: Geometry, c: CacheState, ops: seq<Operation>)
    requires ValidSets(g, c.sets) && AllAdmissible(g, |c.sets|, ops)
    ensures var r := RunCache(g, c, ops);
      && Counts(ops, r.results, Load, true, c.stats.loadHits, r.state.stats.loadHits)
      && Counts(ops, r.results, Load, false, c.stats.loadMisses, r.state.stats.loadMisses)
      && Counts(ops, r.results, Store, true, c.stats.storeHits, r.state.stats.storeHits)
      && Counts(ops, r.results, Store, false, c.stats.storeMisses, r.state.stats.storeMisses)
    decreases |ops|
  {
    if ops != [] {
      var front, op := ops[..|ops| - 1], ops[|ops| - 1];
      assert ops == front + [op];
      StatisticsCount(g, c, front);
      var before := RunCache(g, c, front);
      var last := Perform(g, before.state, op);
      OneMoreTally(front, op, before.results, last.hit, Load, true);
      OneMoreTally(front, op, before.results, last.hit, Load, false);
      OneMoreTally(front, op, before.results, last.hit, Store, true);
      OneMoreTally(front, op, before.results, last.hit, Store, false);
    }
  }
}
