// Laws of the cache over whole traces.
module CacheLaws {
  import opened Bits
  import opened CacheSets
  import opened CacheSpec
  import opened CacheOperations
  import opened CacheLedger

  // ----- an indexed lookup finds what a full search would find -----

  ghost predicate NonzeroOnce(q: seq<Tag>) {
    forall j, k :: 0 <= j < k < |q| && q[j] == q[k] ==> q[j] == 0
  }

  ghost predicate EachOnce(g: Geometry, sets: seq<SetState>) {
    ValidSets(g, sets) && forall i :: 0 <= i < NumSets(g) ==> NonzeroOnce(Queue(sets[i]))
  }

  lemma TouchKeepsOnce(g: Geometry, sets: seq<SetState>, tag: Tag, kind: AccessType)
    requires EachOnce(g, sets)
    ensures EachOnce(g, Touch(g, sets, tag, kind).sets)
  {
    SetIndexIsRemainder(g, tag);
    var s := sets[SetIndexOf(g, tag)];
    FindSearchesQueue(s, tag);
    ReplaceIsFirstInFirstOut(s, tag);
  }

  lemma {:induction false} TouchAllKeepsOnce(g: Geometry, sets: seq<SetState>, tags: seq<Tag>, kind: AccessType)
    requires EachOnce(g, sets)
    ensures EachOnce(g, TouchAll(g, sets, tags, kind).sets)
    decreases |tags|
  {
    if tags != [] {
      TouchAllKeepsOnce(g, sets, tags[..|tags| - 1], kind);
      TouchKeepsOnce(g, TouchAll(g, sets, tags[..|tags| - 1], kind).sets, tags[|tags| - 1], kind);
    }
  }

  lemma PerformKeepsOnce(g: Geometry, c: CacheState, op: Operation)
    requires EachOnce(g, c.sets) && Admissible(g, |c.sets|, op)
    ensures EachOnce(g, Perform(g, c, op).state.sets)
  {
    match op
    case Flush =>
      forall i | 0 <= i < NumSets(g)
        ensures NonzeroOnce(Queue(Perform(g, c, op).state.sets[i]))
      {
        FlushEmptiesQueue(c.sets[i]);
      }
    case ResetStats =>
    case _ => TouchAllKeepsOnce(g, c.sets, LinesOf(g, op), op.kind);
  }

  // In every state a trace leads to, no nonzero tag occurs twice in a set.
  lemma {:induction false} TagsOccurOnce(g: Geometry, c: CacheState, ops: seq<Operation>)
    requires EachOnce(g, c.sets) && AllAdmissible(g, |c.sets|, ops)
    ensures EachOnce(g, RunCache(g, c, ops).state.sets)
    decreases |ops|
  {
    if ops != [] {
      TagsOccurOnce(g, c, ops[..|ops| - 1]);
      PerformKeepsOnce(g, RunCache(g, c, ops[..|ops| - 1]).state, ops[|ops| - 1]);
    }
  }

  lemma {:induction false} OfSetMembers(log: seq<Tag>, n: nat, i: nat)
    requires n > 0
    ensures forall t :: t in OfSet(log, n, i) <==> t in log && t % n == i
    decreases |log|
  {
    if log != [] {
      OfSetMembers(log[..|log| - 1], n, i);
      assert log == log[..|log| - 1] + [log[|log| - 1]];
    }
  }

  lemma WindowMembers(ways: nat, xs: seq<Tag>, t: Tag)
    requires t in Window(ways, xs) && t != 0
    ensures t in xs
  {
  }

  // After any trace from an empty cache, a nonzero tag occurs at most once in
  // the whole cache, and in the set its own bits name; so looking into that one
  // set, as the cache does, finds exactly what a search of the whole cache would.
  lemma IndexedLookupIsFullSearch(g: Geometry, ways: nat, c: CacheState, ops: seq<Operation>, tag: Tag)
    requires EmptyCache(g, ways, c) && AllAdmissible(g, |c.sets|, ops) && tag != 0
    ensures EachOnce(g, RunCache(g, c, ops).state.sets)
    ensures var sets := RunCache(g, c, ops).state.sets;
      && SetIndexOf(g, tag) == tag % NumSets(g) < NumSets(g) <= |sets|
      && (Holds(sets[SetIndexOf(g, tag)], tag) <==> exists i :: 0 <= i < NumSets(g) && tag in Queue(sets[i]))
      && forall i :: 0 <= i < NumSets(g) && tag in Queue(sets[i]) ==> i == tag % NumSets(g)
  {
    EmptyCacheAgrees(g, ways, c);
    CacheRefinesLedger(g, ways, c, Ledger([], c.stats), ops);
    TagsOccurOnce(g, c, ops);
    SetIndexIsRemainder(g, tag);
    var sets := RunCache(g, c, ops).state.sets;
    var log := RunLedger(g, ways, Ledger([], c.stats), ops).ledger.log;
    FindSearchesQueue(sets[SetIndexOf(g, tag)], tag);
    forall i | 0 <= i < NumSets(g) && tag in Queue(sets[i])
      ensures i == tag % NumSets(g)
    {
      WindowMembers(ways, OfSet(log, NumSets(g), i), tag);
      OfSetMembers(log, NumSets(g), i);
    }
  }

  // ----- compulsory misses only -----

  ghost predicate NoRepeats(xs: seq<Tag>) {
    forall j, k :: 0 <= j < k < |xs| ==> xs[j] != xs[k]
  }

  lemma {:induction false} OfSetKeepsNoRepeats(log: seq<Tag>, n: nat, i: nat)
    requires n > 0 && NoRepeats(log)
    ensures NoRepeats(OfSet(log, n, i))
    decreases |log|
  {
    if log != [] {
      var front, last := log[..|log| - 1], log[|log| - 1];
      OfSetKeepsNoRepeats(front, n, i);
      OfSetMembers(front, n, i);
      assert last !in front;
      AppendUnseen(OfSet(front, n, i), last);
    }
  }

  lemma AppendUnseen(xs: seq<Tag>, t: Tag)
    requires NoRepeats(xs) && t !in xs
    ensures NoRepeats(xs + [t])
  {
  }

  lemma {:induction false} NoRepeatsBound(xs: seq<Tag>, s: set<Tag>)
    requires NoRepeats(xs) && forall t :: t in xs ==> t in s
    ensures |xs| <= |s|
    decreases |xs|
  {
    if xs != [] {
      var last := xs[|xs| - 1];
      NoRepeatsBound(xs[..|xs| - 1], s - {last});
    }
  }

  lemma WindowHoldsAll(ways: nat, xs: seq<Tag>, t: Tag)
    requires |xs| <= ways && t in xs
    ensures t in Window(ways, xs)
  {
    var k :| 0 <= k < |xs| && xs[k] == t;
    assert Window(ways, xs)[ways - |xs| + k] == (Zeros(ways) + xs)[ways + k] == t;
  }

  // The tags of set i that single-line accesses ask for.
  ghost function TagsAskedFor(g: Geometry, ops: seq<Operation>, i: nat): set<Tag> {
    set k | 0 <= k < |ops| && ops[k].AccessSingleLine? && TagOf(g, ops[k].addr) % NumSets(g) == i ::
      TagOf(g, ops[k].addr)
  }

  ghost predicate AllAllocating(g: Geometry, ops: seq<Operation>) {
    forall k :: 0 <= k < |ops| ==> ops[k].AccessSingleLine? && ops[k].addr < Space(g) && Allocates(g, ops[k].kind)
  }

  ghost predicate FitsInSets(g: Geometry, ways: nat, ops: seq<Operation>) {
    forall i :: 0 <= i < NumSets(g) ==> |TagsAskedFor(g, ops, i)| <= ways
  }

  // Everything allocated so far was asked for, and is still resident.
  ghost predicate NothingEvicted(g: Geometry, ways: nat, log: seq<Tag>, ops: seq<Operation>) {
    && NoRepeats(log)
    && (forall t :: t in log ==> t in TagsAskedFor(g, ops, t % NumSets(g)))
  }

  lemma StillResident(g: Geometry, ways: nat, log: seq<Tag>, ops: seq<Operation>, t: Tag)
    requires NothingEvicted(g, ways, log, ops) && FitsInSets(g, ways, ops) && t in log
    ensures Resident(NumSets(g), ways, log, t)
  {
    var n, i := NumSets(g), t % NumSets(g);
    OfSetKeepsNoRepeats(log, n, i);
    OfSetMembers(log, n, i);
    NoRepeatsBound(OfSet(log, n, i), TagsAskedFor(g, ops, i));
    WindowHoldsAll(ways, OfSet(log, n, i), t);
  }

  lemma NoteSingle(g: Geometry, ways: nat, l: Ledger, op: Operation)
    requires ValidGeometry(g) && op.AccessSingleLine? && op.addr < Space(g)
    ensures var r, note := PerformOnLedger(g, ways, l, op), NoteOne(g, ways, l.log, TagOf(g, op.addr), op.kind);
      r.ledger.log == note.log && r.hit == note.hit
  {
    var tags := [TagOf(g, op.addr)];
    assert tags[..0] == [];
    assert NoteAll(g, ways, l.log, tags[..0], op.kind) == Note(l.log, true);
  }

  // What the first m accesses have left: nothing was evicted, whatever missed
  // was allocated, and no tag missed twice.
  ghost predicate MissedOnce(g: Geometry, ways: nat, all: seq<Operation>, m: nat, log: seq<Tag>, results: seq<bool>)
    requires m <= |all| && |results| == m && AllAllocating(g, all)
  {
    && NothingEvicted(g, ways, log, all)
    && (forall k :: 0 <= k < m && !results[k] ==> TagOf(g, all[k].addr) in log)
    && (forall j, k :: 0 <= j < k < m && !results[j] && !results[k] ==> TagOf(g, all[j].addr) != TagOf(g, all[k].addr))
  }

  lemma NothingEvictedStep(g: Geometry, ways: nat, all: seq<Operation>, log: seq<Tag>, m: nat)
    requires ValidGeometry(g) && m < |all| && AllAllocating(g, all) && FitsInSets(g, ways, all)
    requires NothingEvicted(g, ways, log, all)
    ensures var tag := TagOf(g, all[m].addr);
      var note := NoteOne(g, ways, log, tag, all[m].kind);
      && note.log == (if note.hit then log else log + [tag])
      && (!note.hit ==> tag !in log)
      && NothingEvicted(g, ways, note.log, all)
  {
    var tag := TagOf(g, all[m].addr);
    assert tag in TagsAskedFor(g, all, tag % NumSets(g));
    if tag in log {
      StillResident(g, ways, log, all, tag);
    } else {
      AppendUnseen(log, tag);
    }
  }

  lemma MissedOnceStep(g: Geometry, ways: nat, all: seq<Operation>, m: nat, log: seq<Tag>, results: seq<bool>)
    requires ValidGeometry(g) && m < |all| && |results| == m && AllAllocating(g, all) && FitsInSets(g, ways, all)
    requires MissedOnce(g, ways, all, m, log, results)
    ensures var note := NoteOne(g, ways, log, TagOf(g, all[m].addr), all[m].kind);
      MissedOnce(g, ways, all, m + 1, note.log, results + [note.hit])
  {
    NothingEvictedStep(g, ways, all, log, m);
  }

  lemma {:induction false} LedgerMissesOnce(g: Geometry, ways: nat, stats: Stats, all: seq<Operation>, m: nat)
    requires ValidGeometry(g) && ways > 0 && m <= |all|
    requires AllAllocating(g, all) && FitsInSets(g, ways, all)
    ensures AllAdmissible(g, NumSets(g) + 1, all[..m])
    ensures var r := RunLedger(g, ways, Ledger([], stats), all[..m]);
      MissedOnce(g, ways, all, m, r.ledger.log, r.results)
    decreases m
  {
    if m > 0 {
      LedgerMissesOnce(g, ways, stats, all, m - 1);
      assert all[..m][..m - 1] == all[..m - 1];
      var before := RunLedger(g, ways, Ledger([], stats), all[..m - 1]);
      NoteSingle(g, ways, before.ledger, all[m - 1]);
      MissedOnceStep(g, ways, all, m - 1, before.ledger.log, before.results);
    }
  }

  // From an empty cache, a trace of allocating single-line accesses that asks
  // for no more tags of each set than the set has ways misses on each tag at
  // most once.
  lemma CompulsoryMissesOnly(g: Geometry, ways: nat, c: CacheState, ops: seq<Operation>, j: nat, k: nat)
    requires EmptyCache(g, ways, c) && AllAllocating(g, ops) && FitsInSets(g, ways, ops) && j < k < |ops|
    requires TagOf(g, ops[j].addr) == TagOf(g, ops[k].addr)
    ensures AllAdmissible(g, |c.sets|, ops)
    ensures RunCache(g, c, ops).results[j] || RunCache(g, c, ops).results[k]
  {
    assert ops[..|ops|] == ops;
    LedgerMissesOnce(g, ways, c.stats, ops, |ops|);
    EmptyCacheAgrees(g, ways, c);
    CacheRefinesLedger(g, ways, c, Ledger([], c.stats), ops);
  }

  // ----- repeating a load -----

  ghost predicate OwnSets(g: Geometry, tags: seq<Tag>) {
    forall j, k :: 0 <= j < k < |tags| ==> tags[j] % NumSets(g) != tags[k] % NumSets(g)
  }

  ghost predicate HeldAll(g: Geometry, sets: seq<SetState>, tags: seq<Tag>)
    requires ValidSets(g, sets)
  {
    forall k :: 0 <= k < |tags| ==> tags[k] % NumSets(g) < |sets| && Holds(sets[tags[k] % NumSets(g)], tags[k])
  }

  lemma LoadHolds(g: Geometry, sets: seq<SetState>, front: seq<Tag>, tag: Tag)
    requires ValidSets(g, sets) && HeldAll(g, sets, front) && OwnSets(g, front + [tag])
    ensures HeldAll(g, Touch(g, sets, tag, Load).sets, front + [tag])
  {
    SetIndexIsRemainder(g, tag);
    var i, after := tag % NumSets(g), Touch(g, sets, tag, Load).sets;
    ReplaceIsFirstInFirstOut(sets[i], tag);
    FindSearchesQueue(Replaced(sets[i], tag), tag);
    assert Holds(after[i], tag);
    forall k | 0 <= k < |front|
      ensures front[k] % NumSets(g) < |after| && Holds(after[front[k] % NumSets(g)], front[k])
    {
      assert (front + [tag])[k] == front[k] && (front + [tag])[|front|] == tag;
    }
  }

  lemma {:induction false} LoadHoldsAll(g: Geometry, sets: seq<SetState>, tags: seq<Tag>)
    requires ValidSets(g, sets) && OwnSets(g, tags)
    ensures HeldAll(g, TouchAll(g, sets, tags, Load).sets, tags)
    decreases |tags|
  {
    if tags != [] {
      var front, tag := tags[..|tags| - 1], tags[|tags| - 1];
      LoadHoldsAll(g, sets, front);
      LoadHolds(g, TouchAll(g, sets, front, Load).sets, front, tag);
      assert tags == front + [tag];
    }
  }

  lemma {:induction false} HeldTagsHit(g: Geometry, sets: seq<SetState>, tags: seq<Tag>, kind: AccessType)
    requires ValidSets(g, sets) && HeldAll(g, sets, tags)
    ensures TouchAll(g, sets, tags, kind) == Lookup(sets, true)
    decreases |tags|
  {
    if tags != [] {
      HeldTagsHit(g, sets, tags[..|tags| - 1], kind);
      SetIndexIsRemainder(g, tags[|tags| - 1]);
    }
  }

  lemma {:induction false} MultiplesAreApart(p: nat, q: nat, n: nat)
    requires p < q
    ensures p * n + n <= q * n
    decreases q
  {
    assert (q - 1) * n + n == q * n;
    if p < q - 1 {
      MultiplesAreApart(p, q - 1, n);
    }
  }

  lemma CloseNumbersDiffer(a: nat, b: nat, n: nat)
    requires a < b < a + n
    ensures a % n != b % n
  {
    if a % n == b % n {
      var p, q := a / n, b / n;
      if p < q {
        MultiplesAreApart(p, q, n);
      } else if q < p {
        MultiplesAreApart(q, p, n);
      }
    }
  }

  lemma RemainderOfRemainder(x: nat, m: nat, n: nat)
    requires m > 0 && n > 0
    ensures x % (m * n) % n == x % n
  {
    var r := x % (m * n);
    var q := x / (m * n);
    assert x == q * (m * n) + r;
    assert q * (m * n) == (q * m) * n;
    DivModUnique(r, r / n, r % n, n);
    assert (q * m) * n + (r / n) * n == (q * m + r / n) * n;
    DivModUnique(x, q * m + r / n, r % n, n);
  }

  // Either number of lines and sets divides the other.
  lemma LinesAndSets(g: Geometry)
    requires ValidGeometry(g)
    ensures LineCount(g) < NumSets(g) || exists m: nat :: m > 0 && LineCount(g) == m * NumSets(g)
  {
    var k: nat :| NumSets(g) == Pow2(k);
    var w := g.width - g.lineShift;
    if w < k {
      PowersAreOrdered(w, k);
    } else {
      PowersAdd(w - k, k);
    }
  }

  // Close lines are in different sets.
  lemma LinesAfterInOwnSets(g: Geometry, first: Tag, j: nat, k: nat)
    requires ValidGeometry(g) && j < k < j + NumSets(g) && k < j + LineCount(g)
    ensures LineAfter(g, first, j) % NumSets(g) != LineAfter(g, first, k) % NumSets(g)
  {
    LinesAndSets(g);
    if LineCount(g) < NumSets(g) {
      CloseNumbersDiffer(first + j, first + k, LineCount(g));
      SmallMod(LineAfter(g, first, j), NumSets(g));
      SmallMod(LineAfter(g, first, k), NumSets(g));
    } else {
      var m: nat :| m > 0 && LineCount(g) == m * NumSets(g);
      RemainderOfRemainder(first + j, m, NumSets(g));
      RemainderOfRemainder(first + k, m, NumSets(g));
      CloseNumbersDiffer(first + j, first + k, NumSets(g));
    }
  }

  lemma VisitsInOwnSets(g: Geometry, addr: nat, high: nat)
    requires ValidGeometry(g) && addr < Space(g) && high + g.lineSize <= Space(g)
    requires |Visits(g, addr, high)| <= NumSets(g)
    ensures OwnSets(g, Visits(g, addr, high))
  {
    VisitsInOrder(g, addr, high);
    var v := Visits(g, addr, high);
    forall j, k | 0 <= j < k < |v|
      ensures v[j] % NumSets(g) != v[k] % NumSets(g)
    {
      LinesAfterInOwnSets(g, TagOf(g, addr), j, k);
    }
  }

  // Repeating a load of at most as many lines as there are sets returns true
  // and changes neither tags nor replacement pointers.
  lemma RepeatedLoadChangesNothing(g: Geometry, c: CacheState, addr: nat, size: nat)
    requires ValidSets(g, c.sets) && Admissible(g, |c.sets|, Access(addr, size, Load))
    requires |Visits(g, addr, HighAddress(g, addr, size))| <= NumSets(g)
    ensures var once := Perform(g, c, Access(addr, size, Load)).state;
      var twice := Perform(g, once, Access(addr, size, Load));
      twice.hit && twice.state == once.(stats := Counted(once.stats, Load, true))
  {
    var tags := Visits(g, addr, HighAddress(g, addr, size));
    VisitsInOwnSets(g, addr, HighAddress(g, addr, size));
    LoadHoldsAll(g, c.sets, tags);
    HeldTagsHit(g, TouchAll(g, c.sets, tags, Load).sets, tags, Load);
  }

  // ----- single lines, statistics -----

  lemma WithinOneLine(g: Geometry, addr: nat, size: nat)
    requires ValidGeometry(g) && addr < Space(g) && Stops(g, addr, size)
    requires LineIndexOf(g, addr) + size <= g.lineSize
    ensures Visits(g, addr, HighAddress(g, addr, size)) == [TagOf(g, addr)] <==>
      size > 0 || addr + g.lineSize != Space(g) || g.lineSize == Space(g)
  {
    SplitRoundTrip(g, addr);
    LineFits(g, addr);
    ModAtMost(addr + size, Space(g));
    var v, first := Visits(g, addr, HighAddress(g, addr, size)), TagOf(g, addr);
    InLastLineIff(g, addr);
    if addr + g.lineSize < Space(g) {
      VisitsUpwards(g, addr, addr + size);
      NextBase(g, first);
      if |v| > 1 {
        BelowLineBefore(g, first + 1, first + |v| - 1, addr + size);
      }
      assert v == [first];
    } else if addr + size == Space(g) {
      VisitsFromLastLine(g, addr, 0);
      if |v| > 1 {
        assert false;
      }
      assert v == [first];
    } else {
      EmptyAccessInLastLine(g, addr);
    }
  }

  // An access within one line that ends is a single-line access, unless it is
  // empty and at the start of the last line.
  lemma AccessWithinOneLine(g: Geometry, c: CacheState, addr: nat, size: nat, kind: AccessType)
    requires ValidSets(g, c.sets) && Admissible(g, |c.sets|, Access(addr, size, kind))
    requires LineIndexOf(g, addr) + size <= g.lineSize
    ensures LinesOf(g, Access(addr, size, kind)) == LinesOf(g, AccessSingleLine(addr, kind)) <==>
      size > 0 || addr + g.lineSize != Space(g) || g.lineSize == Space(g)
    ensures size > 0 || addr + g.lineSize != Space(g) || g.lineSize == Space(g) ==>
      Perform(g, c, Access(addr, size, kind)) == Perform(g, c, AccessSingleLine(addr, kind))
  {
    WithinOneLine(g, addr, size);
  }

  // Accesses since the last reset of the statistics.
  function CallsCounted(ops: seq<Operation>, before: nat): nat {
    if ops == [] then before
    else
      var n := CallsCounted(ops[..|ops| - 1], before);
      match ops[|ops| - 1]
      case Flush => n
      case ResetStats => 0
      case _ => n + 1
  }

  // Every access adds one to exactly one counter.
  lemma {:induction false} HitsPlusMisses(g: Geometry, c: CacheState, ops: seq<Operation>)
    requires ValidSets(g, c.sets) && AllAdmissible(g, |c.sets|, ops)
    ensures Accesses(RunCache(g, c, ops).state.stats) == CallsCounted(ops, Accesses(c.stats))
    decreases |ops|
  {
    if ops != [] {
      HitsPlusMisses(g, c, ops[..|ops| - 1]);
    }
  }
}
