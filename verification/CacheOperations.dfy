// The operations of the cache on values, and the cache object that performs
// them step by step.
module CacheOperations {
  import opened Bits
  import opened CacheSets
  import opened CacheSpec

  datatype AccessType = Load | Store

  datatype Stats = Stats(loadHits: nat, loadMisses: nat, storeHits: nat, storeMisses: nat)

  const NO_STATS := Stats(0, 0, 0, 0)

  function Counted(s: Stats, kind: AccessType, hit: bool): Stats {
    match (kind, hit)
    case (Load, true) => s.(loadHits := s.loadHits + 1)
    case (Load, false) => s.(loadMisses := s.loadMisses + 1)
    case (Store, true) => s.(storeHits := s.storeHits + 1)
    case (Store, false) => s.(storeMisses := s.storeMisses + 1)
  }

  function Accesses(s: Stats): nat {
    s.loadHits + s.loadMisses + s.storeHits + s.storeMisses
  }

  ghost predicate ValidSets(g: Geometry, sets: seq<SetState>) {
    && ValidGeometry(g) && NumSets(g) <= |sets|
    && forall i :: 0 <= i < |sets| ==> ValidSet(sets[i])
  }

  // On a miss, loads always allocate, stores optionally.
  predicate Allocates(g: Geometry, kind: AccessType) {
    kind.Load? || g.storeAllocate
  }

  datatype Lookup = Lookup(sets: seq<SetState>, hit: bool)

  function Touch(g: Geometry, sets: seq<SetState>, tag: Tag, kind: AccessType): (r: Lookup)
    requires ValidSets(g, sets)
    ensures ValidSets(g, r.sets) && |r.sets| == |sets|
  {
    SetIndexIsRemainder(g, tag);
    var i := SetIndexOf(g, tag);
    var hit := Holds(sets[i], tag);
    ReplaceIsFirstInFirstOut(sets[i], tag);
    Lookup(if !hit && Allocates(g, kind) then sets[i := Replaced(sets[i], tag)] else sets, hit)
  }

  // Looking up several lines in order; a hit if every one of them hits.
  function TouchAll(g: Geometry, sets: seq<SetState>, tags: seq<Tag>, kind: AccessType): (r: Lookup)
    requires ValidSets(g, sets)
    ensures ValidSets(g, r.sets) && |r.sets| == |sets|
  {
    if tags == [] then Lookup(sets, true)
    else
      var before := TouchAll(g, sets, tags[..|tags| - 1], kind);
      var last := Touch(g, before.sets, tags[|tags| - 1], kind);
      Lookup(last.sets, before.hit && last.hit)
  }

  function FlushFirst(sets: seq<SetState>, n: nat): (r: seq<SetState>)
    requires n <= |sets| && forall i :: 0 <= i < |sets| ==> ValidSet(sets[i])
    ensures |r| == |sets| && forall i :: 0 <= i < |r| ==> r[i] == if i < n then Flushed(sets[i]) else sets[i]
  {
    seq(|sets|, i requires 0 <= i < |sets| => if i < n then Flushed(sets[i]) else sets[i])
  }

  datatype CacheState = CacheState(sets: seq<SetState>, stats: Stats)

  datatype Operation =
    | Access(addr: nat, size: nat, kind: AccessType)
    | AccessSingleLine(addr: nat, kind: AccessType)
    | Flush
    | ResetStats

  const INT32_LIMIT: nat := 0x8000_0000

  // The number of sets in 32 bits, as a signed number.
  function SignedNumSets(g: Geometry): int {
    var n := NumSets(g) % UINT32_LIMIT;
    if n < INT32_LIMIT then n else n - UINT32_LIMIT
  }

  // How many sets the downward loop of a flush clears, from set number NumSets
  // on: one more than there are, or none if the signed number is negative.
  function FlushedSets(g: Geometry): nat {
    if SignedNumSets(g) < 0 then 0 else SignedNumSets(g) + 1
  }

  // Calls the cache can serve: addresses fit, the loop of an access stops, and
  // a flush stays inside the array.
  ghost predicate Admissible(g: Geometry, maxSets: nat, op: Operation) {
    match op
    case Access(addr, size, _) => addr < Space(g) && Stops(g, addr, size)
    case AccessSingleLine(addr, _) => addr < Space(g)
    case Flush => FlushedSets(g) <= maxSets
    case ResetStats => true
  }

  // The lines an operation looks up.
  function LinesOf(g: Geometry, op: Operation): seq<Tag>
    requires ValidGeometry(g) && Admissible(g, NumSets(g) + 1, op)
  {
    match op
    case Access(addr, size, _) => Visits(g, addr, HighAddress(g, addr, size))
    case AccessSingleLine(addr, _) => [TagOf(g, addr)]
    case Flush => []
    case ResetStats => []
  }

  // State after an operation, and the value it returns (true if it has none).
  datatype Outcome = Outcome(state: CacheState, hit: bool)

  function Perform(g: Geometry, c: CacheState, op: Operation): (r: Outcome)
    requires ValidSets(g, c.sets) && Admissible(g, |c.sets|, op)
    ensures ValidSets(g, r.state.sets) && |r.state.sets| == |c.sets|
  {
    match op
    case Flush =>
      FlushKeepsValid(c.sets, FlushedSets(g));
      Outcome(c.(sets := FlushFirst(c.sets, FlushedSets(g))), true)
    case ResetStats => Outcome(c.(stats := NO_STATS), true)
    case _ =>
      var r := TouchAll(g, c.sets, LinesOf(g, op), op.kind);
      Outcome(CacheState(r.sets, Counted(c.stats, op.kind, r.hit)), r.hit)
  }

  // With fewer than 2^31 sets a flush clears all of them, and stays inside the
  // array exactly if the array has room for one more; with 2^31 it clears none.
  lemma FlushReaches(g: Geometry, maxSets: nat)
    requires ValidGeometry(g)
    ensures NumSets(g) < INT32_LIMIT ==>
      FlushedSets(g) == NumSets(g) + 1 && (Admissible(g, maxSets, Flush) <==> NumSets(g) < maxSets)
    ensures NumSets(g) >= INT32_LIMIT ==> FlushedSets(g) == 0 && NumSets(g) == INT32_LIMIT
  {
    if NumSets(g) >= INT32_LIMIT {
      var k: nat :| NumSets(g) == Pow2(k);
      PowersUpTo32();
      assert Pow2(32) == 2 * Pow2(31);
      if k < 31 {
        PowersAreOrdered(k, 31);
      } else if k > 31 {
        PowersAreOrdered(31, k);
        if k > 32 {
          PowersAreOrdered(32, k);
        }
      }
    }
  }

  lemma FlushKeepsValid(sets: seq<SetState>, n: nat)
    requires n <= |sets| && forall i :: 0 <= i < |sets| ==> ValidSet(sets[i])
    ensures forall i :: 0 <= i < |sets| ==> ValidSet(FlushFirst(sets, n)[i])
  {
  }

  // ----- the cache object -----

  class Cache {
    const g: Geometry
    const sets: array<SetState>
    var stats: Stats

    ghost predicate Valid()
      reads this, sets
    {
      ValidSets(g, sets[..])
    }

    ghost function View(): CacheState
      reads this, sets
    {
      CacheState(sets[..], stats)
    }

    // The array of sets is taken as freshly allocated.  The assertions of the
    // source also let through a cache smaller than one of its sets, which then
    // has no sets at all and a mask that reaches beyond the array.
    constructor (width: nat, cacheSize: nat, lineSize: nat, associativity: nat, storeAllocate: bool,
                 initial: array<SetState>)
      requires cacheSize < UINT32_LIMIT && lineSize < UINT32_LIMIT
      requires BytesPerSet(associativity, lineSize) > 0
      requires IsPower2(lineSize) && lineSize <= Pow2(width)
      requires IsPower2(SetCount(cacheSize, associativity, lineSize))
      requires SetCount(cacheSize, associativity, lineSize) <= initial.Length
      requires forall i :: 0 <= i < initial.Length ==> Blank(initial[i])
      requires forall i :: 0 <= i < SetCount(cacheSize, associativity, lineSize) ==> Accepts(initial[i], associativity)
      modifies initial
      ensures sets == initial && stats == NO_STATS
      ensures g.lineSize == lineSize && g.storeAllocate == storeAllocate && g.width == width
      ensures var n := SetCount(cacheSize, associativity, lineSize);
        if n > 0 then
          && Valid() && NumSets(g) == n
          && forall i :: 0 <= i < n ==> Fresh(sets[i], associativity)
        else
          g.setIndexMask == UINT32_LIMIT - 1 && !Valid()
      ensures stats == Stats(0, 0, 0, 0)
      ensures AsManySetsAsFit(cacheSize, associativity, lineSize, g.setIndexMask)
    {
      var n := SetCount(cacheSize, associativity, lineSize);
      PositiveFactors(associativity, lineSize);
      SetsFit(cacheSize, associativity, lineSize);
      var shift := FloorLog2(lineSize);
      IsPower2Accepts(lineSize);
      IsPower2Accepts(n);
      LogOfLineSize(lineSize, shift, width);
      g := Geometry(width, lineSize, shift, Pred32(n), storeAllocate);
      sets := initial;
      stats := NO_STATS;
      new;
      var i := 0;
      while i < n
        invariant 0 <= i <= n && stats == NO_STATS
        invariant forall k :: 0 <= k < i ==> Fresh(sets[k], associativity)
        invariant forall k :: i <= k < n ==> Accepts(sets[k], associativity)
        invariant forall k :: i <= k < sets.Length ==> Blank(sets[k])
      {
        sets[i] := WithAssociativity(sets[i], associativity);
        i := i + 1;
      }
    }

    method AccessSingleLine(addr: nat, kind: AccessType) returns (hit: bool)
      requires Valid() && addr < Space(g)
      modifies this, sets
      ensures Valid()
      ensures Outcome(View(), hit) == Perform(g, old(View()), Operation.AccessSingleLine(addr, kind))
    {
      var tag := Shr(addr, g.lineShift);
      TouchOneLine(g, sets[..], tag, kind);
      hit := TouchLine(tag, kind);
      stats := Counted(stats, kind, hit);
    }

    method TouchLine(tag: Tag, kind: AccessType) returns (hit: bool)
      requires Valid()
      modifies sets
      ensures Valid()
      ensures Lookup(sets[..], hit) == Touch(g, old(sets[..]), tag, kind)
    {
      SetIndexIsRemainder(g, tag);
      var setIndex := And(tag, g.setIndexMask);
      hit := Holds(sets[setIndex], tag);
      if !hit && (kind == Load || g.storeAllocate) {
        ReplaceIsFirstInFirstOut(sets[setIndex], tag);
        sets[setIndex] := Replaced(sets[setIndex], tag);
      }
    }

    // The loop of an access, from addr until an address of at least highAddr.
    method AccessLines(addr: nat, highAddr: nat, kind: AccessType) returns (allHit: bool)
      requires Valid() && addr < Space(g) && highAddr + g.lineSize <= Space(g)
      modifies sets
      ensures Valid()
      ensures Lookup(sets[..], allHit) == TouchAll(g, old(sets[..]), Visits(g, addr, highAddr), kind)
    {
      allHit := true;
      var a: nat := addr;
      var more := true;
      ghost var visited: seq<Tag> := [];
      while more
        invariant Valid() && a < Space(g)
        invariant visited + Ahead(g, a, highAddr, more) == Visits(g, addr, highAddr)
        invariant Lookup(sets[..], allHit) == TouchAll(g, old(sets[..]), visited, kind)
        decreases |Ahead(g, a, highAddr, more)|
      {
        OneMoreVisit(g, a, highAddr, visited);
        TouchOneMore(g, old(sets[..]), visited, TagOf(g, a), kind);
        var localHit := TouchLine(TagOf(g, a), kind);
        allHit := allHit && localHit;
        visited := visited + [TagOf(g, a)];
        a := NextLine(g, a);
        more := a < highAddr;
      }
      assert visited + [] == visited;
    }

    method Access(addr: nat, size: nat, kind: AccessType) returns (allHit: bool)
      requires Valid() && addr < Space(g) && Stops(g, addr, size)
      modifies this, sets
      ensures Valid()
      ensures Outcome(View(), allHit) == Perform(g, old(View()), Operation.Access(addr, size, kind))
    {
      var highAddr := (addr + size) % Space(g);
      allHit := AccessLines(addr, highAddr, kind);
      stats := Counted(stats, kind, allHit);
    }

    // Clears one set more than the cache has, or none.
    method Flush()
      requires Valid() && FlushedSets(g) <= sets.Length
      modifies sets
      ensures Valid()
      ensures Outcome(View(), true) == Perform(g, old(View()), Operation.Flush)
    {
      var index := SignedNumSets(g);
      while index >= 0
        invariant -1 <= index < FlushedSets(g) || index < FlushedSets(g) == 0
        invariant forall k :: 0 <= k <= index || FlushedSets(g) <= k < sets.Length ==> sets[k] == old(sets[k])
        invariant forall k :: 0 <= k && index < k < FlushedSets(g) ==> sets[k] == Flushed(old(sets[k]))
        decreases index + 1
      {
        sets[index] := Flushed(sets[index]);
        index := index - 1;
      }
      assert sets[..] == FlushFirst(old(sets[..]), FlushedSets(g));
    }

    method ResetStats()
      requires Valid()
      modifies this
      ensures Valid()
      ensures Outcome(View(), true) == Perform(g, old(View()), Operation.ResetStats)
    {
      stats := NO_STATS;
    }
  }

  // What an access has still to look up.
  ghost function Ahead(g: Geometry, a: nat, high: nat, more: bool): seq<Tag>
    requires ValidGeometry(g) && a < Space(g) && high + g.lineSize <= Space(g)
  {
    if more then Visits(g, a, high) else []
  }

  lemma OneMoreVisit(g: Geometry, a: nat, high: nat, visited: seq<Tag>)
    requires ValidGeometry(g) && a < Space(g) && high + g.lineSize <= Space(g)
    ensures var next := NextLine(g, a);
      && next < Space(g)
      && (visited + [TagOf(g, a)]) + Ahead(g, next, high, next < high) == visited + Ahead(g, a, high, true)
      && |Ahead(g, next, high, next < high)| < |Ahead(g, a, high, true)|
  {
  }

  lemma TouchOneMore(g: Geometry, sets: seq<SetState>, tags: seq<Tag>, tag: Tag, kind: AccessType)
    requires ValidSets(g, sets)
    ensures var before := TouchAll(g, sets, tags, kind);
      var last := Touch(g, before.sets, tag, kind);
      TouchAll(g, sets, tags + [tag], kind) == Lookup(last.sets, before.hit && last.hit)
  {
  }

  lemma TouchOneLine(g: Geometry, sets: seq<SetState>, tag: Tag, kind: AccessType)
    requires ValidSets(g, sets)
    ensures TouchAll(g, sets, [tag], kind) == Touch(g, sets, tag, kind)
  {
  }

  // ----- construction -----

  // In 32 bits.
  function BytesPerSet(associativity: nat, lineSize: nat): nat {
    (associativity * lineSize) % UINT32_LIMIT
  }

  function SetCount(cacheSize: nat, associativity: nat, lineSize: nat): nat
    requires BytesPerSet(associativity, lineSize) > 0
  {
    cacheSize / BytesPerSet(associativity, lineSize)
  }

  lemma {:induction false} MultipleIsLarge(q: nat, d: nat)
    requires d > 0
    ensures q * d >= q && (q > 0 ==> q * d >= d)
  {
    if q > 0 {
      MultipleIsLarge(q - 1, d);
      assert q * d == (q - 1) * d + d;
    }
  }

  // The sets of the given mask fill the cache as far as possible; if there are
  // none, not even one would fit.  The size of a set is taken in 32 bits.
  ghost predicate AsManySetsAsFit(cacheSize: nat, associativity: nat, lineSize: nat, mask: nat) {
    var bytes := associativity * lineSize % 0x1_0000_0000;
    && (associativity * lineSize < 0x1_0000_0000 ==> bytes == associativity * lineSize)
    && (cacheSize < bytes <==> mask == 0xffff_ffff)
    && (bytes <= cacheSize ==> (mask + 1) * bytes <= cacheSize < (mask + 2) * bytes)
  }

  lemma QuotientFits(cacheSize: nat, bytes: nat)
    requires bytes > 0
    ensures cacheSize / bytes * bytes <= cacheSize < (cacheSize / bytes + 1) * bytes
    ensures cacheSize / bytes == 0 <==> cacheSize < bytes
    ensures cacheSize / bytes <= cacheSize
  {
    var q, r := cacheSize / bytes, cacheSize % bytes;
    assert cacheSize == q * bytes + r && 0 <= r < bytes;
    assert (q + 1) * bytes == q * bytes + bytes;
    MultipleIsLarge(q, bytes);
  }

  lemma SetsFit(cacheSize: nat, associativity: nat, lineSize: nat)
    requires cacheSize < UINT32_LIMIT && BytesPerSet(associativity, lineSize) > 0
    ensures SetCount(cacheSize, associativity, lineSize) <= cacheSize
    ensures AsManySetsAsFit(cacheSize, associativity, lineSize, Pred32(SetCount(cacheSize, associativity, lineSize)))
  {
    QuotientFits(cacheSize, BytesPerSet(associativity, lineSize));
  }

  lemma PositiveFactors(associativity: nat, lineSize: nat)
    requires BytesPerSet(associativity, lineSize) > 0
    ensures associativity > 0 && lineSize > 0
  {
  }

  // A set as allocated.
  predicate Blank(s: SetState) {
    if s.DirectMapped? then s.tag == 0
    else ValidSet(s) && forall k :: 0 <= k < |s.tags| ==> s.tags[k] == 0
  }

  // The set can be given this associativity.
  predicate Accepts(s: SetState, associativity: nat) {
    if s.DirectMapped? then associativity == 1 else associativity <= |s.tags|
  }

  function WithAssociativity(s: SetState, associativity: nat): SetState
    requires associativity > 0
  {
    if s.DirectMapped? then s else s.(last := associativity - 1, next := associativity - 1)
  }

  ghost predicate Fresh(s: SetState, associativity: nat) {
    ValidSet(s) && Ways(s) == associativity && Queue(s) == Zeros(associativity)
  }

  lemma LogOfLineSize(lineSize: nat, shift: nat, width: nat)
    requires PowerOfTwo(lineSize) && Pow2(shift) <= lineSize < Pow2(shift + 1) && lineSize <= Pow2(width)
    ensures lineSize == Pow2(shift) && shift <= width
  {
    var k: nat :| lineSize == Pow2(k);
    ExactLog(lineSize, shift, k);
    if width < shift {
      PowersAreOrdered(width, shift);
    }
  }
}
