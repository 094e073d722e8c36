// The cache on values: address split, lines visited by an access, lookups and
// allocations, statistics; and the simple reference it is measured against.
module CacheSpec {
  import opened Bits
  import opened CacheSets

  // Addresses have `width` bits.  The cache stores the line size and its
  // logarithm, and the number of sets minus one as a mask.
  datatype Geometry = Geometry(width: nat, lineSize: nat, lineShift: nat, setIndexMask: nat, storeAllocate: bool)

  ghost predicate ValidGeometry(g: Geometry) {
    && g.lineSize == Pow2(g.lineShift) && g.lineShift <= g.width
    && PowerOfTwo(g.setIndexMask + 1) && g.setIndexMask + 1 < UINT32_LIMIT
  }

  function Space(g: Geometry): nat { Pow2(g.width) }

  function NumSets(g: Geometry): (n: nat)
    ensures n > 0
  {
    g.setIndexMask + 1
  }

  function TagOf(g: Geometry, addr: nat): Tag { Shr(addr, g.lineShift) }

  function SetIndexOf(g: Geometry, tag: Tag): nat { And(tag, g.setIndexMask) }

  function LineIndexOf(g: Geometry, addr: nat): nat
    requires g.lineSize > 0
  {
    And(addr, g.lineSize - 1)
  }

  lemma SetIndexIsRemainder(g: Geometry, tag: Tag)
    requires ValidGeometry(g)
    ensures SetIndexOf(g, tag) == tag % NumSets(g) < NumSets(g)
  {
    var k: nat :| g.setIndexMask + 1 == Pow2(k);
    ShiftIsDivision(tag, k);
  }

  // First address of the line with the given tag.
  function Base(g: Geometry, tag: Tag): nat { Shl(tag, g.lineShift) }

  // The three parts of an address determine it, and the set is a part of the tag.
  lemma SplitRoundTrip(g: Geometry, addr: nat)
    requires ValidGeometry(g)
    ensures LineIndexOf(g, addr) < g.lineSize
    ensures Base(g, TagOf(g, addr)) + LineIndexOf(g, addr) == addr
    ensures TagOf(g, addr) * g.lineSize + LineIndexOf(g, addr) == addr
    ensures SetIndexOf(g, TagOf(g, addr)) == TagOf(g, addr) % NumSets(g) < NumSets(g)
  {
    ShiftAndMask(addr, g.lineShift);
    ShlMultiplies(Shr(addr, g.lineShift), g.lineShift);
    SetIndexIsRemainder(g, TagOf(g, addr));
  }

  lemma TagOfBase(g: Geometry, t: Tag)
    requires ValidGeometry(g)
    ensures TagOf(g, Base(g, t)) == t
  {
    ShrOfShl(t, g.lineShift);
  }

  // Lines follow each other without gaps.
  lemma NextBase(g: Geometry, t: Tag)
    requires ValidGeometry(g)
    ensures Base(g, t + 1) == Base(g, t) + g.lineSize
  {
    ShlNext(t, g.lineShift);
  }

  lemma BasesAreOrdered(g: Geometry, t: Tag, u: Tag)
    requires ValidGeometry(g) && t < u
    ensures Base(g, t) + g.lineSize <= Base(g, u)
  {
    ShlOrdered(t, u, g.lineShift);
  }

  // ----- the lines an access steps through -----

  function NextLine(g: Geometry, addr: nat): nat
    requires g.lineSize <= Space(g)
  {
    (And(addr, Space(g) - g.lineSize) + g.lineSize) % Space(g)
  }

  function HighAddress(g: Geometry, addr: nat, size: nat): nat { (addr + size) % Space(g) }

  // The loop of an access comes to an end exactly if the address after the
  // access does not lie past the first byte of the last line.
  predicate Stops(g: Geometry, addr: nat, size: nat) {
    HighAddress(g, addr, size) + g.lineSize <= Space(g)
  }

  lemma ModAtMost(x: nat, m: nat)
    requires x <= m && m > 0
    ensures x % m == if x < m then x else 0
  {
  }

  lemma LineFits(g: Geometry, addr: nat)
    requires ValidGeometry(g) && addr < Space(g)
    ensures Base(g, TagOf(g, addr)) <= addr < Base(g, TagOf(g, addr)) + g.lineSize <= Space(g)
  {
    ShiftAndMask(addr, g.lineShift);
    ShiftedSize(addr, g.lineShift, g.width - g.lineShift);
    ShlOfPower(g.width - g.lineShift, g.lineShift);
    BasesAreOrdered(g, TagOf(g, addr), Pow2(g.width - g.lineShift));
  }

  // The loop steps to the start of the next line, or to 0 after the last one.
  lemma NextLineIs(g: Geometry, addr: nat)
    requires ValidGeometry(g) && addr < Space(g)
    ensures g.lineSize <= Space(g)
    ensures var end := Base(g, TagOf(g, addr) + 1);
      addr < end <= addr + g.lineSize && end <= Space(g) && NextLine(g, addr) == if end < Space(g) then end else 0
  {
    LineFits(g, addr);
    NextBase(g, TagOf(g, addr));
    ClearLowBits(addr, g.lineShift, g.width);
    ModAtMost(Base(g, TagOf(g, addr) + 1), Space(g));
  }

  // Tags of the lines looked up by the loop from addr on.
  function Visits(g: Geometry, addr: nat, high: nat): seq<Tag>
    requires ValidGeometry(g) && addr < Space(g) && high + g.lineSize <= Space(g)
    decreases if addr < high then high - addr else Space(g) + 1
  {
    NextLineIs(g, addr);
    [TagOf(g, addr)] + if NextLine(g, addr) < high then Visits(g, NextLine(g, addr), high) else []
  }

  // Without wrap-around the lines are looked up from the line of addr on, each
  // once, in order, as long as they start before `high`.
  lemma {:induction false} VisitsUpwards(g: Geometry, addr: nat, high: nat)
    requires ValidGeometry(g) && addr <= high && high + g.lineSize <= Space(g) && addr + g.lineSize < Space(g)
    ensures var v, first := Visits(g, addr, high), TagOf(g, addr);
      && |v| > 0
      && (forall k :: 0 <= k < |v| ==> v[k] == first + k)
      && (|v| > 1 ==> Base(g, first + |v| - 1) < high)
      && high <= Base(g, first + |v|)
    decreases high - addr
  {
    NextLineIs(g, addr);
    var first, next := TagOf(g, addr), NextLine(g, addr);
    if next < high {
      TagOfBase(g, first + 1);
      VisitsUpwards(g, next, high);
      assert Visits(g, addr, high) == [first] + Visits(g, next, high);
    }
  }

  function LineCount(g: Geometry): nat
    requires ValidGeometry(g)
  {
    Pow2(g.width - g.lineShift)
  }

  function LastLine(g: Geometry): Tag
    requires ValidGeometry(g)
  {
    LineCount(g) - 1
  }

  lemma LastLineEndsSpace(g: Geometry)
    requires ValidGeometry(g)
    ensures Base(g, LastLine(g)) + g.lineSize == Space(g)
    ensures TagOf(g, Base(g, LastLine(g))) == LastLine(g)
    ensures Base(g, 0) == 0
  {
    ShlOfPower(g.width - g.lineShift, g.lineShift);
    NextBase(g, LastLine(g));
    TagOfBase(g, LastLine(g));
    ShiftZero(g.lineShift);
  }

  // A tag and the order of the starts of lines.
  lemma TagIff(g: Geometry, x: nat, t: Tag)
    requires ValidGeometry(g) && x < Space(g)
    ensures TagOf(g, x) == t <==> Base(g, t) <= x < Base(g, t) + g.lineSize
  {
    LineFits(g, x);
    var tag := TagOf(g, x);
    if t < tag {
      BasesAreOrdered(g, t, tag);
    } else if tag < t {
      BasesAreOrdered(g, tag, t);
    }
  }

  lemma InLastLineIff(g: Geometry, addr: nat)
    requires ValidGeometry(g) && addr < Space(g)
    ensures TagOf(g, addr) <= LastLine(g)
    ensures addr + g.lineSize >= Space(g) <==> TagOf(g, addr) == LastLine(g)
  {
    LastLineEndsSpace(g);
    TagIff(g, addr, LastLine(g));
    LineFits(g, addr);
    if LastLine(g) < TagOf(g, addr) {
      BasesAreOrdered(g, LastLine(g), TagOf(g, addr));
    }
  }

  // From the last line the loop goes on with line 0.
  lemma VisitsFromLastLine(g: Geometry, addr: nat, high: nat)
    requires ValidGeometry(g) && addr < Space(g) <= addr + g.lineSize && high + g.lineSize <= Space(g)
    ensures var v := Visits(g, addr, high);
      && |v| > 0 && v[0] == LastLine(g)
      && (forall k :: 0 < k < |v| ==> v[k] == k - 1)
      && (if |v| > 1 then Base(g, |v| - 2) < high else high == 0)
      && high <= Base(g, |v| - 1)
  {
    InLastLineIff(g, addr);
    LastLineEndsSpace(g);
    NextLineIs(g, addr);
    NextBase(g, LastLine(g));
    if high > 0 {
      VisitsUpwards(g, 0, high);
      TagIff(g, 0, 0);
      assert Visits(g, addr, high) == [LastLine(g)] + Visits(g, 0, high);
    }
  }

  lemma VisitsJustOne(g: Geometry, addr: nat, high: nat)
    requires ValidGeometry(g) && high <= addr && addr + g.lineSize < Space(g)
    ensures high + g.lineSize <= Space(g) && Visits(g, addr, high) == [TagOf(g, addr)]
    ensures high <= Base(g, TagOf(g, addr) + 1)
  {
    NextLineIs(g, addr);
  }

  lemma LineBefore(g: Geometry, t: Tag, high: nat)
    requires ValidGeometry(g) && Base(g, t) < high && high + g.lineSize <= Space(g)
    ensures t < LastLine(g)
  {
    LastLineEndsSpace(g);
    if LastLine(g) < t {
      BasesAreOrdered(g, LastLine(g), t);
    }
  }

  // The k-th line after line t, going round.
  function LineAfter(g: Geometry, t: Tag, k: nat): Tag
    requires ValidGeometry(g)
  {
    (t + k) % LineCount(g)
  }

  lemma LineAfterIs(g: Geometry, t: Tag, k: nat)
    requires ValidGeometry(g) && t < LineCount(g) && k <= LineCount(g)
    ensures LineAfter(g, t, k) == if t + k < LineCount(g) then t + k else t + k - LineCount(g)
  {
    SmallMod(if t + k < LineCount(g) then t + k else t + k - LineCount(g), LineCount(g));
  }

  // Lines are looked up in cyclic order from the line of addr on, none twice,
  // up to the first one that does not start below `high`.
  lemma VisitsInOrder(g: Geometry, addr: nat, high: nat)
    requires ValidGeometry(g) && addr < Space(g) && high + g.lineSize <= Space(g)
    ensures var v, first := Visits(g, addr, high), TagOf(g, addr);
      && 0 < |v| <= LineCount(g)
      && (forall k :: 0 <= k < |v| ==> v[k] == LineAfter(g, first, k))
      && (forall k :: 0 < k < |v| ==> Base(g, v[k]) < high)
      && high <= Base(g, LineAfter(g, first, |v|))
  {
    var v, first := Visits(g, addr, high), TagOf(g, addr);
    InLastLineIff(g, addr);
    if addr + g.lineSize >= Space(g) {
      VisitsFromLastLine(g, addr, high);
      if |v| > 1 {
        LineBefore(g, |v| - 2, high);
      }
      OrderFromLastLine(g, v, high);
    } else {
      if addr <= high {
        VisitsUpwards(g, addr, high);
        if |v| > 1 {
          LineBefore(g, first + |v| - 1, high);
        }
      } else {
        VisitsJustOne(g, addr, high);
      }
      OrderUpwards(g, v, first, high);
    }
  }

  lemma BelowLineBefore(g: Geometry, t: Tag, u: Tag, high: nat)
    requires ValidGeometry(g) && t <= u && Base(g, u) < high
    ensures Base(g, t) < high
  {
    if t < u {
      BasesAreOrdered(g, t, u);
    }
  }

  lemma SmallMod(x: nat, n: nat)
    requires x < n
    ensures x % n == x && (x + n) % n == x
  {
    DivModUnique(x, 0, x, n);
    DivModUnique(x + n, 1, x, n);
  }

  lemma OrderFromLastLine(g: Geometry, v: seq<Tag>, high: nat)
    requires ValidGeometry(g) && 0 < |v| <= LineCount(g) && v[0] == LastLine(g)
    requires forall k :: 0 < k < |v| ==> v[k] == k - 1
    requires |v| > 1 ==> Base(g, |v| - 2) < high
    requires high <= Base(g, |v| - 1)
    ensures forall k :: 0 <= k < |v| ==> v[k] == LineAfter(g, LastLine(g), k)
    ensures forall k :: 0 < k < |v| ==> Base(g, v[k]) < high
    ensures high <= Base(g, LineAfter(g, LastLine(g), |v|))
  {
    forall k | 0 <= k < |v|
      ensures v[k] == LineAfter(g, LastLine(g), k)
    {
      LineAfterIs(g, LastLine(g), k);
    }
    LineAfterIs(g, LastLine(g), |v|);
    forall k | 0 < k < |v|
      ensures Base(g, v[k]) < high
    {
      BelowLineBefore(g, k - 1, |v| - 2, high);
    }
  }

  lemma OrderUpwards(g: Geometry, v: seq<Tag>, first: Tag, high: nat)
    requires ValidGeometry(g) && 0 < |v| && first + |v| <= LastLine(g)
    requires forall k :: 0 <= k < |v| ==> v[k] == first + k
    requires |v| > 1 ==> Base(g, first + |v| - 1) < high
    requires high <= Base(g, first + |v|)
    ensures forall k :: 0 <= k < |v| ==> v[k] == LineAfter(g, first, k)
    ensures forall k :: 0 < k < |v| ==> Base(g, v[k]) < high
    ensures high <= Base(g, LineAfter(g, first, |v|))
  {
    forall k | 0 <= k < |v|
      ensures v[k] == LineAfter(g, first, k)
    {
      LineAfterIs(g, first, k);
    }
    LineAfterIs(g, first, |v|);
    forall k | 0 < k < |v|
      ensures Base(g, v[k]) < high
    {
      BelowLineBefore(g, first + k, first + |v| - 1, high);
    }
  }

  // ----- the lines an access ought to look up -----

  // Address number i of an access; addresses wrap around.
  function AddressAt(g: Geometry, addr: nat, i: nat): nat { (addr + i) % Space(g) }

  // Some address of the access is in line t; an empty access counts as one to
  // the line of addr.
  ghost predicate Meets(g: Geometry, addr: nat, size: nat, t: Tag) {
    if size == 0 then t == TagOf(g, addr)
    else exists i: nat :: i < size && TagOf(g, AddressAt(g, addr, i)) == t
  }

  lemma AddressIs(g: Geometry, addr: nat, i: nat)
    requires addr < Space(g) && i < Space(g)
    ensures AddressAt(g, addr, i) == if addr + i < Space(g) then addr + i else addr + i - Space(g)
  {
    SmallMod(if addr + i < Space(g) then addr + i else addr + i - Space(g), Space(g));
  }

  // The same in terms of intervals.
  lemma MeetsIff(g: Geometry, addr: nat, size: nat, t: Tag)
    requires ValidGeometry(g) && addr < Space(g) && 0 < size < Space(g)
    ensures Meets(g, addr, size, t) <==>
      || (Base(g, t) < addr + size && addr < Base(g, t) + g.lineSize <= Space(g))
      || Base(g, t) + Space(g) < addr + size
  {
    var base := Base(g, t);
    if Meets(g, addr, size, t) {
      var i: nat :| i < size && TagOf(g, AddressAt(g, addr, i)) == t;
      AddressIs(g, addr, i);
      LineFits(g, AddressAt(g, addr, i));
    }
    if base < addr + size && addr < base + g.lineSize <= Space(g) {
      var i: nat := if base > addr then base - addr else 0;
      AddressIs(g, addr, i);
      TagIff(g, addr + i, t);
      assert TagOf(g, AddressAt(g, addr, i)) == t;
    }
    if base + Space(g) < addr + size {
      var i: nat := base + Space(g) - addr;
      AddressIs(g, addr, i);
      TagIff(g, base, t);
      assert TagOf(g, AddressAt(g, addr, i)) == t;
    }
  }

  // Below the last line, the lines looked up are the lines met.
  lemma VisitsTheLinesMet(g: Geometry, addr: nat, size: nat, t: Tag)
    requires ValidGeometry(g) && addr + size + g.lineSize <= Space(g) && addr + g.lineSize < Space(g)
    ensures t in Visits(g, addr, addr + size) <==> Meets(g, addr, size, t)
  {
    var high, first := addr + size, TagOf(g, addr);
    var v := Visits(g, addr, high);
    VisitsUpwards(g, addr, high);
    LineFits(g, addr);
    if size > 0 {
      MeetsIff(g, addr, size, t);
    }
    if t < first {
      BasesAreOrdered(g, t, first);
    } else if t < first + |v| {
      assert v[t - first] == t;
      if t < first + |v| - 1 {
        BasesAreOrdered(g, t, first + |v| - 1);
      }
    } else if t > first + |v| {
      BasesAreOrdered(g, first + |v|, t);
    }
    if t > first {
      BasesAreOrdered(g, first, t);
    }
    if t <= LastLine(g) {
      LineEndsInSpace(g, t);
    }
    if |v| > 1 {
      LineBefore(g, first + |v| - 1, high);
    }
  }

  lemma LineEndsInSpace(g: Geometry, t: Tag)
    requires ValidGeometry(g) && t <= LastLine(g)
    ensures Base(g, t) + g.lineSize <= Space(g)
  {
    LastLineEndsSpace(g);
    if t < LastLine(g) {
      BasesAreOrdered(g, t, LastLine(g));
    }
  }

  // From the last line, and over the end of the address space, too.
  lemma VisitsAroundTheEnd(g: Geometry, addr: nat, size: nat, t: Tag)
    requires ValidGeometry(g) && addr < Space(g) <= addr + g.lineSize
    requires Space(g) <= addr + size && size < Space(g)
    requires HighAddress(g, addr, size) == addr + size - Space(g) && Stops(g, addr, size)
    ensures t in Visits(g, addr, HighAddress(g, addr, size)) <==> Meets(g, addr, size, t)
  {
    var high := addr + size - Space(g);
    var v := Visits(g, addr, high);
    InLastLineIff(g, addr);
    LastLineEndsSpace(g);
    LineFits(g, addr);
    VisitsFromLastLine(g, addr, high);
    MeetsIff(g, addr, size, t);
    if t + 1 < |v| {
      assert v[t + 1] == t;
      BelowLineBefore(g, t, |v| - 2, high);
    } else if t + 1 > |v| {
      BasesAreOrdered(g, |v| - 1, t);
    }
    if t < LastLine(g) {
      BasesAreOrdered(g, t, LastLine(g));
    } else if LastLine(g) < t {
      BasesAreOrdered(g, LastLine(g), t);
    }
  }

  ghost predicate VisitsExactlyTheLinesMet(g: Geometry, addr: nat, size: nat)
    requires ValidGeometry(g) && addr < Space(g) && Stops(g, addr, size)
  {
    forall t: Tag :: t in Visits(g, addr, HighAddress(g, addr, size)) <==> Meets(g, addr, size, t)
  }

  // Reaching or passing the end of the address space from an earlier line, the
  // loop stops at once and misses the last line.
  lemma LastLineIsMissed(g: Geometry, addr: nat, size: nat)
    requires ValidGeometry(g) && addr + g.lineSize < Space(g) <= addr + size && size < Space(g)
    requires HighAddress(g, addr, size) == addr + size - Space(g) && Stops(g, addr, size)
    ensures !VisitsExactlyTheLinesMet(g, addr, size)
  {
    InLastLineIff(g, addr);
    LastLineEndsSpace(g);
    VisitsJustOne(g, addr, HighAddress(g, addr, size));
    MeetsIff(g, addr, size, LastLine(g));
  }

  // An empty access at the start of the last line goes on with line 0.
  lemma EmptyAccessInLastLine(g: Geometry, addr: nat)
    requires ValidGeometry(g) && addr + g.lineSize == Space(g)
    requires HighAddress(g, addr, 0) == addr
    ensures VisitsExactlyTheLinesMet(g, addr, 0) <==> g.lineSize == Space(g)
    ensures Visits(g, addr, addr) == [TagOf(g, addr)] <==> g.lineSize == Space(g)
  {
    InLastLineIff(g, addr);
    LastLineEndsSpace(g);
    VisitsFromLastLine(g, addr, addr);
    var v := Visits(g, addr, addr);
    if g.lineSize < Space(g) {
      assert v[1] == 0 && 0 in v;
    } else {
      assert v == [LastLine(g)];
    }
  }

  lemma HighAddressIs(g: Geometry, addr: nat, size: nat)
    requires addr < Space(g) && size < Space(g)
    ensures HighAddress(g, addr, size) == if addr + size < Space(g) then addr + size else addr + size - Space(g)
  {
    AddressIs(g, addr, size);
  }

  // An access that ends looks up exactly the lines it meets, except in two
  // places: it reaches or passes the end of the address space from an earlier
  // line than the last, or it is empty and at the start of the last line.
  lemma VisitsTheLinesMetIff(g: Geometry, addr: nat, size: nat)
    requires ValidGeometry(g) && addr < Space(g) && size < Space(g) && Stops(g, addr, size)
    ensures VisitsExactlyTheLinesMet(g, addr, size) <==>
      if addr + size >= Space(g) then addr + g.lineSize >= Space(g)
      else addr + g.lineSize < Space(g) || g.lineSize == Space(g)
  {
    HighAddressIs(g, addr, size);
    if addr + size >= Space(g) {
      if addr + g.lineSize >= Space(g) {
        forall t: Tag
          ensures t in Visits(g, addr, HighAddress(g, addr, size)) <==> Meets(g, addr, size, t)
        {
          VisitsAroundTheEnd(g, addr, size, t);
        }
      } else {
        LastLineIsMissed(g, addr, size);
      }
    } else if addr + g.lineSize < Space(g) {
      forall t: Tag
        ensures t in Visits(g, addr, addr + size) <==> Meets(g, addr, size, t)
      {
        VisitsTheLinesMet(g, addr, size, t);
      }
    } else {
      EmptyAccessInLastLine(g, addr);
    }
  }

  // ----- exactly when the loop comes to an end -----

  // The address the loop looks at after k further steps.
  function Stepped(g: Geometry, addr: nat, k: nat): nat
    requires g.lineSize <= Space(g)
  {
    if k == 0 then addr else NextLine(g, Stepped(g, addr, k - 1))
  }

  lemma {:induction false} SteppedStartsLines(g: Geometry, addr: nat, k: nat)
    requires ValidGeometry(g) && addr < Space(g) && k > 0
    ensures g.lineSize <= Space(g)
    ensures Stepped(g, addr, k) + g.lineSize <= Space(g)
    decreases k
  {
    LineFits(g, addr);
    if k > 1 {
      SteppedStartsLines(g, addr, k - 1);
    }
    var before := Stepped(g, addr, k - 1);
    NextLineIs(g, before);
    var t := TagOf(g, before) + 1;
    if Base(g, t) < Space(g) {
      TagOfBase(g, t);
      LineFits(g, Base(g, t));
    }
  }

  lemma {:induction false} SteppedFrom(g: Geometry, addr: nat, k: nat)
    requires g.lineSize <= Space(g)
    ensures Stepped(g, NextLine(g, addr), k) == Stepped(g, addr, k + 1)
    decreases k
  {
    if k > 0 {
      SteppedFrom(g, addr, k - 1);
    }
  }

  lemma {:induction false} SomeStepPasses(g: Geometry, addr: nat, high: nat) returns (k: nat)
    requires ValidGeometry(g) && addr < Space(g) && high + g.lineSize <= Space(g)
    ensures k > 0 && Stepped(g, addr, k) >= high
    decreases if addr < high then high - addr else Space(g) + 1
  {
    NextLineIs(g, addr);
    var next := NextLine(g, addr);
    assert Stepped(g, addr, 1) == NextLine(g, Stepped(g, addr, 0));
    if next < high {
      var j := SomeStepPasses(g, next, high);
      SteppedFrom(g, addr, j);
      k := j + 1;
    } else {
      k := 1;
    }
  }

  // The loop `do ... while (addr < highAddr)` ends exactly under Stops.
  lemma AccessLoopEndsIff(g: Geometry, addr: nat, size: nat)
    requires ValidGeometry(g) && addr < Space(g)
    ensures g.lineSize <= Space(g)
    ensures Stops(g, addr, size) <==> exists k: nat :: k > 0 && Stepped(g, addr, k) >= HighAddress(g, addr, size)
  {
    LineFits(g, addr);
    if Stops(g, addr, size) {
      var k := SomeStepPasses(g, addr, HighAddress(g, addr, size));
    }
    forall k: nat | k > 0 && Stepped(g, addr, k) >= HighAddress(g, addr, size)
      ensures Stops(g, addr, size)
    {
      SteppedStartsLines(g, addr, k);
    }
  }
  // Inputs that fail, for a 32-bit address space and lines of 64 bytes: an
  // access of 4 bytes at the start of the last line does not end, and one of
  // 128 bytes up to the end of the address space misses the last line.
  lemma SomeAccessesFail() returns (g: Geometry)
    ensures ValidGeometry(g) && g.lineSize == 64 && Space(g) == 0x1_0000_0000
    ensures forall k: nat :: k > 0 ==> Stepped(g, 0xffff_ffc0, k) < HighAddress(g, 0xffff_ffc0, 4)
    ensures Stops(g, 0xffff_ff80, 128) && !VisitsExactlyTheLinesMet(g, 0xffff_ff80, 128)
  {
    g := Geometry(32, 64, 6, 0, true);
    PowersAdd(4, 2);
    PowersUpTo32();
    assert Pow2(0) == 1;
    HighAddressIs(g, 0xffff_ffc0, 4);
    AccessLoopEndsIff(g, 0xffff_ffc0, 4);
    HighAddressIs(g, 0xffff_ff80, 128);
    VisitsTheLinesMetIff(g, 0xffff_ff80, 128);
  }
}
