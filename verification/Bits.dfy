// The bit operations the cache uses on machine words, on the numbers they
// denote, and what they compute.
module Bits {

  function Pow2(k: nat): (r: nat)
    ensures r > 0
  {
    if k == 0 then 1 else 2 * Pow2(k - 1)
  }

  // Bitwise and.
  function And(a: nat, b: nat): nat {
    if a == 0 || b == 0 then 0
    else 2 * And(a / 2, b / 2) + if a % 2 == 1 && b % 2 == 1 then 1 else 0
  }

  // Shift right, shift left by k.
  function Shr(a: nat, k: nat): nat {
    if k == 0 then a else Shr(a / 2, k - 1)
  }

  function Shl(a: nat, k: nat): nat {
    if k == 0 then a else 2 * Shl(a, k - 1)
  }

  const UINT32_LIMIT: nat := 0x1_0000_0000

  // n - 1 in 32 bits.
  function Pred32(n: nat): nat
    requires n < UINT32_LIMIT
  {
    if n == 0 then UINT32_LIMIT - 1 else n - 1
  }

  predicate IsPower2(n: nat)
    requires n < UINT32_LIMIT
  {
    And(n, Pred32(n)) == 0
  }

  // ----- shifts and masks -----

  lemma {:induction false} ShiftAndMask(a: nat, k: nat)
    ensures And(a, Pow2(k) - 1) < Pow2(k)
    ensures a == Shl(Shr(a, k), k) + And(a, Pow2(k) - 1)
    decreases k
  {
    if k > 0 {
      ShiftAndMask(a / 2, k - 1);
      assert (Pow2(k) - 1) / 2 == Pow2(k - 1) - 1;
      if a == 0 {
        ShiftZero(k);
      }
    }
  }

  lemma {:induction false} ShiftZero(k: nat)
    ensures Shr(0, k) == 0 && Shl(0, k) == 0
    decreases k
  {
    if k > 0 {
      ShiftZero(k - 1);
    }
  }

  lemma Doubled(a: nat, p: nat)
    ensures a * (2 * p) == 2 * (a * p)
  {
  }

  lemma {:induction false} ShlMultiplies(a: nat, k: nat)
    ensures Shl(a, k) == a * Pow2(k)
    decreases k
  {
    if k > 0 {
      ShlMultiplies(a, k - 1);
      Doubled(a, Pow2(k - 1));
    }
  }

  lemma SmallerQuotient(q1: int, r1: int, q2: int, r2: int, d: int)
    requires 0 <= r1 < d && 0 <= r2 && q1 < q2
    ensures q1 * d + r1 < q2 * d + r2
  {
    assert q2 * d == (q1 + 1) * d + (q2 - q1 - 1) * d;
    assert (q1 + 1) * d == q1 * d + d;
    assert (q2 - q1 - 1) * d >= 0;
  }

  lemma {:induction false} ShlNext(a: nat, k: nat)
    ensures Shl(a + 1, k) == Shl(a, k) + Pow2(k)
    decreases k
  {
    if k > 0 {
      ShlNext(a, k - 1);
    }
  }

  lemma {:induction false} ShlOrdered(a: nat, b: nat, k: nat)
    requires a < b
    ensures Shl(a, k) + Pow2(k) <= Shl(b, k)
    decreases k
  {
    if k > 0 {
      ShlOrdered(a, b, k - 1);
    }
  }

  lemma {:induction false} ShlOfPower(j: nat, k: nat)
    ensures Shl(Pow2(j), k) == Pow2(j + k)
    decreases k
  {
    if k > 0 {
      ShlOfPower(j, k - 1);
    }
  }

  lemma {:induction false} ShrOfShl(a: nat, k: nat)
    ensures Shr(Shl(a, k), k) == a
    decreases k
  {
    if k > 0 {
      ShrOfShl(a, k - 1);
      assert Shl(a, k) / 2 == Shl(a, k - 1);
    }
  }

  // A quotient and a remainder determine each other.
  lemma DivModUnique(a: int, q: int, r: int, d: int)
    requires 0 <= r < d && a == q * d + r
    ensures a / d == q && a % d == r
  {
    var q', r' := a / d, a % d;
    assert a == q' * d + r';
    if q' < q {
      SmallerQuotient(q', r', q, r, d);
    } else if q < q' {
      SmallerQuotient(q, r, q', r', d);
    }
  }

  // Shifting is dividing by a power of two, masking takes the remainder.
  lemma ShiftIsDivision(a: nat, k: nat)
    ensures Shr(a, k) == a / Pow2(k)
    ensures And(a, Pow2(k) - 1) == a % Pow2(k)
  {
    ShiftAndMask(a, k);
    ShlMultiplies(Shr(a, k), k);
    DivModUnique(a, Shr(a, k), And(a, Pow2(k) - 1), Pow2(k));
  }

  lemma {:induction false} ShiftTwice(a: nat, j: nat, k: nat)
    ensures Shr(Shr(a, j), k) == Shr(a, j + k)
    decreases j
  {
    if j > 0 {
      ShiftTwice(a / 2, j - 1, k);
    }
  }

  // A mask of higher bits tests the shifted number.
  lemma {:induction false} AndHighMask(a: nat, b: nat, k: nat)
    ensures And(a, Shl(b, k)) == Shl(And(Shr(a, k), b), k)
    decreases k
  {
    if k > 0 {
      AndHighMask(a / 2, b, k - 1);
      if a == 0 {
        ShiftZero(k);
      }
    }
  }

  lemma {:induction false} PowersAdd(j: nat, k: nat)
    ensures Pow2(j + k) == Pow2(j) * Pow2(k)
    decreases j
  {
    if j > 0 {
      PowersAdd(j - 1, k);
    }
  }

  lemma {:induction false} MaskKeepsSmall(a: nat, k: nat)
    requires a < Pow2(k)
    ensures And(a, Pow2(k) - 1) == a
    decreases k
  {
    if k > 0 {
      MaskKeepsSmall(a / 2, k - 1);
      assert (Pow2(k) - 1) / 2 == Pow2(k - 1) - 1;
    }
  }

  lemma {:induction false} ShiftedSize(a: nat, k: nat, count: nat)
    requires a < Pow2(k + count)
    ensures Shr(a, k) < Pow2(count)
    decreases k
  {
    if k > 0 {
      ShiftedSize(a / 2, k - 1, count);
    }
  }

  lemma {:induction false} ShiftedAway(a: nat, k: nat)
    ensures Shr(a, k) == 0 <==> a < Pow2(k)
    ensures Shl(a, k) == 0 <==> a == 0
    decreases k
  {
    if k > 0 {
      ShiftedAway(a / 2, k - 1);
      ShiftedAway(a, k - 1);
    }
  }

  // The complement of the low k bits in a word of the given width.
  lemma HighMask(k: nat, width: nat)
    requires k <= width
    ensures Pow2(k) <= Pow2(width)
    ensures Pow2(width) - Pow2(k) == Shl(Pow2(width - k) - 1, k)
  {
    ShlOfPower(width - k, k);
    ShlNext(Pow2(width - k) - 1, k);
  }

  lemma MaskedHigh(a: nat, k: nat, count: nat, mask: nat)
    requires a < Pow2(k + count) && mask == Pow2(count) - 1
    ensures And(a, Shl(mask, k)) == Shl(Shr(a, k), k)
  {
    AndHighMask(a, mask, k);
    ShiftedSize(a, k, count);
    MaskKeepsSmall(Shr(a, k), count);
  }

  // Clearing the low bits of an address leaves the start of its line.
  lemma ClearLowBits(a: nat, k: nat, width: nat)
    requires k <= width && a < Pow2(width)
    ensures Pow2(k) <= Pow2(width)
    ensures And(a, Pow2(width) - Pow2(k)) == Shl(Shr(a, k), k)
  {
    HighMask(k, width);
    MaskedHigh(a, k, width - k, Pow2(width - k) - 1);
  }

  // ----- powers of two -----

  ghost predicate PowerOfTwo(n: nat) {
    exists k: nat :: n == Pow2(k)
  }

  lemma OddPower(n: nat)
    requires n % 2 == 1
    ensures PowerOfTwo(n) <==> n == 1
  {
    assert Pow2(0) == 1;
  }

  lemma EvenPower(n: nat)
    requires n % 2 == 0
    ensures PowerOfTwo(n) <==> PowerOfTwo(n / 2)
  {
    if PowerOfTwo(n) {
      var k: nat :| n == Pow2(k);
      assert n / 2 == Pow2(k - 1);
    }
    if PowerOfTwo(n / 2) {
      var k: nat :| n / 2 == Pow2(k);
      assert n == Pow2(k + 1);
    }
  }

  lemma {:induction false} AndWithItself(n: nat)
    ensures And(n, n) == n
  {
    if n > 0 {
      AndWithItself(n / 2);
    }
  }

  lemma {:induction false} AndOfPredecessor(n: nat)
    requires n > 0
    ensures And(n, n - 1) == 0 <==> PowerOfTwo(n)
  {
    if n % 2 == 1 {
      OddPower(n);
      AndWithItself(n / 2);
      assert (n - 1) / 2 == n / 2;
    } else {
      EvenPower(n);
      AndOfPredecessor(n / 2);
      assert (n - 1) / 2 == n / 2 - 1;
    }
  }

  // The test accepts exactly the powers of two and zero.
  lemma IsPower2Accepts(n: nat)
    requires n < UINT32_LIMIT
    ensures IsPower2(n) <==> n == 0 || PowerOfTwo(n)
  {
    if n > 0 {
      AndOfPredecessor(n);
    }
  }

  // ----- position of the highest bit -----

  lemma {:induction false} ShiftedToOne(n: nat, p: nat)
    ensures Shr(n, p) == 1 <==> Pow2(p) <= n < Pow2(p + 1)
    decreases p
  {
    if p > 0 {
      ShiftedToOne(n / 2, p - 1);
    } else {
      assert Pow2(1) == 2;
    }
  }

  // Whether any of `count` bits from position k up are set, when there are
  // none above them.
  lemma MaskTestsSize(n: nat, k: nat, count: nat)
    requires n < Pow2(k + count)
    ensures And(n, Shl(Pow2(count) - 1, k)) != 0 <==> n >= Pow2(k)
    ensures Shr(n, k) < Pow2(count)
  {
    AndHighMask(n, Pow2(count) - 1, k);
    ShiftedSize(n, k, count);
    MaskKeepsSmall(Shr(n, k), count);
    ShiftedAway(n, k);
    ShiftedAway(Shr(n, k), k);
  }

  // One halving step: either the upper half of the remaining bits is empty, or
  // it is shifted down and its width added to p.
  method HalvingStep(word: nat, n: nat, p: nat, mask: nat, width: nat) returns (n': nat, p': nat)
    requires mask == (Pow2(width) - 1) * Pow2(width)
    requires n > 0 && n == Shr(word, p) && n < Pow2(width + width)
    ensures n' > 0 && n' == Shr(word, p') && n' < Pow2(width)
  {
    ShlMultiplies(Pow2(width) - 1, width);
    MaskTestsSize(n, width, width);
    ShiftedAway(n, width);
    n', p' := n, p;
    if And(n, mask) != 0 {
      ShiftTwice(word, p, width);
      p' := p + width;
      n' := Shr(n, width);
    }
  }

  lemma PowersUpTo32()
    ensures Pow2(1) == 2 && Pow2(2) == 4 && Pow2(4) == 16 && Pow2(8) == 256
    ensures Pow2(16) == 0x1_0000 && Pow2(32) == UINT32_LIMIT
  {
    assert Pow2(1) == 2;
    assert Pow2(2) == 4;
    PowersAdd(2, 2);
    assert Pow2(4) == 16;
    PowersAdd(4, 4);
    assert Pow2(8) == 256;
    PowersAdd(8, 8);
    assert Pow2(16) == 0x1_0000;
    PowersAdd(16, 16);
  }

  // floor(log2(n)), and -1 for 0.
  method FloorLog2(n: nat) returns (p: int)
    requires n < UINT32_LIMIT
    ensures n == 0 ==> p == -1
    ensures n > 0 ==> p >= 0 && Pow2(p) <= n < Pow2(p + 1)
  {
    if n == 0 {
      return -1;
    }
    PowersUpTo32();
    var m, q: nat := n, 0;
    m, q := HalvingStep(n, m, q, 0xffff0000, 16);
    m, q := HalvingStep(n, m, q, 0x0000ff00, 8);
    m, q := HalvingStep(n, m, q, 0x000000f0, 4);
    m, q := HalvingStep(n, m, q, 0x0000000c, 2);
    m, q := HalvingStep(n, m, q, 0x00000002, 1);
    ShiftedToOne(n, q);
    p := q;
  }

  lemma {:induction false} PowersAreOrdered(j: nat, k: nat)
    requires j < k
    ensures Pow2(j) < Pow2(k)
    decreases k
  {
    if j < k - 1 {
      PowersAreOrdered(j, k - 1);
    }
  }

  // On a power of two the logarithm is exact.
  lemma ExactLog(n: nat, p: nat, k: nat)
    requires n == Pow2(k) && Pow2(p) <= n < Pow2(p + 1)
    ensures p == k
  {
    if p < k && p + 1 < k {
      PowersAreOrdered(p + 1, k);
    } else if k < p {
      PowersAreOrdered(k, p);
    }
  }
}
