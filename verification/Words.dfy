/**
  32-bit machine words as natural numbers below 2^32, read bit by bit.

  The allocator keeps one bit per bin in a word and picks bins with the classic bit tricks
  (`x & -x`, `(x << 1) | -(x << 1)`). This module gives those tricks their word-level
  definitions and proves which bits they select.
 */
module Words {

  const WORD: nat := 0x1_0000_0000

  /** A signed 32-bit value. */
  predicate Int32(x: int) {
    -0x8000_0000 <= x < 0x8000_0000
  }

  function Pow2(n: nat): (r: nat)
    ensures r >= 1
  {
    if n == 0 then 1 else 2 * Pow2(n - 1)
  }

  /** Bit `i` of `m` is set. */
  predicate Marked(m: nat, i: nat) {
    if i == 0 then m % 2 == 1 else Marked(m / 2, i - 1)
  }

  function And(a: nat, b: nat): nat {
    if a == 0 then 0 else 2 * And(a / 2, b / 2) + (a % 2) * (b % 2)
  }

  function Or(a: nat, b: nat): nat
    decreases a + b
  {
    if a == 0 && b == 0 then 0
    else 2 * Or(a / 2, b / 2) + (if a % 2 == 1 || b % 2 == 1 then 1 else 0)
  }

  function Xor(a: nat, b: nat): nat
    decreases a + b
  {
    if a == 0 && b == 0 then 0 else 2 * Xor(a / 2, b / 2) + (a + b) % 2
  }

  function Not(a: nat): nat
    requires a < WORD
  {
    WORD - 1 - a
  }

  /** Unsigned negation of a 32-bit word. */
  function Neg(a: nat): nat
    requires a < WORD
  {
    if a == 0 then 0 else WORD - a
  }

  /** `a << k` on 32-bit words: each step drops the bit that leaves the word. */
  function ShiftLeft(a: nat, k: nat): (r: nat)
    requires a < WORD
    ensures r < WORD
    decreases k
  {
    if k == 0 then a else (2 * ShiftLeft(a, k - 1)) % WORD
  }

  function ShiftRight(a: nat, k: nat): nat
    decreases k, a
  {
    if k == 0 then a else ShiftRight(a / 2, k - 1)
  }

  /** Index of the lowest set bit (the `bsfl` instruction). */
  function Bsf(x: nat): nat
    requires x != 0
  {
    if x % 2 == 1 then 0 else 1 + Bsf(x / 2)
  }

  /** Index of the highest set bit (the `bsrl` instruction). */
  function Bsr(x: nat): nat
    requires x != 0
  {
    if x == 1 then 0 else 1 + Bsr(x / 2)
  }

  // ----- powers of two

  lemma WordIsPow2()
    ensures Pow2(32) == WORD && Pow2(31) == 0x8000_0000
  {
    assert Pow2(8) == 256;
    Pow2Add(8, 8);
    Pow2Add(16, 16);
  }

  lemma {:induction false} Pow2Mono(i: nat, j: nat)
    requires i < j
    ensures 2 * Pow2(i) <= Pow2(j)
  {
    if i + 1 < j {
      Pow2Mono(i, j - 1);
    }
  }

  lemma {:induction false} Pow2Add(i: nat, j: nat)
    ensures Pow2(i + j) == Pow2(i) * Pow2(j)
  {
    if i > 0 {
      Pow2Add(i - 1, j);
      assert Pow2(i + j) == 2 * Pow2((i - 1) + j);
    }
  }

  lemma {:induction false} BsrBounds(x: nat)
    requires x != 0
    ensures Pow2(Bsr(x)) <= x < 2 * Pow2(Bsr(x))
  {
    if x != 1 {
      BsrBounds(x / 2);
    }
  }

  // ----- which bits an operation leaves set

  lemma {:induction false} MarkedZero(i: nat)
    ensures !Marked(0, i)
  {
    if i > 0 {
      MarkedZero(i - 1);
    }
  }

  lemma AndStep(a: nat, b: nat)
    requires a != 0
    ensures And(a, b) / 2 == And(a / 2, b / 2)
    ensures And(a, b) % 2 == 1 <==> a % 2 == 1 && b % 2 == 1
  {
    if a % 2 == 0 {
    } else if b % 2 == 0 {
    } else {
    }
  }

  lemma {:induction false} MarkedAnd(a: nat, b: nat, i: nat)
    ensures Marked(And(a, b), i) <==> Marked(a, i) && Marked(b, i)
  {
    if a == 0 {
      MarkedZero(i);
    } else {
      AndStep(a, b);
      if i > 0 {
        MarkedAnd(a / 2, b / 2, i - 1);
      }
    }
  }

  lemma {:induction false} MarkedOr(a: nat, b: nat, i: nat)
    ensures Marked(Or(a, b), i) <==> Marked(a, i) || Marked(b, i)
    decreases i
  {
    if a == 0 && b == 0 {
      MarkedZero(i);
    } else if i > 0 {
      MarkedOr(a / 2, b / 2, i - 1);
    }
  }

  lemma {:induction false} MarkedPow2(i: nat, j: nat)
    ensures Marked(Pow2(i), j) <==> i == j
  {
    if i == 0 && j > 0 {
      MarkedZero(j - 1);
    } else if i > 0 && j > 0 {
      MarkedPow2(i - 1, j - 1);
    }
  }

  lemma {:induction false} MarkedShiftRight(m: nat, k: nat, i: nat)
    ensures Marked(ShiftRight(m, k), i) <==> Marked(m, k + i)
  {
    if k > 0 {
      MarkedShiftRight(m / 2, k - 1, i);
    }
  }

  lemma DivUnique(a: nat, p: nat, q: nat, r: nat)
    requires p > 0 && r < p && a == p * q + r
    ensures a / p == q && a % p == r
  {
    var e := q - a / p;
    assert p * e == a % p - r;
    assert e >= 1 ==> p * e >= p;
    assert e <= -1 ==> p * e + p <= 0;
  }

  lemma {:induction false} MarkedComplement(n: nat, x: nat, i: nat)
    requires x < Pow2(n) && i < n
    ensures Marked(Pow2(n) - 1 - x, i) <==> !Marked(x, i)
  {
    if i > 0 {
      MarkedComplement(n - 1, x / 2, i - 1);
      assert (Pow2(n) - 1 - x) / 2 == Pow2(n - 1) - 1 - x / 2;
    }
  }

  lemma {:induction false} UnmarkedAbove(n: nat, x: nat, i: nat)
    requires x < Pow2(n) && n <= i
    ensures !Marked(x, i)
  {
    if n == 0 {
      MarkedZero(i);
    } else {
      UnmarkedAbove(n - 1, x / 2, i - 1);
    }
  }

  lemma {:induction false} BsfMarked(n: nat, x: nat)
    requires 0 < x < Pow2(n)
    ensures Bsf(x) < n && Marked(x, Bsf(x))
  {
    if x % 2 == 0 {
      BsfMarked(n - 1, x / 2);
    } else {
      assert n > 0;
    }
  }

  lemma {:induction false} BsfFirst(x: nat, j: nat)
    requires 0 < x && j < Bsf(x)
    ensures !Marked(x, j)
  {
    if j > 0 {
      BsfFirst(x / 2, j - 1);
    }
  }

  /** Two's complement negation keeps the lowest set bit and flips everything above it. */
  lemma {:induction false} MarkedNeg(n: nat, x: nat, i: nat)
    requires 0 < x < Pow2(n) && i < n
    ensures Marked(Pow2(n) - x, i) <==> i == Bsf(x) || (i > Bsf(x) && !Marked(x, i))
  {
    HalveNeg(n, x);
    if i > 0 {
      if x % 2 == 1 {
        MarkedComplement(n - 1, x / 2, i - 1);
      } else {
        MarkedNeg(n - 1, x / 2, i - 1);
      }
    }
  }

  lemma HalveNeg(n: nat, x: nat)
    requires 0 < x < Pow2(n) && n > 0
    ensures (Pow2(n) - x) % 2 == x % 2
    ensures x % 2 == 1 ==> (Pow2(n) - x) / 2 == Pow2(n - 1) - 1 - x / 2
    ensures x % 2 == 0 ==> (Pow2(n) - x) / 2 == Pow2(n - 1) - x / 2
  {
  }

  /** The highest bit of an (n+1)-bit number says whether it reaches 2^n; the rest are the remainder's. */
  lemma {:induction false} TopBit(n: nat, x: nat, i: nat)
    requires x < Pow2(n + 1)
    ensures Marked(x, n) <==> x >= Pow2(n)
    ensures x >= Pow2(n) && i < n ==> (Marked(x - Pow2(n), i) <==> Marked(x, i))
  {
    if n > 0 {
      TopBit(n - 1, x / 2, if i > 0 then i - 1 else 0);
    }
  }

  lemma DoubledBits(x: nat, j: nat)
    requires x < WORD && j < 32
    ensures Marked((2 * x) % WORD, j) <==> j > 0 && Marked(x, j - 1)
  {
    WordIsPow2();
    if j > 0 {
      TopBit(31, x, j - 1);
      assert (2 * x) % WORD == if x < 0x8000_0000 then 2 * x else 2 * (x - 0x8000_0000);
    }
  }

  lemma {:induction false} MarkedShiftLeft(a: nat, k: nat, j: nat)
    requires a < WORD && j < 32
    ensures Marked(ShiftLeft(a, k), j) <==> j >= k && Marked(a, j - k)
    decreases k
  {
    if k > 0 {
      DoubledBits(ShiftLeft(a, k - 1), j);
      if j > 0 {
        MarkedShiftLeft(a, k - 1, j - 1);
      }
    }
  }

  /** The sign bit of `a << k` is bit `31 - k` of `a`. */
  lemma SignOfShift(a: nat, k: nat)
    requires a < WORD && k < 32
    ensures ShiftLeft(a, k) >= 0x8000_0000 <==> Marked(a, 31 - k)
  {
    WordIsPow2();
    MarkedShiftLeft(a, k, 31);
    TopBit(31, ShiftLeft(a, k), 0);
  }

  /** Shifting right one step less keeps one more bit at the end. */
  lemma {:induction false} ShiftRightStep(a: nat, k: nat)
    ensures ShiftRight(a, k) == 2 * ShiftRight(a, k + 1) + if Marked(a, k) then 1 else 0
    decreases k
  {
    if k > 0 {
      ShiftRightStep(a / 2, k - 1);
    }
  }

  lemma {:induction false} ShiftRightMono(a: nat, b: nat, k: nat)
    requires ShiftRight(a, k) < ShiftRight(b, k)
    ensures a < b
    decreases k
  {
    if k > 0 {
      ShiftRightMono(a / 2, b / 2, k - 1);
    }
  }

  lemma {:induction false} ShiftRightBound(a: nat, k: nat, q: nat)
    ensures ShiftRight(a, k) >= q <==> a >= q * Pow2(k)
    decreases k
  {
    if k > 0 {
      ShiftRightBound(a / 2, k - 1, q);
      assert q * Pow2(k) == 2 * (q * Pow2(k - 1));
    }
  }

  lemma {:induction false} AndRange(n: nat, a: nat, b: nat)
    requires a < Pow2(n)
    ensures And(a, b) < Pow2(n)
  {
    if a != 0 {
      AndStep(a, b);
      AndRange(n - 1, a / 2, b / 2);
    }
  }

  lemma {:induction false} OrRange(n: nat, a: nat, b: nat)
    requires a < Pow2(n) && b < Pow2(n)
    ensures Or(a, b) < Pow2(n)
  {
    if a != 0 || b != 0 {
      OrRange(n - 1, a / 2, b / 2);
    }
  }

  lemma {:induction false} AndNothing(a: nat)
    ensures And(a, 0) == 0
  {
    if a != 0 {
      AndNothing(a / 2);
    }
  }

  /** Picking out one bit. */
  lemma {:induction false} AndBit(a: nat, l: nat)
    ensures And(a, Pow2(l)) == if Marked(a, l) then Pow2(l) else 0
    decreases a
  {
    if a == 0 {
      MarkedZero(l);
    } else if l == 0 {
      AndNothing(a / 2);
    } else {
      AndBit(a / 2, l - 1);
      assert Pow2(l) / 2 == Pow2(l - 1) && Pow2(l) % 2 == 0;
    }
  }

  lemma {:induction false} ShiftLeftExact(a: nat, k: nat)
    requires a * Pow2(k) < WORD && a < WORD
    ensures ShiftLeft(a, k) == a * Pow2(k)
    decreases k
  {
    if k > 0 {
      TwiceAsMuch(a, Pow2(k - 1));
      ShiftLeftExact(a, k - 1);
    }
  }

  lemma TwiceAsMuch(a: nat, p: nat)
    ensures a * (2 * p) == 2 * (a * p) && a * p <= a * (2 * p)
  {
  }

  lemma XorStep(a: nat, b: nat)
    ensures Xor(a, b) / 2 == Xor(a / 2, b / 2) && Xor(a, b) % 2 == (a + b) % 2
  {
  }

  lemma MulMono(x: nat, y: nat, z: nat)
    requires x <= y
    ensures x * z <= y * z
  {
  }

  lemma DivMod(a: nat, b: nat)
    requires b > 0
    ensures a == a / b * b + a % b && 0 <= a % b < b && 0 <= a / b
  {
  }

  lemma ShiftRight4(x: nat)
    ensures ShiftRight(x, 4) == x / 16
  {
    assert ShiftRight(x, 4) == ShiftRight(x / 2, 3) == ShiftRight(x / 2 / 2, 2) == ShiftRight(x / 2 / 2 / 2, 1) == x / 2 / 2 / 2 / 2;
  }

  lemma {:induction false} ShiftRightTwice(s: nat, m: nat, n: nat)
    ensures ShiftRight(ShiftRight(s, m), n) == ShiftRight(s, m + n)
    decreases m
  {
    if m > 0 {
      ShiftRightTwice(s / 2, m - 1, n);
    }
  }

  lemma ShiftRight8(x: nat)
    ensures ShiftRight(x, 8) == x / 256
  {
    var k := 4;
    ShiftRight4(x);
    ShiftRight4(x / 16);
    ShiftRightTwice(x, k, k);
  }

  lemma SmallWord(x: nat)
    requires x < WORD
    ensures x % WORD == x
  {
  }

  // ----- bin maps

  function Mark(m: nat, i: nat): nat {
    Or(m, Pow2(i))
  }

  function Clear(m: nat, i: nat): nat
    requires i < 32
  {
    Pow2Word(i);
    And(m, Not(Pow2(i)))
  }

  /** `x & -x` */
  function LeastBit(x: nat): nat
    requires x < WORD
  {
    And(x, Neg(x))
  }

  /** `(x << 1) | -(x << 1)` */
  function LeftBits(x: nat): nat
    requires x < WORD
  {
    var y := ShiftLeft(x, 1);
    Or(y, Neg(y))
  }

  lemma Pow2Word(i: nat)
    requires i < 32
    ensures Pow2(i) <= 0x8000_0000 < WORD
  {
    WordIsPow2();
    if i < 31 {
      Pow2Mono(i, 31);
    }
  }

  lemma MarkBits(m: nat, i: nat, j: nat)
    requires m < WORD && i < 32
    ensures Mark(m, i) < WORD
    ensures Marked(Mark(m, i), j) <==> j == i || Marked(m, j)
  {
    WordIsPow2();
    Pow2Word(i);
    OrRange(32, m, Pow2(i));
    MarkedOr(m, Pow2(i), j);
    MarkedPow2(i, j);
  }

  lemma ClearBits(m: nat, i: nat, j: nat)
    requires m < WORD && i < 32 && j < 32
    ensures Clear(m, i) < WORD
    ensures Marked(Clear(m, i), j) <==> j != i && Marked(m, j)
  {
    WordIsPow2();
    Pow2Word(i);
    AndRange(32, m, Not(Pow2(i)));
    MarkedAnd(m, Not(Pow2(i)), j);
    MarkedComplement(32, Pow2(i), j);
    MarkedPow2(i, j);
  }

  lemma {:induction false} BsfPow2(i: nat)
    ensures Bsf(Pow2(i)) == i
  {
    if i > 0 {
      BsfPow2(i - 1);
    }
  }

  /** `x & -x` isolates the lowest set bit, so `bsf` finds the same index in it. */
  lemma LeastBitIsLowest(x: nat)
    requires 0 < x < WORD
    ensures LeastBit(x) == Pow2(Bsf(x)) && Bsf(LeastBit(x)) == Bsf(x)
  {
    WordIsPow2();
    var l := LeastBit(x);
    AndRange(32, x, Neg(x));
    BsfMarked(32, x);
    Pow2Word(Bsf(x));
    forall i: nat | i < 32 ensures Marked(l, i) == Marked(Pow2(Bsf(x)), i) {
      MarkedAnd(x, Neg(x), i);
      MarkedNeg(32, x, i);
      MarkedPow2(Bsf(x), i);
    }
    SameMarks(32, l, Pow2(Bsf(x)));
    BsfPow2(Bsf(x));
  }

  lemma {:induction false} SameMarks(n: nat, a: nat, b: nat)
    requires a < Pow2(n) && b < Pow2(n)
    requires forall i: nat :: i < n ==> Marked(a, i) == Marked(b, i)
    ensures a == b
  {
    if n > 0 {
      forall i: nat | i < n - 1 ensures Marked(a / 2, i) == Marked(b / 2, i) {
        assert Marked(a, i + 1) == Marked(b, i + 1);
      }
      SameMarks(n - 1, a / 2, b / 2);
      assert Marked(a, 0) == Marked(b, 0);
    }
  }

  /** `left_bits(idx2bit(i))` has exactly the bits above `i`. */
  lemma LeftBitsOfBit(i: nat, j: nat)
    requires i < 32 && j < 32
    ensures Pow2(i) < WORD && LeftBits(Pow2(i)) < WORD
    ensures Marked(LeftBits(Pow2(i)), j) <==> j > i
  {
    DoubleBit(i);
    var y := ShiftLeft(Pow2(i), 1);
    WordIsPow2();
    OrRange(32, y, Neg(y));
    MarkedOr(y, Neg(y), j);
    if i == 31 {
      MarkedZero(j);
    } else {
      BsfPow2(i + 1);
      MarkedPow2(i + 1, j);
      MarkedNeg(32, y, j);
    }
  }

  lemma DoubleBit(i: nat)
    requires i < 32
    ensures Pow2(i) < WORD
    ensures ShiftLeft(Pow2(i), 1) == if i == 31 then 0 else Pow2(i + 1)
  {
    WordIsPow2();
    Pow2Word(i);
    assert ShiftLeft(Pow2(i), 0) == Pow2(i);
    if i < 31 {
      Pow2Word(i + 1);
    }
  }

  /** The lowest set bit of `map`, as `compute_bit2idx(least_bit(map))` finds it. */
  lemma FirstBin(bins: nat)
    requires 0 < bins < WORD
    ensures LeastBit(bins) != 0
    ensures var i := Bsf(LeastBit(bins));
            i < 32 && Marked(bins, i) && forall j: nat :: j < i ==> !Marked(bins, j)
  {
    WordIsPow2();
    LeastBitIsLowest(bins);
    BsfMarked(32, bins);
    forall j: nat | j < Bsf(bins) ensures !Marked(bins, j) {
      BsfFirst(bins, j);
    }
  }

  /** The bins after `idx` that `bins` marks. */
  function LaterBins(bins: nat, idx: nat): nat
    requires idx < 32
  {
    Pow2Word(idx);
    And(LeftBits(Pow2(idx)), bins)
  }

  lemma LaterBinsMarked(bins: nat, idx: nat, j: nat)
    requires bins < WORD && idx < 32 && j < 32
    ensures LaterBins(bins, idx) < WORD
    ensures Marked(LaterBins(bins, idx), j) <==> idx < j && Marked(bins, j)
  {
    WordIsPow2();
    LeftBitsOfBit(idx, j);
    AndRange(32, LeftBits(Pow2(idx)), bins);
    MarkedAnd(LeftBits(Pow2(idx)), bins, j);
  }

  /** The masked map is zero exactly when no bin after `idx` is marked. */
  lemma NoLaterBin(bins: nat, idx: nat)
    requires bins < WORD && idx < 32
    ensures LaterBins(bins, idx) == 0 <==> forall j: nat :: idx < j < 32 ==> !Marked(bins, j)
  {
    var left := LaterBins(bins, idx);
    if left == 0 {
      forall j: nat | idx < j < 32 ensures !Marked(bins, j) {
        LaterBinsMarked(bins, idx, j);
        MarkedZero(j);
      }
    } else {
      WordIsPow2();
      LaterBinsMarked(bins, idx, 0);
      BsfMarked(32, left);
      LaterBinsMarked(bins, idx, Bsf(left));
    }
  }

  /** The search for the next non-empty bin after `idx` finds the first one. */
  lemma FirstLaterBin(bins: nat, idx: nat)
    requires bins < WORD && idx < 32 && LaterBins(bins, idx) != 0
    ensures LaterBins(bins, idx) < WORD && LeastBit(LaterBins(bins, idx)) != 0
    ensures var i := Bsf(LeastBit(LaterBins(bins, idx)));
            idx < i < 32 && Marked(bins, i) && forall j: nat :: idx < j < i ==> !Marked(bins, j)
  {
    var left := LaterBins(bins, idx);
    LaterBinsMarked(bins, idx, 0);
    FirstBin(left);
    var i := Bsf(LeastBit(left));
    LaterBinsMarked(bins, idx, i);
    forall j: nat | idx < j < i ensures !Marked(bins, j) {
      LaterBinsMarked(bins, idx, j);
      assert !Marked(left, j);
    }
  }
}
