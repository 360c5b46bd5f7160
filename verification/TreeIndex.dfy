/**
  Which tree bin holds a chunk size, and which half of a bin's size range each bit of the
  size selects.
 */
module TreeIndex {
  import opened Words

  const NTREEBINS: nat := 32

  /** compute_tree_index, with `bsrl` for the position of the highest bit. */
  function Index(s: nat): nat {
    var x := s / 256;
    if x == 0 then 0
    else if x > 0xFFFF then NTREEBINS - 1
    else
      var k := Bsr(x);
      2 * k + if Marked(s, k + 7) then 1 else 0
  }

  /** minsize_for_tree_index: the smallest size held in bin `i`. */
  function MinSize(i: nat): nat {
    if i % 2 == 0 then 2 * Pow2(i / 2 + 7) else 3 * Pow2(i / 2 + 7)
  }

  /** leftshift_for_tree_index: brings the first size bit a bin has not fixed to the sign position. */
  function LeftShift(i: nat): nat
    requires i < NTREEBINS
  {
    if i == NTREEBINS - 1 then 0 else 31 - (i / 2 + 6)
  }

  /** A chunk size lies in bin `i`'s size range. */
  predicate InBin(s: nat, i: nat) {
    i < NTREEBINS && MinSize(i) <= s && (i < NTREEBINS - 1 ==> s < MinSize(i + 1))
  }

  /** Two bins for each power of two. */
  lemma MinSizes(k: nat)
    ensures MinSize(2 * k) == 2 * Pow2(k + 7)
    ensures MinSize(2 * k + 1) == 3 * Pow2(k + 7)
    ensures MinSize(2 * k + 2) == 4 * Pow2(k + 7)
  {
    assert (2 * k) / 2 == k && (2 * k + 1) / 2 == k && (2 * k + 2) / 2 == k + 1;
  }

  lemma MinSizeStep(i: nat)
    ensures MinSize(i) < MinSize(i + 1)
  {
    MinSizes(i / 2);
  }

  lemma {:induction false} MinSizeMono(i: nat, j: nat)
    requires i < j
    ensures MinSize(i) < MinSize(j)
  {
    MinSizeStep(j - 1);
    if i < j - 1 {
      MinSizeMono(i, j - 1);
    }
  }

  lemma Scale256(k: nat)
    ensures 256 * Pow2(k) == Pow2(k + 8)
  {
    assert Pow2(8) == 256;
    Pow2Add(k, 8);
  }

  /** Every large size is in the bin whose size interval contains it. */
  lemma IndexInterval(s: nat)
    requires 256 <= s < WORD
    ensures Index(s) < NTREEBINS && InBin(s, Index(s))
  {
    var x := s / 256;
    if x > 0xFFFF {
      LastBin(s);
    } else {
      var k := Bsr(x);
      BsrBounds(x);
      BsrSmall(x);
      Scale256(k);
      IndexHalf(s, k);
      IndexMiddle(s, k);
    }
  }

  lemma IndexMiddle(s: nat, k: nat)
    requires 0 < s / 256 <= 0xFFFF && k == Bsr(s / 256)
    ensures Index(s) == 2 * k + if Marked(s, k + 7) then 1 else 0
  {
  }

  lemma LastBin(s: nat)
    requires s >= 0x100_0000
    ensures InBin(s, NTREEBINS - 1)
  {
    assert Pow2(22) == 0x40_0000 by {
      assert Pow2(11) == 2048;
      Pow2Add(11, 11);
    }
  }

  lemma BsrSmall(x: nat)
    requires 0 < x <= 0xFFFF
    ensures Bsr(x) <= 15
  {
    BsrBounds(x);
    Pow2Add(8, 8);
    assert Pow2(8) == 256;
    if 15 < Bsr(x) {
      Pow2Mono(15, Bsr(x));
    }
  }

  /** The bit after the highest one says which half of a power-of-two range a size is in. */
  lemma SecondBit(s: nat, k: nat)
    requires 2 * Pow2(k) <= s < 4 * Pow2(k)
    ensures Marked(s, k) <==> 3 * Pow2(k) <= s
  {
    MarkedShiftRight(s, k, 0);
    ShiftRightBound(s, k, 2);
    ShiftRightBound(s, k, 3);
    ShiftRightBound(s, k, 4);
  }

  lemma IndexHalf(s: nat, k: nat)
    requires 2 * Pow2(k + 7) <= s < 4 * Pow2(k + 7) && k <= 15
    ensures InBin(s, 2 * k + if Marked(s, k + 7) then 1 else 0)
  {
    MinSizes(k);
    SecondBit(s, k + 7);
    if Marked(s, k + 7) {
      assert InBin(s, 2 * k + 1);
    } else {
      assert InBin(s, 2 * k);
    }
  }

  /** The intervals do not overlap, so the interval determines the bin. */
  lemma InBinUnique(s: nat, i: nat, j: nat)
    requires InBin(s, i) && InBin(s, j)
    ensures i == j
  {
    if i < j {
      if i + 1 < j {
        MinSizeMono(i + 1, j);
      }
      assert false;
    } else if j < i {
      if j + 1 < i {
        MinSizeMono(j + 1, i);
      }
      assert false;
    }
  }

  /** Every size in a later bin is larger than every size in an earlier one. */
  lemma LaterBinsAreLarger(s: nat, i: nat, t: nat, j: nat)
    requires InBin(s, i) && InBin(t, j) && i < j
    ensures s < t
  {
    if i + 1 < j {
      MinSizeMono(i + 1, j);
    }
  }

  // ----- the size bits a bin fixes

  /** The number of low size bits that bin `i` leaves open; its trie consumes them one per level. */
  function OpenBits(i: nat): nat {
    if i == NTREEBINS - 1 then 32 else i / 2 + 7
  }

  /** The bits above them, which all sizes in bin `i` share. */
  function Prefix(i: nat): nat {
    if i == NTREEBINS - 1 then 0 else 2 + i % 2
  }

  lemma HalfPrefix(s: nat, k: nat, h: nat)
    requires h < 2 && MinSize(2 * k + h) <= s < MinSize(2 * k + h + 1)
    ensures ShiftRight(s, k + 7) == 2 + h
  {
    MinSizes(k);
    ShiftRightBound(s, k + 7, 2);
    ShiftRightBound(s, k + 7, 3);
    ShiftRightBound(s, k + 7, 4);
  }

  lemma BinPrefix(s: nat, i: nat)
    requires InBin(s, i) && s < WORD
    ensures ShiftRight(s, OpenBits(i)) == Prefix(i)
    ensures LeftShift(i) == 32 - OpenBits(i)
  {
    if i == NTREEBINS - 1 {
      LastPrefix(s, 32);
    } else {
      HalfPrefix(s, i / 2, i % 2);
    }
  }

  lemma LastPrefix(s: nat, bits: nat)
    requires s < WORD && bits == 32
    ensures ShiftRight(s, bits) == 0
  {
    WordIsPow2();
    ShiftRightBound(s, bits, 1);
  }

  // ----- the portable forms

  /** `((y - c) >> 16) & bit` on 32-bit words: the subtraction borrows from the upper half exactly if `y` is below `c`. */
  function Borrowed(y: nat, c: nat, bit: nat): nat {
    And(ShiftRight((y + WORD - c % WORD) % WORD, 16), bit)
  }

  lemma BorrowedIs(y: nat, c: nat, bit: nat)
    requires y < 0x1_0000 && 0 < c < 0x1_0000 && (bit == 2 || bit == 4 || bit == 8)
    ensures Borrowed(y, c, bit) == if y < c then bit else 0
  {
    var z := (y + WORD - c % WORD) % WORD;
    Pow2Sixteen();
    if y < c {
      assert z == WORD - (c - y);
      ShiftRightBound(z, 16, 0xFFFF);
      ShiftRightBound(z, 16, 0x1_0000);
      AllSet(bit);
    } else {
      assert z == y - c;
      ShiftRightBound(z, 16, 1);
    }
  }

  lemma Pow2Sixteen()
    ensures Pow2(14) == 0x4000 && Pow2(15) == 0x8000 && Pow2(16) == 0x1_0000
  {
    assert Pow2(7) == 128 && Pow2(8) == 256;
    Pow2Add(7, 7);
    Pow2Add(7, 8);
    Pow2Add(8, 8);
  }

  lemma AllSet(bit: nat)
    requires bit == 2 || bit == 4 || bit == 8
    ensures And(0xFFFF, bit) == bit
  {
    AndBit(0xFFFF, 1);
    AndBit(0xFFFF, 2);
    AndBit(0xFFFF, 3);
    assert Pow2(1) == 2 && Pow2(2) == 4 && Pow2(3) == 8;
    assert Marked(0xFFFF, 1) && Marked(0xFFFF, 2) && Marked(0xFFFF, 3);
  }

  /** One step of the search for the highest bit: a number below `c` is moved up by `bit`, and `n` counts that. */
  function Up(n: nat, y: nat, c: nat, bit: nat): (r: (nat, nat))
    requires y < WORD
    ensures r.1 < WORD
  {
    var k := Borrowed(y, c, bit);
    (n + k, ShiftLeft(y, k))
  }

  /** The highest bit without `bsrl`. */
  function PortableBsr(x: nat): (k: nat)
    requires x < WORD
    ensures k < WORD
  {
    var (n1, y1) := Up(0, x, 0x100, 8);
    var (n2, y2) := Up(n1, y1, 0x1000, 4);
    var (n3, y3) := Up(n2, y2, 0x4000, 2);
    BitFrom(n3, y3)
  }

  /** `14 - n + (y >> 15)` */
  function BitFrom(n: nat, y: nat): nat {
    (14 + WORD - n % WORD + ShiftRight(y, 15)) % WORD
  }

  /** `(k << 1) + ((s >> (k + 7)) & 1)` */
  function BinFrom(s: nat, k: nat): nat
    requires k < WORD
  {
    ShiftLeft(k, 1) + And(ShiftRight(s, k + 7), 1)
  }

  /** The branch-free compute_tree_index used where `bsrl` is not available. */
  function PortableIndex(s: nat): nat
    requires s < WORD
  {
    var x := ShiftRight(s, 8);
    if x == 0 then 0
    else if x > 0xFFFF then NTREEBINS - 1
    else
      BinFrom(s, PortableBsr(x))
  }

  /** `x` has been moved up by `n` bits to `y`, which is at least `lo`. */
  ghost predicate Moved(x: nat, n: nat, y: nat, lo: nat) {
    y == x * Pow2(n) && lo <= y < 0x1_0000
  }

  lemma TimesStays(y: nat, lo: nat, c: nat, p: nat)
    requires lo <= y < c && lo * p == c && c * p <= 0x1_0000
    ensures c <= y * p < 0x1_0000
  {
    MulMono(lo, y, p);
    MulMono(y + 1, c, p);
    assert p > 0;
  }

  lemma MovedTwice(x: nat, n: nat, y: nat, k: nat)
    requires y == x * Pow2(n)
    ensures y * Pow2(k) == x * Pow2(n + k)
  {
    Pow2Add(n, k);
    var a, b := Pow2(n), Pow2(k);
    assert x * a * b == x * (a * b);
  }

  lemma MoveUp(x: nat, n: nat, y: nat, lo: nat, c: nat, bit: nat)
    requires Moved(x, n, y, lo) && 0 < c < 0x1_0000 && (bit == 2 || bit == 4 || bit == 8)
    requires lo * Pow2(bit) == c && c * Pow2(bit) <= 0x1_0000
    ensures Up(n, y, c, bit).0 <= n + bit && Moved(x, Up(n, y, c, bit).0, Up(n, y, c, bit).1, c)
  {
    BorrowedIs(y, c, bit);
    var k := if y < c then bit else 0;
    if y < c {
      TimesStays(y, lo, c, Pow2(bit));
    } else {
      assert y * Pow2(0) == y;
    }
    ShiftLeftExact(y, k);
    MovedTwice(x, n, y, k);
  }

  lemma BsrIs(x: nat, k: nat)
    requires Pow2(k) <= x < Pow2(k + 1)
    ensures Bsr(x) == k
  {
    BsrBounds(x);
    if Bsr(x) < k {
      Pow2Mono(Bsr(x) + 1, k);
    } else if Bsr(x) > k {
      Pow2Mono(k + 1, Bsr(x));
    }
  }

  lemma BsrScaled(x: nat, n: nat, y: nat, k: nat)
    requires y == x * Pow2(n) && Pow2(k + n) <= y < Pow2(k + 1 + n)
    ensures Bsr(x) == k
  {
    Pow2Add(k, n);
    Pow2Add(k + 1, n);
    if x < Pow2(k) {
      MulMono(x + 1, Pow2(k), Pow2(n));
    }
    if x >= Pow2(k + 1) {
      MulMono(Pow2(k + 1), x, Pow2(n));
    }
    BsrIs(x, k);
  }

  lemma TopBit15(n: nat, y: nat)
    requires n <= 14 && 0x4000 <= y < 0x1_0000
    ensures BitFrom(n, y) == if y < 0x8000 then 14 - n else 15 - n
  {
    Pow2Sixteen();
    ShiftRightBound(y, 15, 1);
    ShiftRightBound(y, 15, 2);
  }

  /** Moved up by `n` bits, a number has its highest bit at 14 or 15. */
  lemma HighestBit(x: nat, n: nat, y: nat)
    requires Moved(x, n, y, 0x4000) && n <= 14
    ensures BitFrom(n, y) == Bsr(x)
  {
    TopBit15(n, y);
    Pow2Sixteen();
    BsrScaled(x, n, y, if y < 0x8000 then 14 - n else 15 - n);
  }

  lemma Factors()
    ensures 1 * Pow2(8) == 0x100 && 0x100 * Pow2(8) == 0x1_0000
    ensures 0x100 * Pow2(4) == 0x1000 && 0x1000 * Pow2(4) == 0x1_0000
    ensures 0x1000 * Pow2(2) == 0x4000 && 0x4000 * Pow2(2) == 0x1_0000
  {
    assert Pow2(8) == 256 && Pow2(4) == 16 && Pow2(2) == 4;
  }

  /** The three steps find the highest bit. */
  lemma PortableBsrIs(x: nat)
    requires 0 < x <= 0xFFFF
    ensures PortableBsr(x) == Bsr(x)
  {
    Factors();
    assert x * Pow2(0) == x;
    MoveUp(x, 0, x, 1, 0x100, 8);
    var (n1, y1) := Up(0, x, 0x100, 8);
    MoveUp(x, n1, y1, 0x100, 0x1000, 4);
    var (n2, y2) := Up(n1, y1, 0x1000, 4);
    MoveUp(x, n2, y2, 0x1000, 0x4000, 2);
    var (n3, y3) := Up(n2, y2, 0x4000, 2);
    HighestBit(x, n3, y3);
  }

  lemma LastOfIndex(s: nat, k: nat)
    requires k <= 15
    ensures BinFrom(s, k) == 2 * k + if Marked(s, k + 7) then 1 else 0
  {
    assert Pow2(1) == 2 && Pow2(0) == 1;
    ShiftLeftExact(k, 1);
    AndBit(ShiftRight(s, k + 7), 0);
    MarkedShiftRight(s, k + 7, 0);
  }

  lemma PortableMiddle(s: nat, x: nat)
    requires s < WORD && x == ShiftRight(s, 8) && 0 < x <= 0xFFFF
    ensures PortableIndex(s) == BinFrom(s, PortableBsr(x))
  {
  }

  lemma PortableEdges(s: nat, x: nat)
    requires s < WORD && x == ShiftRight(s, 8) == s / 256 && (x == 0 || x > 0xFFFF)
    ensures PortableIndex(s) == Index(s)
  {
  }

  /** The branch-free form gives every size the same bin. */
  lemma PortableIndexIs(s: nat)
    requires s < WORD
    ensures PortableIndex(s) == Index(s)
  {
    ShiftRight8(s);
    var x := s / 256;
    if 0 < x <= 0xFFFF {
      var k := Bsr(x);
      PortableBsrIs(x);
      PortableMiddle(s, x);
      BsrSmall(x);
      LastOfIndex(s, k);
      IndexMiddle(s, k);
    } else {
      PortableEdges(s, x);
    }
  }

  /** `(y >> (m - l)) & m`, with bit `l` for `m`. */
  function Upper(y: nat, m: nat, l: nat): nat
    requires l <= m
  {
    And(ShiftRight(y, m - l), m)
  }

  /** The steps for bits `l` to 0, each with half the shift of the one before. */
  function Halving(y: nat, l: nat): nat
    decreases l, y
  {
    Pow2Above(l);
    var k := Upper(y, Pow2(l), l);
    k + if l == 0 then ShiftRight(y, k) else Halving(ShiftRight(y, k), l - 1)
  }

  lemma {:induction false} Pow2Above(l: nat)
    ensures l < Pow2(l)
  {
    if l > 0 {
      Pow2Above(l - 1);
    }
  }

  const FIRST_STEP: nat := 4

  /** The branch-free compute_bit2idx: steps of 16, 8, 4, 2 and 1. */
  function PortableBitIndex(x: nat): nat
    requires 0 < x < WORD
  {
    Halving(x - 1, FIRST_STEP)
  }

  /** In a row of `j` ones exactly the bits below `j` are set. */
  lemma {:induction false} MarkedOnes(j: nat, i: nat)
    ensures Marked(Pow2(j) - 1, i) <==> i < j
    decreases j
  {
    if j == 0 {
      MarkedZero(i);
    } else if i > 0 {
      assert (Pow2(j) - 1) / 2 == Pow2(j - 1) - 1;
      MarkedOnes(j - 1, i - 1);
    }
  }

  lemma {:induction false} ShiftOnes(j: nat, m: nat)
    requires m <= j
    ensures ShiftRight(Pow2(j) - 1, m) == Pow2(j - m) - 1
    decreases m
  {
    if m > 0 {
      assert (Pow2(j) - 1) / 2 == Pow2(j - 1) - 1;
      ShiftOnes(j - 1, m - 1);
    }
  }

  ghost predicate Ones(y: nat, j: nat) {
    y == Pow2(j) - 1
  }

  /** One step: a row of more than `m` ones loses `m` of them. */
  lemma OnesLost(y: nat, j: nat, m: nat, l: nat)
    requires m == Pow2(l) && l < m && j <= 2 * m && Ones(y, j)
    ensures var k := Upper(y, m, l); k <= j && j - k <= m && Ones(ShiftRight(y, k), j - k)
  {
    AndBit(ShiftRight(y, m - l), l);
    MarkedShiftRight(y, m - l, l);
    MarkedOnes(j, m);
    ShiftOnes(j, if m < j then m else 0);
  }

  /** The steps count a row of ones. */
  lemma {:induction false} HalvingCounts(y: nat, j: nat, l: nat)
    requires Ones(y, j) && j <= 2 * Pow2(l)
    ensures Halving(y, l) == j
    decreases l
  {
    Pow2Above(l);
    var k := Upper(y, Pow2(l), l);
    OnesLost(y, j, Pow2(l), l);
    if l > 0 {
      HalvingCounts(ShiftRight(y, k), j - k, l - 1);
    }
  }

  lemma BitIndexOf(i: nat, x: nat, l: nat)
    requires i < 32 && 0 < x < WORD && Ones(x - 1, i) && l == FIRST_STEP && Pow2(l) == 16
    ensures PortableBitIndex(x) == i
  {
    HalvingCounts(x - 1, i, l);
  }

  /** On an isolated bit the branch-free form gives the index that the bit scan gives. */
  lemma PortableBitIndexIs(i: nat)
    requires i < 32
    ensures Pow2(i) < WORD && PortableBitIndex(Pow2(i)) == i == Bsf(Pow2(i))
  {
    Pow2Word(i);
    BsfPow2(i);
    assert Pow2(4) == 16;
    BitIndexOf(i, Pow2(i), 4);
  }
}
