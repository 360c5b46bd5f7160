/**
  The bit-serial CRC-32 that the GPT code uses, and which changes of a buffer it is sure to detect.
 */
module Crc {
  import opened Bytes
  import opened Words

  const POLY: nat := 0xedb88320
  const TOP: nat := 0x8000_0000

  // ----- exclusive or

  lemma {:induction false} XorComm(a: nat, b: nat)
    ensures Xor(a, b) == Xor(b, a)
    decreases a + b
  {
    if a != 0 || b != 0 {
      XorComm(a / 2, b / 2);
    }
  }

  lemma {:induction false} XorZero(a: nat)
    ensures Xor(a, 0) == a && Xor(0, a) == a
  {
    if a != 0 {
      XorZero(a / 2);
    }
  }

  lemma {:induction false} XorSelf(a: nat)
    ensures Xor(a, a) == 0
  {
    if a != 0 {
      XorSelf(a / 2);
    }
  }

  /** Two numbers with the same half and the same last bit are equal. */
  lemma SameHalves(a: nat, b: nat)
    requires a / 2 == b / 2 && a % 2 == b % 2
    ensures a == b
  {
  }

  lemma HalfXor(c: nat, d: nat)
    ensures Xor(c, d) / 2 == Xor(c / 2, d / 2)
    ensures Xor(c, d) % 2 == 1 <==> (c % 2 == 1) != (d % 2 == 1)
  {
    XorStep(c, d);
    OddSum(c, d);
  }

  lemma OddSum(c: nat, d: nat)
    ensures (c + d) % 2 == 1 <==> (c % 2 == 1) != (d % 2 == 1)
  {
  }

  lemma {:induction false} XorAssoc(a: nat, b: nat, c: nat)
    ensures Xor(Xor(a, b), c) == Xor(a, Xor(b, c))
    decreases a + b + c
  {
    HalfXor(Xor(a, b), c);
    HalfXor(a, Xor(b, c));
    HalfXor(a, b);
    HalfXor(b, c);
    if a + b + c > 0 {
      XorAssoc(a / 2, b / 2, c / 2);
    }
    SameHalves(Xor(Xor(a, b), c), Xor(a, Xor(b, c)));
  }

  /** Exchange the middle of four terms. */
  lemma XorSwap(a: nat, b: nat, c: nat, d: nat)
    ensures Xor(Xor(a, b), Xor(c, d)) == Xor(Xor(a, c), Xor(b, d))
  {
    XorAssoc(a, b, Xor(c, d));
    XorAssoc(b, c, d);
    XorComm(b, c);
    XorAssoc(c, b, d);
    XorAssoc(a, c, Xor(b, d));
  }

  lemma XorCancel(a: nat, b: nat)
    ensures Xor(Xor(a, b), b) == a
  {
    XorAssoc(a, b, b);
    XorSelf(b);
    XorZero(a);
  }

  /** On `n + 1` bits, the top bit of the result is that of exactly one of the operands. */
  lemma {:induction false} XorTop(a: nat, b: nat, n: nat)
    requires a < Pow2(n + 1) && b < Pow2(n + 1)
    ensures Xor(a, b) < Pow2(n + 1) && (Xor(a, b) >= Pow2(n) <==> (a >= Pow2(n)) != (b >= Pow2(n)))
    decreases n
  {
    XorStep(a, b);
    if n == 0 {
      assert Xor(a / 2, b / 2) == 0;
    } else {
      XorTop(a / 2, b / 2, n - 1);
    }
  }

  // ----- the code

  /** One step of the inner loop. */
  function Step(c: nat): nat {
    Xor(c / 2, if c % 2 == 1 then POLY else 0)
  }

  function Steps(c: nat, n: nat): nat
    decreases n, c
  {
    if n == 0 then c else Steps(Step(c), n - 1)
  }

  /** crc32_le as a function: each byte is added at the low end, then come eight steps. */
  function Crc(c: nat, data: seq<byte>): nat
    decreases |data|
  {
    if data == [] then c else Crc(Steps(Xor(c, data[0]), 8), data[1..])
  }

  /** crc32_le */
  method Crc32Le(crc0: nat, p: seq<byte>) returns (crc: nat)
    ensures crc == Crc(crc0, p)
  {
    crc := crc0;
    var k := 0;
    while k < |p|
      invariant 0 <= k <= |p| && Crc(crc0, p) == Crc(crc, p[k..])
    {
      assert p[k..][1..] == p[k + 1..];
      crc := Xor(crc, p[k]);
      ghost var start := crc;
      var i: nat := 0;
      while i < 8
        invariant i <= 8 && Steps(start, 8) == Steps(crc, 8 - i)
      {
        crc := Xor(crc / 2, if crc % 2 == 1 then POLY else 0);
        i := i + 1;
      }
      k := k + 1;
    }
  }

  function EfiCrc(buf: seq<byte>): nat {
    Xor(Crc(0xffff_ffff, buf), 0xffff_ffff)
  }

  /** efi_crc32 */
  method EfiCrc32(buf: seq<byte>) returns (crc: nat)
    ensures crc == EfiCrc(buf)
  {
    crc := Crc32Le(0xffff_ffff, buf);
    crc := Xor(crc, 0xffff_ffff);
  }

  // ----- the steps are linear and can be undone

  lemma StepLinear(c: nat, d: nat)
    ensures Step(Xor(c, d)) == Xor(Step(c), Step(d))
  {
    HalfXor(c, d);
    var p, q := if c % 2 == 1 then POLY else 0, if d % 2 == 1 then POLY else 0;
    XorSwap(c / 2, p, d / 2, q);
    XorSelf(POLY);
    XorZero(POLY);
    XorZero(0);
  }

  /** The state before a step: the top bit tells whether the polynomial was added. */
  function Unstep(y: nat): nat {
    if y >= TOP then 2 * Xor(y, POLY) + 1 else 2 * y
  }

  lemma TopOf(a: nat, b: nat)
    requires a < WORD && b < WORD
    ensures Xor(a, b) < WORD && (Xor(a, b) >= TOP <==> (a >= TOP) != (b >= TOP))
  {
    WordIsPow2();
    XorTop(a, b, 31);
  }

  lemma StepBack(c: nat)
    requires c < WORD
    ensures Step(c) < WORD && Unstep(Step(c)) == c
  {
    var h := c / 2;
    TopOf(h, POLY);
    XorZero(h);
    XorCancel(h, POLY);
  }

  lemma StepForth(y: nat)
    requires y < WORD
    ensures Unstep(y) < WORD && Step(Unstep(y)) == y
  {
    TopOf(y, POLY);
    XorCancel(y, POLY);
    XorZero(y);
    var x := Unstep(y);
    if y >= TOP {
      HalfOdd(Xor(y, POLY), x);
    } else {
      HalfEven(y, x);
    }
  }

  lemma HalfOdd(h: nat, x: nat)
    requires x == 2 * h + 1
    ensures x / 2 == h && x % 2 == 1
  {
  }

  lemma HalfEven(h: nat, x: nat)
    requires x == 2 * h
    ensures x / 2 == h && x % 2 == 0
  {
  }

  /** A step forward and a step back cancel, both ways round: the step is a bijection on words. */
  lemma StepBijective(c: nat)
    requires c < WORD
    ensures Step(c) < WORD && Unstep(Step(c)) == c
    ensures Unstep(c) < WORD && Step(Unstep(c)) == c
  {
    StepBack(c);
    StepForth(c);
  }

  lemma {:induction false} StepsLinear(c: nat, d: nat, n: nat)
    ensures Steps(Xor(c, d), n) == Xor(Steps(c, n), Steps(d, n))
    decreases n
  {
    if n > 0 {
      StepLinear(c, d);
      StepsLinear(Step(c), Step(d), n - 1);
    }
  }

  lemma {:induction false} StepsInjective(c: nat, d: nat, n: nat)
    requires c < WORD && d < WORD && Steps(c, n) == Steps(d, n)
    ensures c == d
    decreases n
  {
    if n > 0 {
      StepBijective(c);
      StepBijective(d);
      StepsInjective(Step(c), Step(d), n - 1);
    }
  }

  /** The exclusive or of two buffers. */
  function XorBytes(a: seq<byte>, b: seq<byte>): (r: seq<byte>)
    requires |a| == |b|
    ensures |r| == |a|
  {
    if a == [] then [] else ByteRange(a[0], b[0]); [Xor(a[0], b[0])] + XorBytes(a[1..], b[1..])
  }

  lemma ByteRange(x: byte, y: byte)
    ensures Xor(x, y) < 256
  {
    assert Pow2(8) == 256;
    XorTop(x, y, 7);
  }

  /** crc32_le is linear over exclusive or. */
  lemma {:induction false} CrcLinear(c: nat, d: nat, a: seq<byte>, b: seq<byte>)
    requires |a| == |b|
    ensures Crc(Xor(c, d), XorBytes(a, b)) == Xor(Crc(c, a), Crc(d, b))
    decreases |a|
  {
    if a != [] {
      ByteRange(a[0], b[0]);
      XorSwap(c, d, a[0], b[0]);
      StepsLinear(Xor(c, a[0]), Xor(d, b[0]), 8);
      CrcLinear(Steps(Xor(c, a[0]), 8), Steps(Xor(d, b[0]), 8), a[1..], b[1..]);
    }
  }

  // ----- the same, bit by bit

  function BitValue(b: bool): nat {
    if b then 1 else 0
  }

  /** Feed bits into the register, one per step. */
  function Feed(c: nat, bits: seq<bool>): nat
    decreases |bits|
  {
    if bits == [] then c else Feed(Step(Xor(c, BitValue(bits[0]))), bits[1..])
  }

  /** The low `n` bits of a number, lowest first. */
  function LowBits(x: nat, n: nat): (r: seq<bool>)
    ensures |r| == n
    decreases n, x
  {
    if n == 0 then [] else [x % 2 == 1] + LowBits(x / 2, n - 1)
  }

  /** The bits of a buffer, in the order in which they enter the register. */
  function Bits(data: seq<byte>): (r: seq<bool>)
    ensures |r| == 8 * |data|
  {
    if data == [] then [] else LowBits(data[0], 8) + Bits(data[1..])
  }

  /** Adding a number bit by bit over `n` steps, or all at once before them. */
  lemma {:induction false} FeedIsSteps(c: nat, x: nat, n: nat)
    requires x < Pow2(n)
    ensures Feed(c, LowBits(x, n)) == Steps(Xor(c, x), n)
    decreases n
  {
    if n == 0 {
      XorZero(c);
    } else {
      var low, high := x % 2, x / 2;
      var c' := Step(Xor(c, low));
      FeedIsSteps(c', high, n - 1);
      LowThenHigh(c, x);
      assert LowBits(x, n)[1..] == LowBits(high, n - 1);
    }
  }

  lemma LowThenHigh(c: nat, x: nat)
    ensures Step(Xor(c, x)) == Xor(Step(Xor(c, x % 2)), x / 2)
  {
    var low, high := x % 2, 2 * (x / 2);
    XorZero(x / 2);
    XorStep(low, high);
    assert Xor(low, high) == x by {
      SameHalves(Xor(low, high), x);
    }
    XorAssoc(c, low, high);
    StepLinear(Xor(c, low), high);
    assert Step(high) == x / 2;
  }

  lemma {:induction false} FeedConcat(c: nat, a: seq<bool>, b: seq<bool>)
    ensures Feed(c, a + b) == Feed(Feed(c, a), b)
    decreases |a|
  {
    if a == [] {
      assert a + b == b;
    } else {
      assert (a + b)[1..] == a[1..] + b;
      FeedConcat(Step(Xor(c, BitValue(a[0]))), a[1..], b);
    }
  }

  /** The CRC of a buffer is that of its bits. */
  lemma {:induction false} CrcIsFeed(c: nat, data: seq<byte>)
    ensures Crc(c, data) == Feed(c, Bits(data))
    decreases |data|
  {
    if data != [] {
      assert Pow2(8) == 256;
      FeedIsSteps(c, data[0], 8);
      FeedConcat(c, LowBits(data[0], 8), Bits(data[1..]));
      CrcIsFeed(Steps(Xor(c, data[0]), 8), data[1..]);
    }
  }

  // ----- what a change of a buffer does

  lemma {:induction false} FeedRange(c: nat, bits: seq<bool>)
    requires c < WORD
    ensures Feed(c, bits) < WORD
    decreases |bits|
  {
    if bits != [] {
      TopOf(c, BitValue(bits[0]));
      StepBijective(Xor(c, BitValue(bits[0])));
      FeedRange(Step(Xor(c, BitValue(bits[0]))), bits[1..]);
    }
  }

  /** Different states stay different under the same bits. */
  lemma {:induction false} FeedInjective(c: nat, d: nat, bits: seq<bool>)
    requires c < WORD && d < WORD && Feed(c, bits) == Feed(d, bits)
    ensures c == d
    decreases |bits|
  {
    if bits != [] {
      var v := BitValue(bits[0]);
      TopOf(c, v);
      TopOf(d, v);
      StepBijective(Xor(c, v));
      StepBijective(Xor(d, v));
      FeedInjective(Step(Xor(c, v)), Step(Xor(d, v)), bits[1..]);
      XorCancel(c, v);
      XorCancel(d, v);
    }
  }

  /** The number that a few bits stand for. */
  function Pack(bits: seq<bool>): (x: nat)
    ensures x < Pow2(|bits|)
  {
    if bits == [] then 0 else BitValue(bits[0]) + 2 * Pack(bits[1..])
  }

  lemma {:induction false} PackInverse(bits: seq<bool>)
    ensures LowBits(Pack(bits), |bits|) == bits
    decreases |bits|
  {
    if bits != [] {
      PackInverse(bits[1..]);
    }
  }

  /** Up to 32 bits at the input of the register can be told from its state. */
  lemma WindowInjective(c: nat, a: seq<bool>, b: seq<bool>)
    requires c < WORD && |a| == |b| <= 32 && Feed(c, a) == Feed(c, b)
    ensures a == b
  {
    var n := |a|;
    var x, y := Pack(a), Pack(b);
    PackInverse(a);
    PackInverse(b);
    FeedIsSteps(c, x, n);
    FeedIsSteps(c, y, n);
    WordIsPow2();
    Pow2Upto(n, 32);
    TopOf(c, x);
    TopOf(c, y);
    StepsInjective(Xor(c, x), Xor(c, y), n);
    XorComm(c, x);
    XorComm(c, y);
    XorCancel(x, c);
    XorCancel(y, c);
  }

  lemma Pow2Upto(n: nat, m: nat)
    requires n <= m
    ensures Pow2(n) <= Pow2(m)
  {
    if n < m {
      Pow2Mono(n, m);
    }
  }

  /** The two bit strings differ at most within `m` places from `k` on. */
  ghost predicate Burst(a: seq<bool>, b: seq<bool>, k: nat, m: nat) {
    |a| == |b| && k + m <= |a| && a[..k] == b[..k] && a[k + m..] == b[k + m..]
  }

  /** Every change within 32 consecutive bits changes the register. */
  lemma BurstDetected(c: nat, a: seq<bool>, b: seq<bool>, k: nat, m: nat)
    requires c < WORD && Burst(a, b, k, m) && m <= 32 && a != b
    ensures Feed(c, a) != Feed(c, b)
  {
    var p, u, v, s := a[..k], a[k..k + m], b[k..k + m], a[k + m..];
    assert a == p + (u + s) && b == p + (v + s);
    FeedConcat(c, p, u + s);
    FeedConcat(c, p, v + s);
    var c1 := Feed(c, p);
    FeedRange(c, p);
    FeedConcat(c1, u, s);
    FeedConcat(c1, v, s);
    FeedRange(c1, u);
    FeedRange(c1, v);
    if Feed(c, a) == Feed(c, b) {
      FeedInjective(Feed(c1, u), Feed(c1, v), s);
      WindowInjective(c1, u, v);
    }
  }

  /** efi_crc32 tells apart any two buffers that differ only within 32 consecutive bits. */
  lemma EfiBurstDetected(a: seq<byte>, b: seq<byte>, k: nat, m: nat)
    requires Burst(Bits(a), Bits(b), k, m) && m <= 32 && a != b
    ensures EfiCrc(a) != EfiCrc(b)
  {
    if Bits(a) == Bits(b) {
      BitsInjective(a, b);
    }
    BurstDetected(0xffff_ffff, Bits(a), Bits(b), k, m);
    CrcIsFeed(0xffff_ffff, a);
    CrcIsFeed(0xffff_ffff, b);
    XorCancel(Crc(0xffff_ffff, a), 0xffff_ffff);
    XorCancel(Crc(0xffff_ffff, b), 0xffff_ffff);
  }

  lemma {:induction false} LowBitsInjective(x: nat, y: nat, n: nat)
    requires x < Pow2(n) && y < Pow2(n) && LowBits(x, n) == LowBits(y, n)
    ensures x == y
    decreases n
  {
    if n > 0 {
      assert LowBits(x, n)[0] == LowBits(y, n)[0];
      assert LowBits(x, n)[1..] == LowBits(x / 2, n - 1) && LowBits(y, n)[1..] == LowBits(y / 2, n - 1);
      LowBitsInjective(x / 2, y / 2, n - 1);
    }
  }

  lemma {:induction false} BitsInjective(a: seq<byte>, b: seq<byte>)
    requires Bits(a) == Bits(b)
    ensures a == b
    decreases |a|
  {
    if a != [] {
      assert |a| == |b|;
      assert Bits(a)[..8] == LowBits(a[0], 8) && Bits(b)[..8] == LowBits(b[0], 8);
      assert Bits(a)[8..] == Bits(a[1..]) && Bits(b)[8..] == Bits(b[1..]);
      assert Pow2(8) == 256;
      LowBitsInjective(a[0], b[0], 8);
      BitsInjective(a[1..], b[1..]);
    }
  }

  lemma {:induction false} BitsConcat(a: seq<byte>, b: seq<byte>)
    ensures Bits(a + b) == Bits(a) + Bits(b)
    decreases |a|
  {
    if a == [] {
      assert a + b == b;
    } else {
      assert (a + b)[1..] == a[1..] + b;
      BitsConcat(a[1..], b);
    }
  }

  /** In particular, two buffers that differ only within four consecutive bytes. */
  lemma FourBytesDetected(p: seq<byte>, u: seq<byte>, v: seq<byte>, s: seq<byte>)
    requires |u| == |v| <= 4 && u != v
    ensures EfiCrc(p + u + s) != EfiCrc(p + v + s)
  {
    BitsConcat(p + u, s);
    BitsConcat(p, u);
    BitsConcat(p + v, s);
    BitsConcat(p, v);
    var a, b := p + u + s, p + v + s;
    assert a[|p|..|p| + |u|] == u && b[|p|..|p| + |u|] == v;
    var k, m := 8 * |p|, 8 * |u|;
    assert Bits(a)[..k] == Bits(p) == Bits(b)[..k];
    assert Bits(a)[k + m..] == Bits(s) == Bits(b)[k + m..];
    EfiBurstDetected(a, b, k, m);
  }

  // ----- which code it is

  /** A polynomial below x^32 by its exponents, the coefficient of x^31 in the lowest bit. */
  function Reflected(exponents: seq<nat>): nat
    requires forall i :: 0 <= i < |exponents| ==> exponents[i] < 32
  {
    if exponents == [] then 0 else Pow2(31 - exponents[0]) + Reflected(exponents[1..])
  }

  lemma ReflectedFirst(e: nat, rest: seq<nat>)
    requires e < 32 && forall i :: 0 <= i < |rest| ==> rest[i] < 32
    ensures Reflected([e] + rest) == Pow2(31 - e) + Reflected(rest)
  {
    assert ([e] + rest)[1..] == rest;
  }

  lemma SmallPowers()
    ensures Pow2(5) == 0x20 && Pow2(8) == 0x100 && Pow2(9) == 0x200 && Pow2(15) == 0x8000
    ensures Pow2(19) == 0x8_0000 && Pow2(20) == 0x10_0000 && Pow2(21) == 0x20_0000 && Pow2(23) == 0x80_0000
    ensures Pow2(24) == 0x100_0000 && Pow2(26) == 0x400_0000 && Pow2(27) == 0x800_0000
    ensures Pow2(29) == 0x2000_0000 && Pow2(30) == 0x4000_0000 && Pow2(31) == 0x8000_0000
  {
  }

  /** The polynomial is that of IEEE 802.3: x^32 + x^26 + x^23 + x^22 + x^16 + ... + x + 1. */
  lemma PolynomialIs()
    ensures POLY == Reflected([26, 23, 22, 16] + ([12, 11, 10, 8] + ([7, 5, 4, 2] + [1, 0])))
  {
    SmallPowers();
    FourFirst(26, 23, 22, 16, [12, 11, 10, 8] + ([7, 5, 4, 2] + [1, 0]));
    FourFirst(12, 11, 10, 8, [7, 5, 4, 2] + [1, 0]);
    FourFirst(7, 5, 4, 2, [1, 0]);
    ReflectedFirst(1, [0]);
    ReflectedFirst(0, []);
  }

  lemma FourFirst(a: nat, b: nat, c: nat, d: nat, rest: seq<nat>)
    requires a < 32 && b < 32 && c < 32 && d < 32 && forall i :: 0 <= i < |rest| ==> rest[i] < 32
    ensures Reflected([a, b, c, d] + rest) == Pow2(31 - a) + Pow2(31 - b) + Pow2(31 - c) + Pow2(31 - d) + Reflected(rest)
  {
    ReflectedFirst(d, rest);
    ReflectedFirst(c, [d] + rest);
    ReflectedFirst(b, [c] + ([d] + rest));
    ReflectedFirst(a, [b] + ([c] + ([d] + rest)));
    assert [a] + ([b] + ([c] + ([d] + rest))) == [a, b, c, d] + rest;
  }

  lemma {:induction false} LowBitsJoin(x: nat, m: nat, n: nat)
    ensures LowBits(x, m + n) == LowBits(x, m) + LowBits(ShiftRight(x, m), n)
    decreases m
  {
    if m > 0 {
      LowBitsJoin(x / 2, m - 1, n);
    }
  }

  /** The low bits do not depend on what is above them. */
  lemma {:induction false} LowBitsOf(x: nat, y: nat, n: nat)
    requires x % Pow2(n) == y % Pow2(n)
    ensures LowBits(x, n) == LowBits(y, n)
    decreases n
  {
    if n > 0 {
      HalfMod(x, Pow2(n - 1));
      HalfMod(y, Pow2(n - 1));
      LowBitsOf(x / 2, y / 2, n - 1);
    }
  }

  lemma HalfMod(x: nat, p: nat)
    requires p > 0
    ensures x % (2 * p) % 2 == x % 2 && x % (2 * p) / 2 == x / 2 % p
  {
    DivMod(x, 2 * p);
    var q, r := x / (2 * p), x % (2 * p);
    assert x == 2 * (p * q) + r;
    DivUnique(x / 2, p, q, r / 2);
  }

  lemma {:induction false} LittleBits(x: nat, n: nat)
    ensures Bits(Little(x, n)) == LowBits(x, 8 * n)
    decreases n
  {
    if n > 0 {
      LittleBits(x / 256, n - 1);
      LowBitsJoin(x, 8, 8 * (n - 1));
      ShiftRight8(x);
      assert Pow2(8) == 256;
      LowBitsOf(x, x % 256, 8);
      assert Little(x, n)[1..] == Little(x / 256, n - 1);
    }
  }

  lemma {:induction false} StepsOfZero(n: nat)
    ensures Steps(0, n) == 0
    decreases n
  {
    if n > 0 {
      assert Step(0) == 0;
      StepsOfZero(n - 1);
    }
  }

  /** Four more bytes, taken as one little-endian number. */
  lemma FourBytes(c: nat, x: nat)
    requires x < WORD
    ensures Crc(c, Little(x, 4)) == Steps(Xor(c, x), 32)
  {
    CrcIsFeed(c, Little(x, 4));
    LittleBits(x, 4);
    WordIsPow2();
    FeedIsSteps(c, x, 32);
  }

  lemma {:induction false} CrcJoin(c: nat, a: seq<byte>, b: seq<byte>)
    ensures Crc(c, a + b) == Crc(Crc(c, a), b)
    decreases |a|
  {
    if a == [] {
      assert a + b == b;
    } else {
      assert (a + b)[1..] == a[1..] + b;
      CrcJoin(Steps(Xor(c, a[0]), 8), a[1..], b);
    }
  }

  /** The register is a remainder: with it behind them, low byte first, the data leave none. */
  lemma RemainderCancels(c: nat, data: seq<byte>)
    requires c < WORD
    ensures Crc(c, data + Little(Crc(c, data), 4)) == 0
  {
    var r := Crc(c, data);
    CrcIsFeed(c, data);
    FeedRange(c, Bits(data));
    CrcJoin(c, data, Little(r, 4));
    FourBytes(r, r);
    XorSelf(r);
    StepsOfZero(32);
  }

  /** With efi_crc32 of a buffer behind it, low byte first, the register always ends in the same state. */
  lemma EfiResidue(buf: seq<byte>)
    ensures Crc(0xFFFF_FFFF, buf + Little(EfiCrc(buf), 4)) == Steps(0xFFFF_FFFF, 32)
  {
    var r, ones := Crc(0xFFFF_FFFF, buf), 0xFFFF_FFFF;
    CrcIsFeed(ones, buf);
    FeedRange(ones, Bits(buf));
    TopOf(r, ones);
    CrcJoin(ones, buf, Little(EfiCrc(buf), 4));
    FourBytes(r, EfiCrc(buf));
    XorComm(r, ones);
    XorCancel(ones, r);
    XorComm(r, EfiCrc(buf));
  }
}
