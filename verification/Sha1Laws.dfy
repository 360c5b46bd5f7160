/**
  What the parts of the Secure Hash Algorithm mean: the circular shift, the functions bit by bit, where the constants
  come from, and the padding.
 */
module Sha1Laws {
  import opened Sha1
  import opened Words

  /** The shifts by 1, 5 and 30 lose no bit. */
  lemma ShiftsAreCircular(x: Word)
    ensures Rotl(x, 1) == x.RotateLeft(1) && Rotl(x, 5) == x.RotateLeft(5) && Rotl(x, 30) == x.RotateLeft(30)
  {
  }

  /** Rounds 0 to 19: each bit of `b` chooses between the bits of `c` and `d`. */
  lemma Choice(t: nat, b: Word, c: Word, d: Word)
    requires t < 20
    ensures F(t, b, c, d) & b == c & b && F(t, b, c, d) & !b == d & !b
  {
    ChoiceBits(b, c, d);
  }

  lemma ChoiceBits(b: Word, c: Word, d: Word)
    ensures ((b & c) | (!b & d)) & b == c & b
    ensures ((b & c) | (!b & d)) & !b == d & !b
  {
  }

  /** Rounds 20 to 39 and 60 to 79: each bit is the parity of the three. */
  lemma Parity(t: nat, b: Word, c: Word, d: Word)
    requires 20 <= t < 40 || 60 <= t < 80
    ensures F(t, b, c, d) ^ b ^ c ^ d == 0
  {
    assert F(t, b, c, d) == b ^ c ^ d;
  }

  /** Rounds 40 to 59: each bit is the one that at least two of the three have. */
  lemma MajorityIfFirstTwo(t: nat, b: Word, c: Word, d: Word)
    requires 40 <= t < 60
    ensures F(t, b, c, d) & !(b ^ c) == b & !(b ^ c)
  {
    FirstTwo(b, c, d);
  }

  lemma MajorityIfOuterTwo(t: nat, b: Word, c: Word, d: Word)
    requires 40 <= t < 60
    ensures F(t, b, c, d) & !(b ^ d) == b & !(b ^ d)
  {
    FirstAndLast(b, c, d);
  }

  lemma MajorityIfLastTwo(t: nat, b: Word, c: Word, d: Word)
    requires 40 <= t < 60
    ensures F(t, b, c, d) & !(c ^ d) == c & !(c ^ d)
  {
    LastTwo(b, c, d);
  }

  lemma FirstTwo(b: Word, c: Word, d: Word)
    ensures ((b & c) | (b & d) | (c & d)) & !(b ^ c) == b & !(b ^ c)
  {
  }

  lemma FirstAndLast(b: Word, c: Word, d: Word)
    ensures ((b & c) | (b & d) | (c & d)) & !(b ^ d) == b & !(b ^ d)
  {
  }

  lemma LastTwo(b: Word, c: Word, d: Word)
    ensures ((b & c) | (b & d) | (c & d)) & !(c ^ d) == c & !(c ^ d)
  {
  }

  /** The constants are the integer parts of 2^30 times the square roots of 2, 3, 5 and 10. */
  lemma ConstantsAreRoots(t: nat)
    requires t < 80
    ensures var k, n := K(t) as nat, if t < 20 then 2 else if t < 40 then 3 else if t < 60 then 5 else 10;
            k * k <= n * 0x1000_0000_0000_0000 < (k + 1) * (k + 1)
  {
  }

  // ----- the padding

  /** A number of `w` bytes, the highest first. */
  function Big(n: nat, w: nat): (r: seq<Octet>)
    ensures |r| == w
    decreases w, n
  {
    if w == 0 then [] else Big(n / 256, w - 1) + [Low8(n)]
  }

  lemma BigOfWord(n: nat)
    requires n < WORD
    ensures Big(n, 4) == LengthBytes(n)
  {
    var a, b, c := n / 256, n / 256 / 256, n / 256 / 256 / 256;
    assert b == n / 0x1_0000 && c == n / 0x100_0000;
    assert Big(c, 1) == [] + [Low8(c)];
    assert Big(b, 2) == Big(c, 1) + [Low8(b)];
    assert Big(a, 3) == Big(b, 2) + [Low8(a)];
    assert Big(n, 4) == Big(a, 3) + [Low8(n)];
  }

  /** The bytes of a number above and below a boundary between bytes. */
  lemma {:induction false} BigJoin(n: nat, high: nat, low: nat, v: nat, w: nat, p: nat)
    requires p == Pow2(8 * w) && n == high * p + low && low < p
    ensures Big(n, v + w) == Big(high, v) + Big(low, w)
    decreases w
  {
    if w == 0 {
      assert p == 1;
    } else {
      var p' := Pow2(8 * (w - 1));
      NextPower(w, p, p');
      LastByte(n, high, low, p');
      BigJoin(n / 256, high, low / 256, v, w - 1, p');
    }
  }

  lemma NextPower(w: nat, p: nat, p': nat)
    requires w > 0 && p == Pow2(8 * w) && p' == Pow2(8 * (w - 1))
    ensures p == 256 * p'
  {
    Pow2Add(8, 8 * (w - 1));
    assert Pow2(8) == 256;
  }

  lemma LastByte(n: nat, high: nat, low: nat, p: nat)
    requires n == high * (256 * p) + low && low < 256 * p
    ensures n / 256 == high * p + low / 256 && n % 256 == low % 256 && low / 256 < p
  {
    DivMod(low, 256);
    assert n == 256 * (high * p + low / 256) + low % 256;
    DivUnique(n, 256, high * p + low / 256, low % 256);
  }

  lemma LengthIsBig(n: nat)
    requires n < TWO61
    ensures LengthBytes(8 * n / WORD) + LengthBytes(8 * n % WORD) == Big(8 * n, 8)
  {
    PaddingFits(n);
    var high, low := 8 * n / WORD, 8 * n % WORD;
    DivMod(8 * n, WORD);
    WordIsPow2();
    BigOfWord(high);
    BigOfWord(low);
    BigJoin(8 * n, high, low, 4, 4, WORD);
  }

  lemma Pieces(a: seq<Octet>, b: seq<Octet>, c: seq<Octet>, p: seq<Octet>)
    requires p == a + b + c && |a| == 1 && |c| == 8
    ensures |p| >= 9 && p[|p| - 8..] == c && p[0] == a[0] && forall i :: 1 <= i < |p| - 8 ==> p[i] == b[i - 1]
  {
  }

  lemma PaddedLength(n: nat, k: nat)
    requires n < TWO61 && n + k + 8 == 64 * BlockCount(n) && k == 1 + ZeroCount(n)
    ensures 1 <= k <= 64 && (n + k + 8) % 64 == 0
  {
  }

  /**
    The padding is one bit, then zeros, then the length of the message in bits as a number of 64 bits; it fills up the
    last block and is no longer than it need be.
   */
  lemma PaddingIs(n: nat, p: seq<Octet>)
    requires n < TWO61 && p == Padding(n)
    ensures 9 <= |p| <= 72 && (n + |p|) % 64 == 0
    ensures p[0] == 0x80 && (forall i :: 1 <= i < |p| - 8 ==> p[i] == 0) && p[|p| - 8..] == Big(8 * n, 8)
  {
    var length := LengthBytes(8 * n / WORD) + LengthBytes(8 * n % WORD);
    Pieces([0x80], Zeros(ZeroCount(n)), length, p);
    LengthIsBig(n);
    PaddedLength(n, |p| - 8);
  }
}
