/**
  The internet checksum (RFC 1071): the loop with end-around carry, and how checksums of adjacent
  pieces are put together.
 */
module Checksum {
  import opened Bytes
  import opened Words

  const M: nat := 0xFFFF

  /** The one's complement representative of a sum: zero only for zero. */
  function Fold(n: nat): (r: nat)
    ensures r <= M && (r == 0 <==> n == 0)
  {
    if n == 0 then 0 else 1 + (n - 1) % M
  }

  /** The sum of 16-bit words, low byte first, of a piece that starts at an even or an odd offset. */
  function Weighted(data: seq<byte>, odd: bool): nat {
    if data == [] then 0
    else (if odd then 256 * data[0] as int else data[0] as int) + Weighted(data[1..], !odd)
  }

  /** The checksum that the standard defines. */
  function Checksum(data: seq<byte>): nat {
    M - Fold(Weighted(data, false))
  }

  /** The sum as the standard has it: over pairs of bytes, an odd one at the end padded with a zero. */
  function Pairs(data: seq<byte>): nat {
    if data == [] then 0 else if |data| == 1 then Le16(data + [0], 0) else Le16(data, 0) + Pairs(data[2..])
  }

  lemma {:induction false} WeightedIsPairs(data: seq<byte>)
    ensures Weighted(data, false) == Pairs(data)
  {
    if |data| > 1 {
      WeightedIsPairs(data[2..]);
      assert data[1..][1..] == data[2..];
    } else if |data| == 1 {
      assert data[1..] == [];
    }
  }

  /** `u` differs from `n` by `k` times 65535. */
  predicate Apart(n: int, u: int, k: int) {
    n == u + M * k
  }

  lemma FoldUnique(n: nat, u: nat, k: int)
    requires u <= M && (u == 0 <==> n == 0) && Apart(n, u, k)
    ensures u == Fold(n)
  {
    if n > 0 {
      Unique(n - 1, u - 1, k);
    }
  }

  lemma Unique(n: nat, r: nat, k: int)
    requires r < M && n == r + M * k
    ensures n % M == r
  {
    assert k >= 0;
    DivUnique(n, M, k, r);
  }

  lemma FoldApart(n: nat) returns (k: int)
    ensures Apart(n, Fold(n), k)
  {
    k := if n == 0 then 0 else (n - 1) / M;
  }

  /** Adding with end-around carry. */
  function AddCarry(x: nat, y: nat): nat {
    if x + y > M then x + y - M else x + y
  }

  lemma AddFolds(x: nat, y: nat)
    ensures AddCarry(Fold(x), Fold(y)) == Fold(x + y)
  {
    var i := FoldApart(x);
    var j := FoldApart(y);
    var s := Fold(x) + Fold(y);
    if s > M {
      FoldUnique(x + y, s - M, i + j + 1);
    } else {
      FoldUnique(x + y, s, i + j);
    }
  }

  // ----- the loop

  /** The carry of a sum of at most 17 bits is added at the low end. */
  lemma CarryAround(sum: nat)
    requires M < sum <= M + 0xFF00
    ensures (sum + ShiftRight(sum, 16)) % 0x1_0000 == sum - M
  {
    assert Pow2(16) == 0x1_0000 by {
      Pow2Add(8, 8);
      assert Pow2(8) == 256;
    }
    ShiftRightBound(sum, 16, 1);
    ShiftRightBound(sum, 16, 2);
  }

  lemma {:induction false} WeightedSnoc(data: seq<byte>, odd: bool, x: byte)
    ensures Weighted(data + [x], odd) ==
            Weighted(data, odd) + if (|data| % 2 == 1) != odd then 256 * x as int else x as int
    decreases |data|
  {
    if data == [] {
      assert data + [x] == [x] && [x][1..] == [];
    } else {
      assert (data + [x])[1..] == data[1..] + [x];
      WeightedSnoc(data[1..], !odd, x);
      assert |data| % 2 == 1 <==> |data[1..]| % 2 == 0;
    }
  }

  lemma Accumulate(total: nat, value: nat)
    requires value <= 0xFF00
    ensures Fold(total) + value <= M + 0xFF00
    ensures AddCarry(Fold(total), value) == Fold(total + value)
  {
    var k := FoldApart(total);
    var s := Fold(total) + value;
    if s > M {
      FoldUnique(total + value, s - M, k + 1);
    } else {
      FoldUnique(total + value, s, k);
    }
  }

  /** ipchksum */
  method IpChksum(data: seq<byte>) returns (r: nat)
    ensures r == Checksum(data)
  {
    var sum: nat := 0;
    var i: nat := 0;
    while i < |data|
      invariant i <= |data| && sum == Fold(Weighted(data[..i], false))
    {
      var value: nat := data[i];
      if i % 2 == 1 {
        value := 256 * value;
      }
      WeightedSnoc(data[..i], false, data[i]);
      Accumulate(Weighted(data[..i], false), value);
      assert data[..i + 1] == data[..i] + [data[i]];
      sum := sum + value;
      if sum > M {
        CarryAround(sum);
        sum := (sum + ShiftRight(sum, 16)) % 0x1_0000;
      }
      i := i + 1;
    }
    assert data[..|data|] == data;
    r := M - sum;
  }

  // ----- putting pieces together

  function Swapped(x: nat): nat {
    x % 256 * 256 + x / 256
  }

  /** add_ipchksums; complements of 16-bit values. */
  function AddChecksums(offset: nat, sum: nat, more: nat): int
    requires sum <= M && more <= M
  {
    var s, n := M - sum, M - more;
    M - AddCarry(s, if offset % 2 == 1 then Swapped(n) else n)
  }

  lemma {:induction false} WeightedConcat(a: seq<byte>, b: seq<byte>, odd: bool)
    ensures Weighted(a + b, odd) == Weighted(a, odd) + Weighted(b, odd != (|a| % 2 == 1))
    decreases |a|
  {
    if a == [] {
      assert a + b == b;
    } else {
      assert (a + b)[1..] == a[1..] + b;
      WeightedConcat(a[1..], b, !odd);
      assert |a| % 2 == 1 <==> |a[1..]| % 2 == 0;
    }
  }

  /** At an odd offset the sum is 256 times as large, up to multiples of 65535. */
  lemma {:induction false} WeightedSwap(b: seq<byte>) returns (k: int)
    ensures Apart(256 * Weighted(b, false), Weighted(b, true), k)
    ensures Weighted(b, true) == 0 <==> Weighted(b, false) == 0
    decreases |b|
  {
    if b == [] {
      k := 0;
    } else {
      k := WeightedUnswap(b[1..]);
    }
  }

  lemma {:induction false} WeightedUnswap(b: seq<byte>) returns (k: int)
    ensures Apart(256 * Weighted(b, true), Weighted(b, false), k)
    ensures Weighted(b, true) == 0 <==> Weighted(b, false) == 0
    decreases |b|
  {
    if b == [] {
      k := 0;
    } else {
      var j := WeightedSwap(b[1..]);
      k := j + b[0] as int;
    }
  }

  /** Swapping the bytes multiplies by 256, too. */
  lemma SwapIs(x: nat)
    requires x <= M
    ensures Apart(256 * x, Swapped(x), x / 256) && Swapped(x) <= M && (Swapped(x) == 0 <==> x == 0)
  {
    var h, l := x / 256, x % 256;
    assert x == 256 * h + l;
    assert h <= 255;
  }

  lemma SwapFold(b: seq<byte>)
    ensures Swapped(Fold(Weighted(b, false))) == Fold(Weighted(b, true))
  {
    var w, w' := Weighted(b, false), Weighted(b, true);
    var i := FoldApart(w);
    var j := WeightedSwap(b);
    var f := Fold(w);
    SwapIs(f);
    // 256 w == w' + M j and w == f + M i and 256 f == Swapped(f) + M (f / 256)
    FoldUnique(w', Swapped(f), f / 256 + 256 * i - j);
  }

  /** The checksum of two pieces comes from their checksums and the length of the first, odd or even. */
  lemma ChecksumsCompose(a: seq<byte>, b: seq<byte>)
    ensures AddChecksums(|a|, Checksum(a), Checksum(b)) == Checksum(a + b)
  {
    var odd := |a| % 2 == 1;
    WeightedConcat(a, b, false);
    SwapFold(b);
    AddFolds(Weighted(a, false), Weighted(b, odd));
  }

  /** A checksum of all ones means that every byte is zero. */
  lemma {:induction false} ZeroSum(data: seq<byte>, odd: bool)
    ensures Weighted(data, odd) == 0 <==> forall i :: 0 <= i < |data| ==> data[i] == 0
    decreases |data|
  {
    if data != [] {
      ZeroSum(data[1..], !odd);
      assert forall i :: 1 <= i < |data| ==> data[i] == data[1..][i - 1];
    }
  }

  lemma AllOnes(data: seq<byte>)
    ensures Checksum(data) == M <==> forall i :: 0 <= i < |data| ==> data[i] == 0
  {
    ZeroSum(data, false);
  }
}
