/**
  The linear congruential generator of the network code, on 32-bit signed arithmetic.
 */
module Random {
  import opened Words

  const P: int := 2147483563
  const A: int := 40014

  /** Division as in C: towards zero. */
  function Quotient(x: int, d: int): int
    requires d > 0
  {
    if x >= 0 then x / d else -(-x / d)
  }

  /** The new seed, before a negative one is corrected. */
  function Raw(seed: int): int {
    var q := Quotient(seed, 53668);
    40014 * (seed - 53668 * q) - 12211 * q
  }

  function Next(seed: int): int {
    if Raw(seed) < 0 then Raw(seed) + P else Raw(seed)
  }

  /** None of the intermediate values leaves the 32-bit range, whatever the seed. */
  lemma NoOverflow(seed: int)
    requires Int32(seed)
    ensures var q := Quotient(seed, 53668);
            && Int32(53668 * q) && Int32(seed - 53668 * q) && Int32(40014 * (seed - 53668 * q)) && Int32(12211 * q)
            && Int32(Raw(seed)) && Int32(Next(seed))
    ensures -53668 < seed - 53668 * Quotient(seed, 53668) < 53668
    ensures -40014 <= Quotient(seed, 53668) <= 40014
    ensures seed >= 0 ==> seed - 53668 * Quotient(seed, 53668) >= 0
    ensures seed <= 0 ==> seed - 53668 * Quotient(seed, 53668) <= 0
    ensures 0 <= Next(seed) < P
  {
    var n := if seed >= 0 then seed else -seed;
    var d := n / 53668;
    assert n == 53668 * d + n % 53668;
  }

  /** Schrage's decomposition: the product modulo P without computing the product. */
  lemma Congruent(seed: int) returns (k: int)
    requires Int32(seed)
    ensures A * seed == Next(seed) + P * k
  {
    var q := Quotient(seed, 53668);
    assert A * seed == Raw(seed) + P * q by {
      assert A * 53668 == P - 12211;
    }
    k := if Raw(seed) < 0 then q - 1 else q;
  }

  lemma ModUnique(x: int, r: int, k: int)
    requires 0 <= r < P && x == r + P * k
    ensures x % P == r
  {
    var e := k - x / P;
    assert P * e == x % P - r;
  }

  /** For every seed, the next one is 40014 times as large modulo 2147483563. */
  lemma NextIs(seed: int)
    requires Int32(seed)
    ensures Next(seed) == A * seed % P && 0 <= Next(seed) < P
  {
    NoOverflow(seed);
    var k := Congruent(seed);
    ModUnique(A * seed, Next(seed), k);
  }

  /** 40014 has an inverse modulo P, so that only multiples of P lead to zero. */
  lemma ZeroOnlyFromMultiples(seed: int)
    requires Int32(seed)
    ensures Next(seed) == 0 <==> seed == 0 || seed == P || seed == -P
  {
    NoOverflow(seed);
    var k := Congruent(seed);
    if Next(seed) == 0 {
      var u, v := 2082061899, 38795;
      assert A * u == 1 + P * v;
      assert u * (A * seed) == seed + P * (v * seed);
      assert u * (P * k) == P * (u * k);
      var m := u * k - v * seed;
      assert seed == P * m;
      assert -1 <= m <= 1;
    }
  }

  class Generator {
    var seed: int

    constructor ()
      ensures seed == 0
    {
      seed := 0;
    }

    /** random: `entropy` is what the clock and the network address give if there is no seed yet. */
    method Random(entropy: int) returns (r: int)
      requires Int32(seed) && Int32(entropy)
      modifies this
      ensures r == seed && 0 <= r < P
      ensures r == A * (if old(seed) == 0 then entropy else old(seed)) % P
      ensures 0 < old(seed) < P ==> 0 < r
    {
      if seed == 0 {
        seed := entropy;
      }
      NextIs(seed);
      ZeroOnlyFromMultiples(seed);
      var q := Quotient(seed, 53668);
      seed := 40014 * (seed - 53668 * q) - 12211 * q;
      if seed < 0 {
        seed := seed + P;
      }
      r := seed;
    }
  }

  /** The state after `n` calls. */
  function After(seed: int, n: nat): int {
    if n == 0 then seed else Next(After(seed, n - 1))
  }

  /** From any proper seed the generator stays in range forever and never has to be seeded again. */
  lemma {:induction false} NeverZero(seed: int, n: nat)
    requires 0 < seed < P
    ensures 0 < After(seed, n) < P
  {
    if n > 0 {
      NeverZero(seed, n - 1);
      NextIs(After(seed, n - 1));
      ZeroOnlyFromMultiples(After(seed, n - 1));
    }
  }
}
