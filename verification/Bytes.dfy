/**
  Bytes, little-endian numbers and sectors laid end to end.
 */
module Bytes {

  type byte = b: int | 0 <= b < 256

  const SECTOR_SIZE: nat := 512

  type Sector = s: seq<byte> | |s| == SECTOR_SIZE witness seq(SECTOR_SIZE, i => 0)

  /** The sectors one after the other. */
  function Flatten(s: seq<Sector>): (r: seq<byte>)
    ensures |r| == SECTOR_SIZE * |s|
  {
    if s == [] then [] else Flatten(s[..|s| - 1]) + s[|s| - 1]
  }

  lemma {:induction false} FlattenConcat(a: seq<Sector>, b: seq<Sector>)
    ensures Flatten(a + b) == Flatten(a) + Flatten(b)
  {
    if b == [] {
      assert a + b == a;
    } else {
      var b' := b[..|b| - 1];
      assert (a + b)[..|a + b| - 1] == a + b';
      FlattenConcat(a, b');
    }
  }

  /** A run of sectors is the corresponding run of bytes. */
  lemma FlattenSlice(s: seq<Sector>, i: nat, j: nat)
    requires i <= j <= |s|
    ensures SECTOR_SIZE * j <= |Flatten(s)|
    ensures Flatten(s[i..j]) == Flatten(s)[SECTOR_SIZE * i..SECTOR_SIZE * j]
  {
    assert s == s[..i] + s[i..j] + s[j..];
    FlattenConcat(s[..i] + s[i..j], s[j..]);
    FlattenConcat(s[..i], s[i..j]);
  }

  function Le16(s: seq<byte>, i: nat): nat
    requires i + 2 <= |s|
  {
    s[i] as int + 0x100 * s[i + 1] as int
  }

  function Le32(s: seq<byte>, i: nat): nat
    requires i + 4 <= |s|
  {
    s[i] as int + 0x100 * s[i + 1] as int + 0x1_0000 * s[i + 2] as int + 0x100_0000 * s[i + 3] as int
  }

  /** A number of `w` bytes, the lowest first. */
  function Little(n: nat, w: nat): (r: seq<byte>)
    ensures |r| == w
    decreases w, n
  {
    if w == 0 then [] else [n % 256] + Little(n / 256, w - 1)
  }

  function Zeros(n: nat): (r: seq<byte>)
    ensures |r| == n
  {
    seq(n, i => 0)
  }
}
