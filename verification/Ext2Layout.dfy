/**
  The layout of an ext2 file system as the reader sees it: inodes, the pointer tree of a file and
  the bytes it stands for.
 */
module Ext2Layout {
  import opened Bytes
  import opened Words

  const NDIR_BLOCKS: nat := 12
  const IND_BLOCK: nat := 12
  const DIND_BLOCK: nat := 13
  const N_BLOCKS: nat := 15
  const DIRECT_LIM: nat := 11

  datatype Inode = Inode(mode: nat, size: nat, blocks: nat, block: seq<nat>)

  /** The bytes of the partition and the block size. */
  datatype Fs = Fs(image: seq<byte>, bs: nat)

  /** Offsets within the partition fit 32 bits. */
  predicate FsOk(fs: Fs) {
    (fs.bs == 1024 || fs.bs == 2048 || fs.bs == 4096) && |fs.image| <= WORD
  }

  function Ptrs(bs: nat): nat {
    bs / 4
  }

  function Ind1Lim(bs: nat): nat {
    Ptrs(bs) + DIRECT_LIM
  }

  /** The last block the reader maps; the layout goes on for another `Ptrs(bs)` blocks. */
  function Ind2Lim(bs: nat): nat {
    Ptrs(bs) * Ptrs(bs) + DIRECT_LIM
  }

  predicate InImage(fs: Fs, b: nat) {
    (b + 1) * fs.bs <= |fs.image|
  }

  /** Block `b`, as far as there is one. */
  function BlockAt(fs: Fs, b: nat): (r: seq<byte>)
    ensures |r| == fs.bs
  {
    if InImage(fs, b) then InImageSlice(fs, b); fs.image[b * fs.bs..b * fs.bs + fs.bs] else Zeros(fs.bs)
  }

  lemma InImageSlice(fs: Fs, b: nat)
    requires InImage(fs, b)
    ensures b * fs.bs + fs.bs <= |fs.image|
  {
    assert (b + 1) * fs.bs == b * fs.bs + fs.bs;
  }

  /** All blocks of a file system. */
  function Content(fs: Fs): nat -> seq<byte> {
    (b: nat) => BlockAt(fs, b)
  }

  /** Entry `i` of an indirect block. */
  function Entry(fs: Fs, b: nat, i: nat): nat
    requires FsOk(fs) && i < Ptrs(fs.bs)
  {
    Le32(BlockAt(fs, b), 4 * i)
  }

  /** The indices into the two levels of indirect blocks are in range. */
  lemma QuotientBelow(x: nat, p: nat)
    requires p > 0 && x < p * p
    ensures 0 <= x / p < p && 0 <= x % p < p
  {
    var q := x / p;
    assert x == p * q + x % p;
    assert q >= p ==> p * q >= p * p;
  }

  /** Entry `i` of indirect block `b`, if there is one. */
  function Through(fs: Fs, b: nat, i: nat): nat
    requires FsOk(fs) && i < Ptrs(fs.bs)
  {
    if b == 0 then 0 else Entry(fs, b, i)
  }

  /** Entry `x` of the blocks that double-indirect block `b` lists, if there is one. */
  function ThroughBoth(fs: Fs, b: nat, x: nat): nat
    requires FsOk(fs) && x < Ptrs(fs.bs) * Ptrs(fs.bs)
  {
    QuotientBelow(x, Ptrs(fs.bs));
    if b == 0 then 0 else Through(fs, Entry(fs, b, x / Ptrs(fs.bs)), x % Ptrs(fs.bs))
  }

  /** The block that holds block `off` of a file of which the layout maps blocks up to `lim`; 0 is a hole. */
  function WalkTo(fs: Fs, ip: Inode, off: nat, lim: nat): nat
    requires FsOk(fs) && |ip.block| == N_BLOCKS && lim <= Ind2Lim(fs.bs) + Ptrs(fs.bs)
  {
    if off <= DIRECT_LIM then ip.block[off]
    else if off <= Ind1Lim(fs.bs) then Through(fs, ip.block[IND_BLOCK], off - (DIRECT_LIM + 1))
    else if off <= lim then ThroughBoth(fs, ip.block[DIND_BLOCK], off - (Ind1Lim(fs.bs) + 1))
    else 0
  }

  /** What the reader maps. */
  function Walk(fs: Fs, ip: Inode, off: nat): nat
    requires FsOk(fs) && |ip.block| == N_BLOCKS
  {
    WalkTo(fs, ip, off, Ind2Lim(fs.bs))
  }

  /** What the layout says, up to the last double-indirect block. */
  function FullWalk(fs: Fs, ip: Inode, off: nat): nat
    requires FsOk(fs) && |ip.block| == N_BLOCKS
  {
    WalkTo(fs, ip, off, Ind2Lim(fs.bs) + Ptrs(fs.bs))
  }

  /** The reader agrees with the layout except that it takes the last `Ptrs(bs)` blocks for holes. */
  lemma ReaderCoverage(fs: Fs, ip: Inode, off: nat)
    requires FsOk(fs) && |ip.block| == N_BLOCKS
    ensures Walk(fs, ip, off) == FullWalk(fs, ip, off) <==> off <= Ind2Lim(fs.bs) || FullWalk(fs, ip, off) == 0
    ensures off > Ind2Lim(fs.bs) ==> Walk(fs, ip, off) == 0
  {
    assert Ind1Lim(fs.bs) <= Ind2Lim(fs.bs) by {
      assert Ptrs(fs.bs) <= Ptrs(fs.bs) * Ptrs(fs.bs);
    }
  }

  /** Two blocks in which every word is 1. */
  function WordsOfOne(): (r: seq<byte>)
    ensures |r| == 2048
  {
    seq<byte>(2048, i => if i % 4 == 0 then 1 else 0)
  }

  /** A file of which the reader does not map the blocks behind `Ind2Lim`, although the layout does. */
  lemma BeyondReach(off: nat)
    requires Ind2Lim(1024) < off <= Ind2Lim(1024) + Ptrs(1024)
    ensures var fs, ip := Fs(WordsOfOne(), 1024), Inode(0x8000, 0x800_0000, 0, seq(N_BLOCKS, i => 1));
            FsOk(fs) && FullWalk(fs, ip, off) == 1 && Walk(fs, ip, off) == 0
  {
    var fs := Fs(WordsOfOne(), 1024);
    var x := off - (Ind1Lim(1024) + 1);
    assert x / 256 == 255 && x % 256 == off - Ind2Lim(1024) - 1;
    WordIsOne(fs, 255);
    WordIsOne(fs, x % 256);
  }

  lemma WordIsOne(fs: Fs, i: nat)
    requires fs == Fs(WordsOfOne(), 1024) && i < 256
    ensures Entry(fs, 1, i) == 1
  {
    var blk := BlockAt(fs, 1);
    assert forall j :: 0 <= j < 1024 ==> blk[j] == fs.image[1024 + j];
    assert (1024 + 4 * i) % 4 == 0 && (1024 + 4 * i + 1) % 4 == 1 && (1024 + 4 * i + 2) % 4 == 2 && (1024 + 4 * i + 3) % 4 == 3;
  }

  // ----- the bytes of a file

  /** One block of a file: a hole is all zeros. */
  function Filled(content: nat -> seq<byte>, bs: nat, b: nat): seq<byte> {
    if b == 0 then Zeros(bs) else content(b)
  }

  function FileBlock(fs: Fs, ip: Inode, off: nat): (r: seq<byte>)
    requires FsOk(fs) && |ip.block| == N_BLOCKS
    ensures |r| == fs.bs
  {
    var b := Walk(fs, ip, off);
    if b == 0 then Zeros(fs.bs) else BlockAt(fs, b)
  }

  function FileByte(fs: Fs, ip: Inode, o: nat): byte
    requires FsOk(fs) && |ip.block| == N_BLOCKS
  {
    FileBlock(fs, ip, o / fs.bs)[o % fs.bs]
  }

  /** `n` bytes of a file from position `pos`. */
  function Slice(fs: Fs, ip: Inode, pos: nat, n: nat): (r: seq<byte>)
    requires FsOk(fs) && |ip.block| == N_BLOCKS
    ensures |r| == n
  {
    seq<byte>(n, i requires 0 <= i => FileByte(fs, ip, pos + i))
  }

  // ----- reading runs of blocks at once

  /** How many of the pointers name consecutive blocks, from the first one on. */
  function RunLength(ptrs: seq<nat>): (n: nat)
    requires |ptrs| > 0
    ensures 1 <= n <= |ptrs|
    ensures forall i :: 0 <= i < n ==> ptrs[i] == ptrs[0] + i
    ensures n < |ptrs| ==> ptrs[n] != ptrs[0] + n
    decreases |ptrs|
  {
    if |ptrs| == 1 || ptrs[|ptrs| - 1] != ptrs[0] + |ptrs| - 1 || RunLength(ptrs[..|ptrs| - 1]) < |ptrs| - 1 then
      if |ptrs| == 1 then 1 else RunLength(ptrs[..|ptrs| - 1])
    else |ptrs|
  }

  function BlockByBlock(content: nat -> seq<byte>, bs: nat, ptrs: seq<nat>): seq<byte>
    decreases |ptrs|
  {
    if ptrs == [] then []
    else BlockByBlock(content, bs, ptrs[..|ptrs| - 1]) + Filled(content, bs, ptrs[|ptrs| - 1])
  }

  lemma LastBlock(content: nat -> seq<byte>, bs: nat, ptrs: seq<nat>, b: nat)
    ensures BlockByBlock(content, bs, ptrs + [b]) == BlockByBlock(content, bs, ptrs) + Filled(content, bs, b)
  {
    assert (ptrs + [b])[..|ptrs|] == ptrs;
  }

  /** `n` blocks of the disk from block `b` on. */
  function DiskRun(content: nat -> seq<byte>, b: nat, n: nat): seq<byte> {
    if n == 0 then [] else DiskRun(content, b, n - 1) + content(b + n - 1)
  }

  /** Run by run: a run that starts with a hole is taken to be one large hole. */
  function RunByRun(content: nat -> seq<byte>, bs: nat, ptrs: seq<nat>): seq<byte>
    decreases |ptrs|
  {
    if ptrs == [] then [] else FirstRun(content, bs, ptrs) + RunByRun(content, bs, ptrs[RunLength(ptrs)..])
  }

  function FirstRun(content: nat -> seq<byte>, bs: nat, ptrs: seq<nat>): seq<byte>
    requires |ptrs| > 0
  {
    if ptrs[0] == 0 then Zeros(RunLength(ptrs) * bs) else DiskRun(content, ptrs[0], RunLength(ptrs))
  }

  /** Block 1 is never mapped right after a hole. */
  predicate NoOneAfterHole(ptrs: seq<nat>) {
    forall i :: 0 <= i < |ptrs| - 1 && ptrs[i] == 0 ==> ptrs[i + 1] != 1
  }

  ghost predicate Sized(content: nat -> seq<byte>, bs: nat) {
    forall b :: |content(b)| == bs
  }

  lemma {:induction false} ByBlockConcat(content: nat -> seq<byte>, bs: nat, a: seq<nat>, b: seq<nat>)
    ensures BlockByBlock(content, bs, a + b) == BlockByBlock(content, bs, a) + BlockByBlock(content, bs, b)
    decreases |b|
  {
    if b == [] {
      assert a + b == a;
    } else {
      var front, last := b[..|b| - 1], b[|b| - 1];
      ByBlockConcat(content, bs, a, front);
      LastBehindBoth(content, bs, a, front, last);
      assert b == front + [last];
    }
  }

  lemma LastBehindBoth(content: nat -> seq<byte>, bs: nat, a: seq<nat>, front: seq<nat>, last: nat)
    requires BlockByBlock(content, bs, a + front) == BlockByBlock(content, bs, a) + BlockByBlock(content, bs, front)
    ensures BlockByBlock(content, bs, a + (front + [last])) == BlockByBlock(content, bs, a) + BlockByBlock(content, bs, front + [last])
  {
    var x, y, z := BlockByBlock(content, bs, a), BlockByBlock(content, bs, front), Filled(content, bs, last);
    var both, whole, tail := a + front, a + (front + [last]), front + [last];
    assert whole == both + [last];
    LastBlockIs(content, bs, both, last, whole);
    LastBlockIs(content, bs, front, last, tail);
    Assoc(x, y, z);
  }

  lemma Assoc(a: seq<byte>, b: seq<byte>, c: seq<byte>)
    ensures a + (b + c) == a + b + c
  {
  }

  lemma LastBlockIs(content: nat -> seq<byte>, bs: nat, ptrs: seq<nat>, b: nat, all: seq<nat>)
    requires all == ptrs + [b]
    ensures BlockByBlock(content, bs, all) == BlockByBlock(content, bs, ptrs) + Filled(content, bs, b)
  {
    assert all[..|ptrs|] == ptrs;
  }

  lemma RunIsBlocks(content: nat -> seq<byte>, bs: nat, ptrs: seq<nat>)
    requires forall i :: 0 <= i < |ptrs| ==> ptrs[i] == ptrs[0] + i
    requires |ptrs| > 0 ==> ptrs[0] != 0
    ensures BlockByBlock(content, bs, ptrs) == DiskRun(content, if ptrs == [] then 0 else ptrs[0], |ptrs|)
  {
    if ptrs == [] {
      Consecutive(content, bs, 1, 0, ptrs);
    } else {
      Consecutive(content, bs, ptrs[0], |ptrs|, ptrs);
    }
  }

  lemma {:induction false} Consecutive(content: nat -> seq<byte>, bs: nat, b: nat, n: nat, ptrs: seq<nat>)
    requires b > 0 && |ptrs| == n && forall i :: 0 <= i < n ==> ptrs[i] == b + i
    ensures BlockByBlock(content, bs, ptrs) == DiskRun(content, b, n)
    decreases n
  {
    if n > 0 {
      var front := ptrs[..n - 1];
      Consecutive(content, bs, b, n - 1, front);
      LastBlockIs(content, bs, front, b + n - 1, ptrs);
    }
  }

  lemma HoleStandsAlone(ptrs: seq<nat>)
    requires NoOneAfterHole(ptrs) && |ptrs| > 0 && ptrs[0] == 0
    ensures RunLength(ptrs) == 1
  {
    assert |ptrs| > 1 ==> ptrs[0 + 1] != 1;
  }

  /** Reading by runs is sound as long as block 1 does not follow a hole. */
  lemma {:induction false} RunsAreBlocks(content: nat -> seq<byte>, bs: nat, ptrs: seq<nat>)
    requires NoOneAfterHole(ptrs)
    ensures RunByRun(content, bs, ptrs) == BlockByBlock(content, bs, ptrs)
    decreases |ptrs|
  {
    if ptrs != [] {
      var n := RunLength(ptrs);
      assert ptrs == ptrs[..n] + ptrs[n..];
      ByBlockConcat(content, bs, ptrs[..n], ptrs[n..]);
      RunsAreBlocks(content, bs, ptrs[n..]);
      if ptrs[0] == 0 {
        HoleStandsAlone(ptrs);
        assert ptrs[..1] == [0];
        OneHole(content, bs);
      } else {
        RunIsBlocks(content, bs, ptrs[..n]);
      }
    }
  }

  lemma OneHole(content: nat -> seq<byte>, bs: nat)
    ensures BlockByBlock(content, bs, [0]) == Zeros(bs) == Zeros(1 * bs)
  {
    LastBlock(content, bs, [], 0);
    assert BlockByBlock(content, bs, []) == [] && [] + [0] == [0];
    assert [] + Zeros(bs) == Zeros(bs);
  }

  lemma {:induction false} ByBlockLength(content: nat -> seq<byte>, bs: nat, ptrs: seq<nat>)
    requires Sized(content, bs)
    ensures |BlockByBlock(content, bs, ptrs)| == |ptrs| * bs
    decreases |ptrs|
  {
    if ptrs != [] {
      ByBlockLength(content, bs, ptrs[..|ptrs| - 1]);
      assert |ptrs| * bs == (|ptrs| - 1) * bs + bs;
    }
  }

  lemma {:induction false} DiskRunLength(content: nat -> seq<byte>, bs: nat, b: nat, n: nat)
    requires Sized(content, bs)
    ensures |DiskRun(content, b, n)| == n * bs
    decreases n
  {
    if n > 0 {
      DiskRunLength(content, bs, b, n - 1);
      assert n * bs == (n - 1) * bs + bs;
    }
  }

  /** A disk with nothing but zeros outside block 1. */
  function OnlyBlockOne(bs: nat): nat -> seq<byte> {
    (b: nat) => OnesAt(bs, b == 1)
  }

  function OnesAt(bs: nat, ones: bool): (r: seq<byte>)
    ensures |r| == bs
  {
    seq(bs, i => if ones then 1 else 0)
  }

  lemma OnlyBlockOneSized(bs: nat)
    ensures Sized(OnlyBlockOne(bs), bs)
  {
    forall b: nat ensures |OnlyBlockOne(bs)(b)| == bs {
      assert OnlyBlockOne(bs)(b) == OnesAt(bs, b == 1);
    }
  }

  /** A run that starts with a hole and goes on with block 1. */
  lemma HoleThenOne(content: nat -> seq<byte>, bs: nat, ptrs: seq<nat>, rest: seq<byte>, rest': seq<byte>)
    requires bs > 0 && |ptrs| >= 2 && ptrs[0] == 0 && ptrs[1] == 1 && |content(1)| == bs && content(1)[0] == 1
    ensures Zeros(|ptrs| * bs) + rest != BlockByBlock(content, bs, ptrs) + rest'
  {
    assert ptrs == [0, 1] + ptrs[2..];
    ByBlockConcat(content, bs, [0, 1], ptrs[2..]);
    OneHole(content, bs);
    LastBlock(content, bs, [0], 1);
    assert [0] + [1] == [0, 1];
    assert BlockByBlock(content, bs, [0, 1]) == Zeros(bs) + content(1);
    FirstOfSecond(bs, content(1), BlockByBlock(content, bs, ptrs[2..]), rest');
    StillZero(bs, |ptrs|, rest);
  }

  lemma FirstOfSecond(bs: nat, one: seq<byte>, more: seq<byte>, rest: seq<byte>)
    requires |one| > 0
    ensures bs < |Zeros(bs) + one + more + rest| && (Zeros(bs) + one + more + rest)[bs] == one[0]
  {
  }

  lemma StillZero(bs: nat, n: nat, rest: seq<byte>)
    requires bs > 0 && n >= 2
    ensures bs < |Zeros(n * bs) + rest| && (Zeros(n * bs) + rest)[bs] == 0
  {
    assert 2 * bs <= n * bs;
  }

  /** With block 1 mapped behind a hole, there is a disk on which reading by runs goes wrong. */
  lemma {:induction false} RunsMissBlockOne(bs: nat, ptrs: seq<nat>)
    requires bs > 0 && !NoOneAfterHole(ptrs)
    ensures RunByRun(OnlyBlockOne(bs), bs, ptrs) != BlockByBlock(OnlyBlockOne(bs), bs, ptrs)
    decreases |ptrs|
  {
    var content := OnlyBlockOne(bs);
    var n := RunLength(ptrs);
    assert ptrs == ptrs[..n] + ptrs[n..];
    ByBlockConcat(content, bs, ptrs[..n], ptrs[n..]);
    if ptrs[0] == 0 && n > 1 {
      assert content(1) == OnesAt(bs, true);
      HoleThenOne(content, bs, ptrs[..n], RunByRun(content, bs, ptrs[n..]), BlockByBlock(content, bs, ptrs[n..]));
    } else {
      LaterHole(ptrs, n);
      RunsMissBlockOne(bs, ptrs[n..]);
      OnlyBlockOneSized(bs);
      ByBlockLength(content, bs, ptrs[..n]);
      DiskRunLength(content, bs, ptrs[0], n);
      Cancel(FirstRun(content, bs, ptrs), BlockByBlock(content, bs, ptrs[..n]),
             RunByRun(content, bs, ptrs[n..]), BlockByBlock(content, bs, ptrs[n..]));
    }
  }

  lemma LaterHole(ptrs: seq<nat>, n: nat)
    requires !NoOneAfterHole(ptrs) && 1 <= n <= |ptrs| && (ptrs[0] == 0 ==> n == 1)
    requires forall i :: 0 <= i < n ==> ptrs[i] == ptrs[0] + i
    requires n < |ptrs| ==> ptrs[n] != ptrs[0] + n
    ensures !NoOneAfterHole(ptrs[n..])
  {
    var i :| 0 <= i < |ptrs| - 1 && ptrs[i] == 0 && ptrs[i + 1] == 1;
    assert i >= n;
    assert ptrs[n..][i - n] == 0 && ptrs[n..][i - n + 1] == 1;
  }

  lemma Cancel(x: seq<byte>, x': seq<byte>, a: seq<byte>, b: seq<byte>)
    requires |x| == |x'| && a != b
    ensures x + a != x' + b
  {
    assert (x + a)[|x|..] == a && (x' + b)[|x'|..] == b;
  }

  /** Reading by runs gives the same bytes on every disk exactly when block 1 never follows a hole. */
  lemma GroupingSound(bs: nat, ptrs: seq<nat>)
    requires bs > 0
    ensures NoOneAfterHole(ptrs) <==>
            forall content: nat -> seq<byte> :: RunByRun(content, bs, ptrs) == BlockByBlock(content, bs, ptrs)
  {
    if NoOneAfterHole(ptrs) {
      forall content: nat -> seq<byte> ensures RunByRun(content, bs, ptrs) == BlockByBlock(content, bs, ptrs) {
        RunsAreBlocks(content, bs, ptrs);
      }
    } else {
      RunsMissBlockOne(bs, ptrs);
    }
  }
}
