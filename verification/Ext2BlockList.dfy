/**
  The blocks of a file as one list, from the layout alone: the direct ones, then all entries of the indirect block,
  then all entries of each block that the double-indirect block lists, one list after the other. The pointer tree
  that the reader walks is this list.
 */
module Ext2BlockList {
  import opened Bytes
  import opened Ext2Layout
  import opened Words

  /** The little-endian numbers that a block consists of. */
  function Numbers(blk: seq<byte>): seq<nat> {
    if |blk| < 4 then [] else [Le32(blk, 0)] + Numbers(blk[4..])
  }

  /** What an indirect block lists; where there is none, everything is a hole. */
  function Listed(fs: Fs, b: nat): seq<nat> {
    Numbers(if b == 0 then Zeros(fs.bs) else BlockAt(fs, b))
  }

  /** The lists of several indirect blocks, one after the other. */
  function AllListed(fs: Fs, blocks: seq<nat>): seq<nat> {
    if blocks == [] then [] else Listed(fs, blocks[0]) + AllListed(fs, blocks[1..])
  }

  function BlockList(fs: Fs, ip: Inode): seq<nat>
    requires |ip.block| == N_BLOCKS
  {
    ip.block[..NDIR_BLOCKS] + Listed(fs, ip.block[IND_BLOCK]) + AllListed(fs, Listed(fs, ip.block[DIND_BLOCK]))
  }

  /** The element at `i`, or a hole behind the end. */
  function At(list: seq<nat>, i: nat): nat {
    if i < |list| then list[i] else 0
  }

  lemma {:induction false} NumberAt(blk: seq<byte>, i: nat)
    requires 4 * i + 4 <= |blk|
    ensures i < |Numbers(blk)| && Numbers(blk)[i] == Le32(blk, 4 * i)
  {
    if i > 0 {
      NumberAt(blk[4..], i - 1);
    }
  }

  lemma {:induction false} NumbersLength(blk: seq<byte>)
    ensures |Numbers(blk)| == |blk| / 4
  {
    if |blk| >= 4 {
      NumbersLength(blk[4..]);
    }
  }

  lemma ListedLength(fs: Fs, b: nat)
    requires FsOk(fs)
    ensures |Listed(fs, b)| == Ptrs(fs.bs)
  {
    NumbersLength(if b == 0 then Zeros(fs.bs) else BlockAt(fs, b));
  }

  lemma ListedAt(fs: Fs, b: nat, i: nat)
    requires FsOk(fs) && i < Ptrs(fs.bs)
    ensures i < |Listed(fs, b)| && Listed(fs, b)[i] == Through(fs, b, i)
  {
    NumberAt(if b == 0 then Zeros(fs.bs) else BlockAt(fs, b), i);
  }

  lemma {:induction false} AllListedAt(fs: Fs, blocks: seq<nat>, p: nat, j: nat, i: nat, x: nat)
    requires FsOk(fs) && p == Ptrs(fs.bs) && j < |blocks| && i < p && x == j * p + i
    ensures At(AllListed(fs, blocks), x) == Through(fs, blocks[j], i)
    decreases j
  {
    ListedLength(fs, blocks[0]);
    if j == 0 {
      ListedAt(fs, blocks[0], i);
    } else {
      var x' := OneLess(p, j, i, x);
      AllListedAt(fs, blocks[1..], p, j - 1, i, x');
      AtJoin(Listed(fs, blocks[0]), AllListed(fs, blocks[1..]), x');
    }
  }

  lemma OneLess(p: nat, j: nat, i: nat, x: nat) returns (x': nat)
    requires x == j * p + i && j > 0
    ensures x == p + x' && x' == (j - 1) * p + i
  {
    x' := (j - 1) * p + i;
  }

  lemma OneMore(j: nat, p: nat)
    ensures (j + 1) * p == j * p + p
  {
  }

  lemma AtJoin(a: seq<nat>, b: seq<nat>, i: nat)
    ensures At(a + b, |a| + i) == At(b, i)
    ensures i < |a| ==> At(a + b, i) == At(a, i)
  {
  }

  lemma {:induction false} AllListedLength(fs: Fs, blocks: seq<nat>)
    requires FsOk(fs)
    ensures |AllListed(fs, blocks)| == |blocks| * Ptrs(fs.bs)
  {
    if blocks != [] {
      ListedLength(fs, blocks[0]);
      AllListedLength(fs, blocks[1..]);
      OneMore(|blocks| - 1, Ptrs(fs.bs));
    }
  }

  lemma ThroughBothIsListed(fs: Fs, b: nat, x: nat)
    requires FsOk(fs) && x < Ptrs(fs.bs) * Ptrs(fs.bs)
    ensures ThroughBoth(fs, b, x) == At(AllListed(fs, Listed(fs, b)), x)
  {
    var p := Ptrs(fs.bs);
    QuotientBelow(x, p);
    DivMod(x, p);
    ListedLength(fs, b);
    ListedAt(fs, b, x / p);
    AllListedAt(fs, Listed(fs, b), p, x / p, x % p, x);
  }

  lemma BlockListLength(fs: Fs, ip: Inode)
    requires FsOk(fs) && |ip.block| == N_BLOCKS
    ensures |BlockList(fs, ip)| == NDIR_BLOCKS + Ptrs(fs.bs) + Ptrs(fs.bs) * Ptrs(fs.bs)
  {
    ListedLength(fs, ip.block[IND_BLOCK]);
    ListedLength(fs, ip.block[DIND_BLOCK]);
    AllListedLength(fs, Listed(fs, ip.block[DIND_BLOCK]));
  }

  /** Going down the pointer tree finds the blocks of the file in order. */
  lemma FullWalkIsList(fs: Fs, ip: Inode, off: nat)
    requires FsOk(fs) && |ip.block| == N_BLOCKS
    ensures FullWalk(fs, ip, off) == At(BlockList(fs, ip), off)
  {
    var direct, single, double := ip.block[..NDIR_BLOCKS], Listed(fs, ip.block[IND_BLOCK]), AllListed(fs, Listed(fs, ip.block[DIND_BLOCK]));
    var p, q := Ptrs(fs.bs), Ptrs(fs.bs) * Ptrs(fs.bs);
    ListedLength(fs, ip.block[IND_BLOCK]);
    ListedLength(fs, ip.block[DIND_BLOCK]);
    AllListedLength(fs, Listed(fs, ip.block[DIND_BLOCK]));
    assert |direct| == NDIR_BLOCKS && |single| == p && |double| == q;
    Parts(direct, single, double, off);
    if NDIR_BLOCKS <= off < NDIR_BLOCKS + p {
      ListedAt(fs, ip.block[IND_BLOCK], off - NDIR_BLOCKS);
    } else if NDIR_BLOCKS + p <= off < NDIR_BLOCKS + p + q {
      ThroughBothIsListed(fs, ip.block[DIND_BLOCK], off - NDIR_BLOCKS - p);
    }
  }

  lemma Parts(a: seq<nat>, b: seq<nat>, c: seq<nat>, i: nat)
    ensures At(a + b + c, i) ==
            if i < |a| then a[i] else if i < |a| + |b| then b[i - |a|] else At(c, i - |a| - |b|)
  {
  }

  /** The reader finds the same list, short of the entries of the last indirect block. */
  lemma WalkIsList(fs: Fs, ip: Inode, off: nat)
    requires FsOk(fs) && |ip.block| == N_BLOCKS
    ensures Ptrs(fs.bs) <= |BlockList(fs, ip)|
    ensures Walk(fs, ip, off) == At(BlockList(fs, ip)[..|BlockList(fs, ip)| - Ptrs(fs.bs)], off)
  {
    BlockListLength(fs, ip);
    FullWalkIsList(fs, ip, off);
    ReaderCoverage(fs, ip, off);
  }

  // ----- the bytes of a file

  lemma InBlock(bs: nat, k: nat, i: nat)
    requires bs > 0 && i < bs
    ensures (k * bs + i) / bs == k && (k * bs + i) % bs == i
  {
    DivUnique(k * bs + i, bs, k, i);
  }

  /** The first `n` blocks' worth of bytes of a file are its first `n` blocks, end to end. */
  lemma {:induction false} FileIsBlocks(fs: Fs, ip: Inode, n: nat)
    requires FsOk(fs) && |ip.block| == N_BLOCKS && n <= NDIR_BLOCKS + Ptrs(fs.bs) * Ptrs(fs.bs)
    ensures n <= |BlockList(fs, ip)| && Slice(fs, ip, 0, n * fs.bs) == BlockByBlock(Content(fs), fs.bs, BlockList(fs, ip)[..n])
  {
    BlockListLength(fs, ip);
    if n > 0 {
      var k := n - 1;
      FileIsBlocks(fs, ip, k);
      WalkIsList(fs, ip, k);
      LastBlockIs(Content(fs), fs.bs, BlockList(fs, ip)[..k], BlockList(fs, ip)[k], BlockList(fs, ip)[..n]);
      NextSlice(fs, ip, k);
    }
  }

  lemma NextSlice(fs: Fs, ip: Inode, k: nat)
    requires FsOk(fs) && |ip.block| == N_BLOCKS
    ensures Slice(fs, ip, 0, (k + 1) * fs.bs) == Slice(fs, ip, 0, k * fs.bs) + FileBlock(fs, ip, k)
  {
    OneMore(k, fs.bs);
    SliceParts(fs, ip, k * fs.bs, fs.bs);
    OneBlock(fs, ip, k, k * fs.bs);
  }

  lemma SliceParts(fs: Fs, ip: Inode, a: nat, b: nat)
    requires FsOk(fs) && |ip.block| == N_BLOCKS
    ensures Slice(fs, ip, 0, a + b) == Slice(fs, ip, 0, a) + Slice(fs, ip, a, b)
  {
  }

  lemma OneBlock(fs: Fs, ip: Inode, k: nat, pos: nat)
    requires FsOk(fs) && |ip.block| == N_BLOCKS && pos == k * fs.bs
    ensures Slice(fs, ip, pos, fs.bs) == FileBlock(fs, ip, k)
  {
    var bytes, blk := Slice(fs, ip, pos, fs.bs), FileBlock(fs, ip, k);
    forall i: nat | i < fs.bs ensures bytes[i] == blk[i] {
      OneByte(fs, ip, k, pos, i);
    }
  }

  lemma OneByte(fs: Fs, ip: Inode, k: nat, pos: nat, i: nat)
    requires FsOk(fs) && |ip.block| == N_BLOCKS && pos == k * fs.bs && i < fs.bs
    ensures Slice(fs, ip, pos, fs.bs)[i] == FileBlock(fs, ip, k)[i]
  {
    InBlock(fs.bs, k, i);
    assert Slice(fs, ip, pos, fs.bs)[i] == FileByte(fs, ip, pos + i);
  }
}
