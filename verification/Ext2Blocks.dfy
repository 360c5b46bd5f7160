/**
  Finding and reading the blocks of a file: ext2_blkno with its two one-entry caches, and ext2_breadi.
 */
module Ext2Blocks {
  import opened Ata
  import opened Bytes
  import opened DiskStack
  import opened Ext2Layout
  import opened Words

  /** The byte offset of block `b` fits the 32-bit argument of read_bytes. */
  predicate Small(bs: nat, b: nat) {
    b * bs < WORD
  }

  /** The pointers that a walk of the file follows are of that kind. */
  ghost predicate PointersOk(fs: Fs, ip: Inode)
    requires FsOk(fs)
  {
    && |ip.block| == N_BLOCKS
    && Small(fs.bs, ip.block[IND_BLOCK]) && Small(fs.bs, ip.block[DIND_BLOCK])
    && (ip.block[DIND_BLOCK] != 0 ==>
          forall i: nat {:trigger SmallEntry(fs, ip, i)} :: i < Ptrs(fs.bs) ==> SmallEntry(fs, ip, i))
    && (forall off: nat {:trigger SmallAt(fs, ip, off)} :: SmallAt(fs, ip, off))
  }

  predicate SmallEntry(fs: Fs, ip: Inode, i: nat)
    requires FsOk(fs) && |ip.block| == N_BLOCKS && i < Ptrs(fs.bs)
  {
    Small(fs.bs, Entry(fs, ip.block[DIND_BLOCK], i))
  }

  predicate SmallAt(fs: Fs, ip: Inode, off: nat)
    requires FsOk(fs) && |ip.block| == N_BLOCKS
  {
    Small(fs.bs, Walk(fs, ip, off))
  }

  lemma BlockRead(fs: Fs, b: nat, ok: bool, data: seq<byte>)
    requires FsOk(fs) && (ok ==> b * fs.bs + fs.bs <= |fs.image| && data == fs.image[b * fs.bs..b * fs.bs + fs.bs])
    ensures ok ==> InImage(fs, b) && data == BlockAt(fs, b)
    ensures Covered(b * fs.bs, fs.bs)
  {
    assert (b + 1) * fs.bs == b * fs.bs + fs.bs;
    BlockAligned(fs.bs, b);
    CallersCovered(b * fs.bs, fs.bs);
  }

  lemma BlockAligned(bs: nat, b: nat)
    requires bs == 1024 || bs == 2048 || bs == 4096
    ensures b * bs % SECTOR_SIZE == 0 && b * bs / SECTOR_SIZE == b * (bs / SECTOR_SIZE)
  {
    if bs == 1024 {
      assert b * bs == SECTOR_SIZE * (b * 2);
    } else if bs == 2048 {
      assert b * bs == SECTOR_SIZE * (b * 4);
    } else {
      assert b * bs == SECTOR_SIZE * (b * 8);
    }
  }

  /** A run of blocks inside the image lies inside the partition. */
  lemma SectorsInside(bs: nat, b: nat, n: nat, sectors: nat)
    requires (bs == 1024 || bs == 2048 || bs == 4096) && (b + n) * bs <= SECTOR_SIZE * sectors
    ensures b * bs / SECTOR_SIZE + (n * bs + SECTOR_SIZE - 1) / SECTOR_SIZE <= sectors
    ensures Covered(b * bs, n * bs)
  {
    BlockAligned(bs, b);
    BlockAligned(bs, n);
    assert (b + n) * bs == b * bs + n * bs;
    CallersCovered(b * bs, n * bs);
  }

  /** A run of blocks lies inside the image exactly when its sectors lie inside the partition. */
  lemma RunSectors(bs: nat, b: nat, n: nat, offset: nat, size: nat, sectors: nat)
    requires (bs == 1024 || bs == 2048 || bs == 4096) && offset == b * bs && size == n * bs && n > 0
    ensures Covered(offset, size) && size > 0 && (b + n) * bs == offset + size
    ensures offset + size <= SECTOR_SIZE * sectors <==> offset / SECTOR_SIZE + (size + SECTOR_SIZE - 1) / SECTOR_SIZE <= sectors
  {
    BlockAligned(bs, b);
    BlockAligned(bs, n);
    CallersCovered(offset, size);
    MulMono(1, n, bs);
  }

  class BlockReader {
    const part: Partition
    const bs: nat
    var cachedIblkno: int
    var iblkbuf: seq<byte>
    var cachedDiblkno: int
    var diblkbuf: seq<byte>

    ghost function TheFs(): Fs
      requires part.start + part.size <= |part.disk.media|
      reads this, part
    {
      Fs(part.Image(), bs)
    }

    /** The file system never changes, and each cache is empty or holds the block it claims. */
    ghost predicate Valid()
      reads this, part, part.disk
    {
      && part.Valid() && FsOk(TheFs())
      && (cachedIblkno == -1 || (cachedIblkno >= 0 && iblkbuf == BlockAt(TheFs(), cachedIblkno)))
      && (cachedDiblkno == -1 || (cachedDiblkno >= 0 && diblkbuf == BlockAt(TheFs(), cachedDiblkno)))
    }

    constructor (part: Partition, bs: nat)
      requires part.Valid() && FsOk(Fs(part.Image(), bs))
      ensures Valid() && this.part == part && this.bs == bs && cachedIblkno == -1 && cachedDiblkno == -1
    {
      this.part, this.bs := part, bs;
      cachedIblkno, cachedDiblkno := -1, -1;
      iblkbuf, diblkbuf := [], [];
    }

    /** Read one whole block. */
    method Fetch(b: nat) returns (ok: bool, data: seq<byte>)
      requires part.Valid() && FsOk(TheFs()) && Small(bs, b)
      modifies part.disk
      ensures part.Valid() && part.disk.faults >= old(part.disk.faults)
      ensures ok <==> InImage(TheFs(), b) && part.disk.faults == old(part.disk.faults)
      ensures ok ==> data == BlockAt(TheFs(), b)
      ensures old(part.disk.Dead()) ==> part.disk.Dead() && !ok
    {
      var offset := b * bs;
      BlockRead(TheFs(), b, false, []);
      ok, data := ReadBytes(part, offset, bs);
      BlockRead(TheFs(), b, ok, data);
      if InImage(TheFs(), b) {
        assert 1 * bs == bs;
        SectorsInside(bs, b, 1, part.size);
      }
    }

    /** Bring an indirect block into its buffer; one that is there already cannot fail. */
    method LoadIndirect(b: nat) returns (ok: bool)
      requires Valid() && Small(bs, b)
      modifies this`cachedIblkno, this`iblkbuf, part.disk
      ensures Valid() && part.disk.faults >= old(part.disk.faults)
      ensures ok <==> old(cachedIblkno) == b || (InImage(TheFs(), b) && part.disk.faults == old(part.disk.faults))
      ensures ok ==> iblkbuf == BlockAt(TheFs(), b) && part.disk.faults == old(part.disk.faults)
      ensures old(part.disk.Dead()) ==> part.disk.Dead() && cachedIblkno == old(cachedIblkno) && (ok <==> old(cachedIblkno) == b)
    {
      ok := true;
      if cachedIblkno != b {
        var data;
        ok, data := Fetch(b);
        if ok {
          iblkbuf := data;
          cachedIblkno := b;
        }
      }
    }

    /** Bring a double-indirect block into its buffer. */
    method LoadDoubleIndirect(b: nat) returns (ok: bool)
      requires Valid() && Small(bs, b)
      modifies this`cachedDiblkno, this`diblkbuf, part.disk
      ensures Valid() && part.disk.faults >= old(part.disk.faults)
      ensures ok <==> old(cachedDiblkno) == b || (InImage(TheFs(), b) && part.disk.faults == old(part.disk.faults))
      ensures ok ==> diblkbuf == BlockAt(TheFs(), b) && part.disk.faults == old(part.disk.faults)
      ensures old(part.disk.Dead()) ==> part.disk.Dead() && cachedDiblkno == old(cachedDiblkno) && (ok <==> old(cachedDiblkno) == b)
    {
      ok := true;
      if cachedDiblkno != b {
        var data;
        ok, data := Fetch(b);
        if ok {
          diblkbuf := data;
          cachedDiblkno := b;
        }
      }
    }

    /** The indirect block at which the way to block `off` starts. */
    function FirstIndirect(ip: Inode, off: nat): nat
      requires |ip.block| == N_BLOCKS
    {
      if off <= Ind1Lim(bs) then ip.block[IND_BLOCK] else ip.block[DIND_BLOCK]
    }

    /** The drive is dead, and no cache helps on the way to block `off`, which leads over an indirect block. */
    ghost predicate Blind(ip: Inode, off: nat)
      requires |ip.block| == N_BLOCKS
      reads this, part.disk
    {
      && part.disk.Dead() && DIRECT_LIM < off
      && (FirstIndirect(ip, off) != 0 ==> (if off <= Ind1Lim(bs) then cachedIblkno else cachedDiblkno) != FirstIndirect(ip, off))
    }

    /** The same for all blocks of a file. */
    ghost predicate AllBlind(ip: Inode)
      requires |ip.block| == N_BLOCKS
      reads this, part.disk
    {
      && part.disk.Dead()
      && (ip.block[IND_BLOCK] != 0 ==> cachedIblkno != ip.block[IND_BLOCK])
      && (ip.block[DIND_BLOCK] != 0 ==> cachedDiblkno != ip.block[DIND_BLOCK])
    }

    /** The caches hold what they held, and the drive is still dead. */
    twostate predicate Unmoved()
      reads this, part.disk
    {
      cachedIblkno == old(cachedIblkno) && cachedDiblkno == old(cachedDiblkno) && part.disk.Dead()
    }

    /**
      ext2_blkno: the same block as a walk without caches, whatever has been read or has failed before;
      a read of an indirect block that fails just now is reported as a hole.
     */
    method BlkNo(ip: Inode, off: nat) returns (b: nat)
      requires Valid() && PointersOk(TheFs(), ip)
      modifies this, part.disk
      ensures Valid() && part.disk.faults >= old(part.disk.faults)
      ensures b == if part.disk.faults > old(part.disk.faults) then 0 else Walk(TheFs(), ip, off)
      ensures Small(bs, b)
      ensures off <= DIRECT_LIM ==> part.disk.faults == old(part.disk.faults)
      ensures old(Blind(ip, off)) ==> b == 0 && Unmoved()
      ensures old(Blind(ip, off)) && off <= Ind2Lim(bs) && FirstIndirect(ip, off) != 0 && InImage(TheFs(), FirstIndirect(ip, off)) ==>
                part.disk.faults > old(part.disk.faults)
    {
      assert SmallAt(TheFs(), ip, off);
      if off <= DIRECT_LIM {
        b := ip.block[off];
      } else if off <= Ind1Lim(bs) {
        b := Indirect(ip.block[IND_BLOCK], off - (DIRECT_LIM + 1));
      } else if off <= Ind2Lim(bs) {
        b := DoubleIndirect(ip, off - (Ind1Lim(bs) + 1));
      } else {
        b := 0;
      }
    }

    /** Entry `i` of the indirect block `ib`. */
    method Indirect(ib: nat, i: nat) returns (b: nat)
      requires Valid() && Small(bs, ib) && i < Ptrs(bs)
      modifies this`cachedIblkno, this`iblkbuf, part.disk
      ensures Valid() && part.disk.faults >= old(part.disk.faults)
      ensures b == if part.disk.faults > old(part.disk.faults) then 0 else Through(TheFs(), ib, i)
      ensures old(part.disk.Dead()) && (ib != 0 ==> old(cachedIblkno) != ib) ==>
                b == 0 && Unmoved() && (ib != 0 && InImage(TheFs(), ib) ==> part.disk.faults > old(part.disk.faults))
    {
      if ib == 0 {
        return 0;
      }
      var ok := LoadIndirect(ib);
      if !ok {
        NoEntry(TheFs(), ib, i);
        return 0;
      }
      b := Le32(iblkbuf, 4 * i);
    }

    method DoubleIndirect(ip: Inode, x: nat) returns (b: nat)
      requires Valid() && PointersOk(TheFs(), ip) && x < Ptrs(bs) * Ptrs(bs)
      modifies this, part.disk
      ensures Valid() && part.disk.faults >= old(part.disk.faults)
      ensures b == if part.disk.faults > old(part.disk.faults) then 0 else ThroughBoth(TheFs(), ip.block[DIND_BLOCK], x)
      ensures var db := ip.block[DIND_BLOCK];
              old(part.disk.Dead()) && (db != 0 ==> old(cachedDiblkno) != db) ==>
                b == 0 && Unmoved() && (db != 0 && InImage(TheFs(), db) ==> part.disk.faults > old(part.disk.faults))
    {
      QuotientBelow(x, Ptrs(bs));
      var db := ip.block[DIND_BLOCK];
      if db == 0 {
        return 0;
      }
      var ok := LoadDoubleIndirect(db);
      if !ok {
        NoEntry(TheFs(), db, x / Ptrs(bs));
        return 0;
      }
      var ib := Le32(diblkbuf, 4 * (x / Ptrs(bs)));
      assert ib == Entry(TheFs(), db, x / Ptrs(bs)) && SmallEntry(TheFs(), ip, x / Ptrs(bs));
      b := Indirect(ib, x % Ptrs(bs));
    }

    /** Block `i` of those that `ptrs` lists. */
    method Look(ip: Inode, blkno: nat, i: nat, ghost ptrs: seq<nat>) returns (b: nat)
      requires Valid() && PointersOk(TheFs(), ip) && Mapped(TheFs(), ip, blkno, ptrs) && i < |ptrs|
      modifies this, part.disk
      ensures Valid() && Small(bs, b) && part.disk.faults >= old(part.disk.faults)
      ensures if part.disk.faults > old(part.disk.faults) then b == 0 && blkno + i > DIRECT_LIM else b == ptrs[i]
      ensures old(Blind(ip, blkno + i)) ==> b == 0 && Unmoved()
    {
      assert MappedAt(TheFs(), ip, blkno, ptrs, i);
      b := BlkNo(ip, blkno + i);
    }

    /** Whether the block behind the `ncontig` ones seen so far follows them on the disk, too. */
    method Continues(ip: Inode, blkno: nat, ncontig: nat, dev: nat, nblks: nat, ghost ptrs: seq<nat>) returns (more: bool)
      requires Valid() && PointersOk(TheFs(), ip) && Mapped(TheFs(), ip, blkno, ptrs) && 0 < ncontig <= nblks == |ptrs|
      modifies this, part.disk
      ensures Valid() && part.disk.faults >= old(part.disk.faults)
      ensures more ==> ncontig < |ptrs| && ptrs[ncontig] == dev + ncontig
      ensures !more && part.disk.faults == old(part.disk.faults) && ncontig < |ptrs| ==> ptrs[ncontig] != dev + ncontig
      ensures ncontig == |ptrs| ==> part.disk.faults == old(part.disk.faults) && (old(part.disk.Dead()) ==> Unmoved())
    {
      more := ncontig < nblks;
      if more {
        var next := Look(ip, blkno, ncontig, ptrs);
        more := next == dev + ncontig;
      }
    }

    /** The do-while loop of ext2_breadi: how many blocks from `blkno` on follow each other on the disk. */
    method Run(ip: Inode, blkno: nat, nblks: nat, ghost ptrs: seq<nat>) returns (dev: nat, ncontig: nat)
      requires Valid() && PointersOk(TheFs(), ip) && Mapped(TheFs(), ip, blkno, ptrs) && nblks == |ptrs| > 0
      modifies this, part.disk
      ensures Valid() && 1 <= ncontig <= nblks && Small(bs, dev) && part.disk.faults >= old(part.disk.faults)
      ensures part.disk.faults == old(part.disk.faults) ==> dev == ptrs[0] && (ncontig < nblks ==> ptrs[ncontig] != dev + ncontig)
      ensures dev == ptrs[0] || (dev == 0 && blkno > DIRECT_LIM && part.disk.faults > old(part.disk.faults))
      ensures forall i :: 1 <= i < ncontig ==> ptrs[i] == dev + i
      ensures nblks == 1 && part.disk.faults > old(part.disk.faults) ==> dev == 0
      ensures nblks == 1 && old(Blind(ip, blkno)) ==> dev == 0 && Unmoved()
    {
      ghost var fs, blind := TheFs(), nblks == 1 && Blind(ip, blkno);
      dev := Look(ip, blkno, 0, ptrs);
      ghost var n := part.disk.faults;
      ncontig := 1;
      var more := Continues(ip, blkno, ncontig, dev, nblks, ptrs);
      while more
        invariant Valid() && 1 <= ncontig <= nblks && TheFs() == fs && part.disk.faults >= n
        invariant more ==> ncontig < nblks && ptrs[ncontig] == dev + ncontig
        invariant forall i :: 1 <= i < ncontig ==> ptrs[i] == dev + i
        invariant !more && part.disk.faults == n && ncontig < nblks ==> ptrs[ncontig] != dev + ncontig
        invariant nblks == 1 ==> part.disk.faults == n && !more
        invariant blind ==> dev == 0 && Unmoved()
        decreases nblks - ncontig
      {
        ncontig := ncontig + 1;
        more := Continues(ip, blkno, ncontig, dev, nblks, ptrs);
      }
    }

    /** Read a run of blocks that follow each other on the disk. */
    method FetchRun(b: nat, n: nat) returns (ok: bool, data: seq<byte>)
      requires part.Valid() && FsOk(TheFs()) && Small(bs, b) && n > 0
      modifies part.disk
      ensures part.Valid() && part.disk.faults >= old(part.disk.faults)
      ensures ok ==> data == DiskRun(Content(TheFs()), b, n)
      ensures ok <==> (b + n) * bs <= |part.Image()| && part.disk.faults == old(part.disk.faults)
    {
      var offset, size := b * bs, n * bs;
      RunSectors(bs, b, n, offset, size, part.size);
      ok, data := ReadBytes(part, offset, size);
      if ok {
        RunInImage(TheFs(), b, n, offset, size);
      }
    }

    /** Read or fill one run. */
    method OneRun(dev: nat, ncontig: nat) returns (ok: bool, chunk: seq<byte>)
      requires part.Valid() && FsOk(TheFs()) && Small(bs, dev) && ncontig > 0
      modifies part.disk
      ensures part.Valid() && part.disk.faults >= old(part.disk.faults)
      ensures ok ==> chunk == if dev == 0 then Zeros(ncontig * bs) else DiskRun(Content(TheFs()), dev, ncontig)
      ensures ok ==> |chunk| == ncontig * bs
      ensures ok <==> part.disk.faults == old(part.disk.faults) && (dev == 0 || (dev + ncontig) * bs <= |part.Image()|)
      ensures dev == 0 ==> ok && (old(part.disk.Dead()) ==> part.disk.Dead())
    {
      if dev == 0 {
        ok, chunk := true, Zeros(ncontig * bs);
      } else {
        ok, chunk := FetchRun(dev, ncontig);
        ContentSized(TheFs());
        DiskRunLength(Content(TheFs()), bs, dev, ncontig);
      }
    }

    /** One pass of the outer loop of ext2_breadi; `seen` are the pointers as they were read. */
    method NextChunk(ip: Inode, blkno: nat, nblks: nat, ghost rest: seq<nat>)
      returns (ok: bool, ncontig: nat, chunk: seq<byte>, ghost seen: seq<nat>)
      requires Valid() && PointersOk(TheFs(), ip) && Mapped(TheFs(), ip, blkno, rest) && nblks == |rest| > 0
      modifies this, part.disk
      ensures Valid() && 1 <= ncontig <= nblks && part.disk.faults >= old(part.disk.faults)
      ensures ok ==> FirstCame(TheFs(), rest, ncontig, blkno, part.disk.faults - old(part.disk.faults), seen, chunk)
      ensures nblks == 1 && !ok ==> part.disk.faults > old(part.disk.faults) || !(rest[0] == 0 || InImage(TheFs(), rest[0]))
      ensures nblks == 1 && ok ==> |seen| == 1 && (seen[0] == 0 || InImage(TheFs(), seen[0]))
      ensures nblks == 1 && old(Blind(ip, blkno)) ==> ok && seen == [0] && Unmoved()
    {
      var dev;
      dev, ncontig := Run(ip, blkno, nblks, rest);
      if part.disk.faults == old(part.disk.faults) {
        RunLengthIs(rest, ncontig);
      }
      ok, chunk := OneRun(dev, ncontig);
      seen := SeenRun(rest, dev, ncontig);
      if ok {
        RunCameAs(TheFs(), rest, dev, ncontig, blkno, part.disk.faults - old(part.disk.faults), chunk);
      }
    }

    /**
      ext2_breadi: the bytes of the blocks, run by run; the result is -1 when the data of a run cannot be read.
      Whatever fails, every block comes back as it is unless its pointer was read as a hole (`seen`).
      The caller must not ask for blocks behind the end of the file.
     */
    method ReadBlocks(ip: Inode, blkno: nat, nblks0: nat, ghost ptrs: seq<nat>) returns (total: int, data: seq<byte>, ghost seen: seq<nat>)
      requires Valid() && PointersOk(TheFs(), ip) && nblks0 > 0 && blkno <= ip.size / bs
      requires Mapped(TheFs(), ip, blkno, ptrs) && |ptrs| == Clipped(ip, bs, blkno, nblks0)
      modifies this, part.disk
      ensures Valid() && part.disk.faults >= old(part.disk.faults)
      ensures total == -1 || total == |data|
      ensures total != -1 && part.disk.faults == old(part.disk.faults) ==> data == RunByRun(Content(TheFs()), bs, ptrs)
      ensures total != -1 ==> CameAs(TheFs(), ptrs, blkno, part.disk.faults - old(part.disk.faults), Clean(ptrs), seen, data)
      ensures |ptrs| == 1 && total == -1 ==>
                part.disk.faults > old(part.disk.faults) || !(ptrs[0] == 0 || InImage(TheFs(), ptrs[0]))
      ensures |ptrs| == 1 && total != -1 ==> seen != [] && (LastOf(seen) == 0 || InImage(TheFs(), LastOf(seen)))
      ensures |ptrs| == 1 && old(Blind(ip, blkno)) ==> total != -1 && seen == [0] && Unmoved()
    {
      var nblks: nat := nblks0;
      ClippedPositive(ip.size, bs, blkno, nblks);
      if (blkno + nblks) * bs > ip.size {
        nblks := (ip.size + bs) / bs - blkno;
      }
      total, data, seen := ReadRuns(ip, blkno, nblks, ptrs);
    }

    /** The first run of the blocks `rest` that are still to be read. */
    method Pass(ghost p: Progress, ip: Inode, blkno: nat, nblks: nat, data: seq<byte>)
      returns (ok: bool, ncontig: nat, ghost p': Progress, data': seq<byte>)
      requires Valid() && p.fs == TheFs() && PointersOk(p.fs, ip) && |p.rest| == nblks > 0 && blkno == p.start + |p.done|
      requires SoFar(p, ip, data)
      modifies this, part.disk
      ensures Valid() && p'.fs == TheFs() && 1 <= ncontig <= nblks && |p'.rest| == nblks - ncontig
      ensures part.disk.faults == old(part.disk.faults) + p'.faults - p.faults && p'.faults >= p.faults
      ensures ok ==> SoFar(p', ip, data') && SameRequest(p, p')
      ensures nblks == 1 && !ok ==> p'.faults > p.faults || !(p.rest[0] == 0 || InImage(p.fs, p.rest[0]))
      ensures nblks == 1 && ok ==> p'.seen != [] && (LastOf(p'.seen) == 0 || InImage(p.fs, LastOf(p'.seen)))
      ensures nblks == 1 && old(Blind(ip, blkno)) ==> ok && p'.seen == p.seen + [0] && Unmoved()
    {
      var chunk;
      ghost var more;
      ok, ncontig, chunk, more := NextChunk(ip, blkno, nblks, p.rest);
      ghost var n: nat := part.disk.faults - old(part.disk.faults);
      data', p' := data + chunk, Advanced(p, ncontig, n, more);
      if ok {
        ReadOn(p, ip, ncontig, n, more, data, chunk);
      }
    }

    /** The loop over runs of blocks. */
    method ReadRuns(ip: Inode, blkno0: nat, nblks0: nat, ghost ptrs: seq<nat>) returns (total: int, data: seq<byte>, ghost seen: seq<nat>)
      requires Valid() && PointersOk(TheFs(), ip) && Mapped(TheFs(), ip, blkno0, ptrs) && |ptrs| == nblks0 > 0
      modifies this, part.disk
      ensures Valid() && part.disk.faults >= old(part.disk.faults)
      ensures total == -1 || total == |data|
      ensures total != -1 && part.disk.faults == old(part.disk.faults) ==> data == RunByRun(Content(TheFs()), bs, ptrs)
      ensures total != -1 ==> CameAs(TheFs(), ptrs, blkno0, part.disk.faults - old(part.disk.faults), Clean(ptrs), seen, data)
      ensures |ptrs| == 1 && total == -1 ==>
                part.disk.faults > old(part.disk.faults) || !(ptrs[0] == 0 || InImage(TheFs(), ptrs[0]))
      ensures |ptrs| == 1 && total != -1 ==> seen != [] && (LastOf(seen) == 0 || InImage(TheFs(), LastOf(seen)))
      ensures |ptrs| == 1 && old(Blind(ip, blkno0)) ==> total != -1 && seen == [0] && Unmoved()
    {
      var blkno: nat, nblks: nat := blkno0, nblks0;
      ghost var fs, p0 := TheFs(), Begun(TheFs(), blkno0, ptrs);
      ghost var p := p0;
      total, data, seen := 0, [], [];
      NothingRead(TheFs(), ip, blkno0, ptrs);
      while nblks != 0
        invariant Valid() && p.fs == TheFs() == fs && |p.rest| == nblks && blkno == p.start + |p.done| && total == |data|
        invariant part.disk.faults == old(part.disk.faults) + p.faults
        invariant SoFar(p, ip, data) && SameRequest(p0, p)
        invariant nblks == |ptrs| ==> p == p0
        invariant nblks == |ptrs| || |ptrs| == 1 ==> old(Blind(ip, blkno0)) ==> Unmoved()
        invariant |ptrs| == 1 && nblks == 0 ==> p.seen != [] && (LastOf(p.seen) == 0 || InImage(fs, LastOf(p.seen)))
        invariant |ptrs| == 1 && nblks == 0 && old(Blind(ip, blkno0)) ==> p.seen == [0]
        decreases nblks
      {
        var ok, ncontig;
        ok, ncontig, p, data := Pass(p, ip, blkno, nblks, data);
        if !ok {
          return -1, [], [];
        }
        total := |data|;
        blkno, nblks := blkno + ncontig, nblks - ncontig;
      }
      seen := p.seen;
      AllRead(p, ip, ptrs, data);
    }

    /**
      One block, as ext2fs_read and ext2_readdiri ask for it. A block that is `lost` reads as zeros, and the
      read succeeds; it always does so on a dead drive.
     */
    method ReadOne(ip: Inode, blkno: nat) returns (ok: bool, data: seq<byte>, ghost lost: bool)
      requires Valid() && PointersOk(TheFs(), ip) && blkno <= ip.size / bs
      modifies this, part.disk
      ensures Valid() && part.disk.faults >= old(part.disk.faults)
      ensures ok ==> data == if lost then Zeros(bs) else FileBlock(TheFs(), ip, blkno)
      ensures lost ==> ok && blkno > DIRECT_LIM && part.disk.faults > old(part.disk.faults)
      ensures !ok ==> part.disk.faults > old(part.disk.faults) || !BlockReadable(TheFs(), ip, blkno)
      ensures ok && !lost ==> BlockReadable(TheFs(), ip, blkno)
      ensures old(Blind(ip, blkno)) ==> ok && data == Zeros(bs) && Unmoved()
    {
      ghost var ptrs := [Walk(TheFs(), ip, blkno)];
      ghost var seen;
      ClippedOne(ip, bs, blkno);
      assert MappedAt(TheFs(), ip, blkno, ptrs, 0);
      var total;
      total, data, seen := ReadBlocks(ip, blkno, 1, ptrs);
      ok := total != -1;
      lost := ok && seen != ptrs;
      if ok {
        SeenOne(TheFs(), ip, blkno, seen, part.disk.faults - old(part.disk.faults));
      }
    }
  }

  // ----- pointers as they were read

  function LastOf(s: seq<nat>): nat
    requires s != []
  {
    s[|s| - 1]
  }

  /** How many pointers were read wrongly. */
  function Wrong(ptrs: seq<nat>, seen: seq<nat>): nat
    requires |ptrs| == |seen|
  {
    if ptrs == [] then 0 else
      var n := |ptrs| - 1;
      Wrong(ptrs[..n], seen[..n]) + if ptrs[n] != seen[n] then 1 else 0
  }

  /** Pointers as they are, or 0 for at most `faults` of those that are not in the inode itself. */
  ghost predicate Seen(ptrs: seq<nat>, seen: seq<nat>, blkno: nat, faults: int) {
    && |ptrs| == |seen| && Wrong(ptrs, seen) <= faults
    && forall i :: 0 <= i < |ptrs| ==> seen[i] == ptrs[i] || (seen[i] == 0 && blkno + i > DIRECT_LIM)
  }

  /** Block 1 is at most the first of the blocks. */
  predicate Clean(ptrs: seq<nat>) {
    |ptrs| > 0 ==> 1 !in ptrs[1..]
  }

  /** Data that came for the blocks `ptrs` over pointers read as `seen`. */
  ghost predicate CameAs(fs: Fs, ptrs: seq<nat>, blkno: nat, faults: int, clean: bool, seen: seq<nat>, data: seq<byte>) {
    Seen(ptrs, seen, blkno, faults) && (clean ==> data == BlockByBlock(Content(fs), fs.bs, seen))
  }

  /** The first `m` of the blocks `rest` have come, and they are the first run unless a read failed. */
  ghost predicate FirstCame(fs: Fs, rest: seq<nat>, m: nat, blkno: nat, faults: int, seen: seq<nat>, chunk: seq<byte>)
    requires 0 < m <= |rest|
  {
    && CameAs(fs, rest[..m], blkno, faults, Clean(rest), seen, chunk)
    && (faults == 0 ==> m == RunLength(rest) && chunk == FirstRun(Content(fs), fs.bs, rest))
  }

  /**
    How far ext2_breadi has come: blocks `done` and blocks `rest`, the reads that failed and the pointers as they
    were read. `all` is what all blocks come to if none fails.
   */
  datatype Progress = Progress(fs: Fs, start: nat, clean: bool, all: seq<byte>, done: seq<nat>, rest: seq<nat>, faults: nat, seen: seq<nat>)

  ghost predicate SameRequest(p: Progress, p': Progress) {
    p'.start == p.start && p'.clean == p.clean && p'.all == p.all && p'.done + p'.rest == p.done + p.rest
  }

  /** The rest still makes up what is missing. */
  ghost predicate RunsLeft(p: Progress, data: seq<byte>) {
    p.faults == 0 ==> p.all == data + RunByRun(Content(p.fs), p.fs.bs, p.rest)
  }

  ghost predicate SoFar(p: Progress, ip: Inode, data: seq<byte>)
    requires FsOk(p.fs) && |ip.block| == N_BLOCKS
  {
    && CameAs(p.fs, p.done, p.start, p.faults, p.clean, p.seen, data) && Mapped(p.fs, ip, p.start + |p.done|, p.rest)
    && (p.clean ==> Clean(p.rest)) && RunsLeft(p, data)
  }

  function Advanced(p: Progress, m: nat, faults: nat, more: seq<nat>): Progress
    requires m <= |p.rest|
  {
    p.(done := p.done + p.rest[..m], rest := p.rest[m..], faults := p.faults + faults, seen := p.seen + more)
  }

  lemma ReadOn(p: Progress, ip: Inode, m: nat, faults: nat, more: seq<nat>, data: seq<byte>, chunk: seq<byte>)
    requires FsOk(p.fs) && |ip.block| == N_BLOCKS && 0 < m <= |p.rest| && SoFar(p, ip, data)
    requires FirstCame(p.fs, p.rest, m, p.start + |p.done|, faults, more, chunk)
    ensures SoFar(Advanced(p, m, faults, more), ip, data + chunk) && SameRequest(p, Advanced(p, m, faults, more))
  {
    var first, tail := p.rest[..m], p.rest[m..];
    assert p.rest == first + tail;
    DataOn(p, ip, m, first, faults, more, data, chunk);
    RunsOn(p, ip, m, tail, faults, more, data, chunk);
    MappedTail(p.fs, ip, p.start + |p.done|, p.rest, m, p.start + |p.done + first|, tail);
    CleanTail(p.rest, m);
    Still(p, ip, first, tail, faults, more, data + chunk);
  }

  lemma DataOn(p: Progress, ip: Inode, m: nat, first: seq<nat>, faults: nat, more: seq<nat>, data: seq<byte>, chunk: seq<byte>)
    requires FsOk(p.fs) && |ip.block| == N_BLOCKS && 0 < m <= |p.rest| && SoFar(p, ip, data)
    requires FirstCame(p.fs, p.rest, m, p.start + |p.done|, faults, more, chunk) && first == p.rest[..m]
    ensures CameAs(p.fs, p.done + first, p.start, p.faults + faults, p.clean, p.seen + more, data + chunk)
  {
    CameOn(p.fs, p.done, first, p.start, p.clean, p.faults, p.seen, data, faults, more, chunk);
  }

  lemma RunsOn(p: Progress, ip: Inode, m: nat, tail: seq<nat>, faults: nat, more: seq<nat>, data: seq<byte>, chunk: seq<byte>)
    requires FsOk(p.fs) && |ip.block| == N_BLOCKS && 0 < m <= |p.rest| && SoFar(p, ip, data)
    requires FirstCame(p.fs, p.rest, m, p.start + |p.done|, faults, more, chunk) && tail == p.rest[m..]
    ensures p.faults + faults == 0 ==> p.all == data + chunk + RunByRun(Content(p.fs), p.fs.bs, tail)
  {
    if p.faults + faults == 0 {
      NextRun(Content(p.fs), p.fs.bs, p.all, data, p.rest, m, tail, chunk);
    }
  }

  lemma Still(p: Progress, ip: Inode, first: seq<nat>, tail: seq<nat>, faults: nat, more: seq<nat>, data': seq<byte>)
    requires FsOk(p.fs) && |ip.block| == N_BLOCKS && p.rest == first + tail
    requires CameAs(p.fs, p.done + first, p.start, p.faults + faults, p.clean, p.seen + more, data')
    requires Mapped(p.fs, ip, p.start + |p.done + first|, tail) && (p.clean ==> Clean(tail))
    requires p.faults + faults == 0 ==> p.all == data' + RunByRun(Content(p.fs), p.fs.bs, tail)
    ensures SoFar(Advanced(p, |first|, faults, more), ip, data') && SameRequest(p, Advanced(p, |first|, faults, more))
  {
    assert p.rest[..|first|] == first && p.rest[|first|..] == tail;
    assert p.done + first + tail == p.done + p.rest;
  }

  /** Nothing has been read. */
  function Begun(fs: Fs, blkno: nat, ptrs: seq<nat>): Progress {
    Progress(fs, blkno, Clean(ptrs), RunByRun(Content(fs), fs.bs, ptrs), [], ptrs, 0, [])
  }

  lemma NothingRead(fs: Fs, ip: Inode, blkno: nat, ptrs: seq<nat>)
    requires FsOk(fs) && |ip.block| == N_BLOCKS && Mapped(fs, ip, blkno, ptrs)
    ensures SoFar(Begun(fs, blkno, ptrs), ip, []) && SameRequest(Begun(fs, blkno, ptrs), Begun(fs, blkno, ptrs))
  {
    var all := RunByRun(Content(fs), fs.bs, ptrs);
    assert [] + all == all;
  }

  lemma AllRead(p: Progress, ip: Inode, ptrs: seq<nat>, data: seq<byte>)
    requires FsOk(p.fs) && |ip.block| == N_BLOCKS && SoFar(p, ip, data) && p.rest == [] && SameRequest(Begun(p.fs, p.start, ptrs), p)
    ensures CameAs(p.fs, ptrs, p.start, p.faults, Clean(ptrs), p.seen, data)
    ensures p.faults == 0 ==> data == RunByRun(Content(p.fs), p.fs.bs, ptrs)
  {
    assert p.done == ptrs by {
      assert p.done + p.rest == p.done && [] + ptrs == ptrs;
    }
    NothingMore(Content(p.fs), p.fs.bs, data);
  }

  lemma NothingMore(content: nat -> seq<byte>, bs: nat, data: seq<byte>)
    ensures data + RunByRun(content, bs, []) == data
  {
  }

  lemma CameOn(fs: Fs, done: seq<nat>, next: seq<nat>, blkno: nat, clean: bool, n: int, seen: seq<nat>, data: seq<byte>,
               n': int, more: seq<nat>, chunk: seq<byte>)
    requires CameAs(fs, done, blkno, n, clean, seen, data) && CameAs(fs, next, blkno + |done|, n', clean, more, chunk)
    ensures CameAs(fs, done + next, blkno, n + n', clean, seen + more, data + chunk)
  {
    SeenJoin(done, next, seen, more, blkno, n, n');
    if clean {
      ByBlockConcat(Content(fs), fs.bs, seen, more);
    }
  }

  lemma CleanTail(ptrs: seq<nat>, k: nat)
    requires k <= |ptrs|
    ensures Clean(ptrs) ==> Clean(ptrs[k..])
  {
  }

  lemma {:induction false} WrongNone(ptrs: seq<nat>)
    ensures Wrong(ptrs, ptrs) == 0
    decreases |ptrs|
  {
    if ptrs != [] {
      WrongNone(ptrs[..|ptrs| - 1]);
    }
  }

  lemma {:induction false} WrongConcat(a: seq<nat>, a': seq<nat>, b: seq<nat>, b': seq<nat>)
    requires |a| == |a'| && |b| == |b'|
    ensures Wrong(a + b, a' + b') == Wrong(a, a') + Wrong(b, b')
    decreases |b|
  {
    if b == [] {
      assert a + b == a && a' + b' == a';
    } else {
      var n := |b| - 1;
      WrongConcat(a, a', b[..n], b'[..n]);
      assert (a + b)[..|a| + n] == a + b[..n] && (a' + b')[..|a| + n] == a' + b'[..n];
    }
  }

  /** The pointers of one run. */
  function SeenRun(rest: seq<nat>, dev: nat, n: nat): seq<nat>
    requires 1 <= n <= |rest|
  {
    [dev] + rest[1..n]
  }

  lemma SeenRunOk(rest: seq<nat>, dev: nat, n: nat, blkno: nat, faults: nat)
    requires 1 <= n <= |rest| && (dev == rest[0] || (dev == 0 && blkno > DIRECT_LIM && faults > 0))
    ensures Seen(rest[..n], SeenRun(rest, dev, n), blkno, faults)
  {
    var a, b := rest[..1], rest[1..n];
    assert rest[..n] == a + b;
    WrongConcat(a, [dev], b, b);
    WrongNone(b);
    assert a[..0] == [] && [dev][..0] == [];
    assert Wrong(a[..0], [dev][..0]) == 0;
  }

  lemma OneFollows(rest: seq<nat>, n: nat)
    requires 1 <= n <= |rest| && forall i :: 1 <= i < n ==> rest[i] == i
    ensures n > 1 ==> !Clean(rest)
  {
    if n > 1 {
      assert rest[1..][0] == rest[1] == 1;
    }
  }

  /** A run is read block by block, unless it starts with a hole and goes on with block 1. */
  lemma RunCameAs(fs: Fs, rest: seq<nat>, dev: nat, n: nat, blkno: nat, faults: nat, chunk: seq<byte>)
    requires 1 <= n <= |rest| && (forall i :: 1 <= i < n ==> rest[i] == dev + i)
    requires dev == rest[0] || (dev == 0 && blkno > DIRECT_LIM && faults > 0)
    requires chunk == if dev == 0 then Zeros(n * fs.bs) else DiskRun(Content(fs), dev, n)
    ensures CameAs(fs, rest[..n], blkno, faults, Clean(rest), SeenRun(rest, dev, n), chunk)
  {
    var seen := SeenRun(rest, dev, n);
    SeenRunOk(rest, dev, n, blkno, faults);
    if Clean(rest) {
      if dev != 0 {
        RunIsBlocks(Content(fs), fs.bs, seen);
      } else {
        OneFollows(rest, n);
        OneHole(Content(fs), fs.bs);
        assert seen == [0];
      }
    }
  }

  /** Two stretches of pointers. */
  lemma SeenJoin(a: seq<nat>, b: seq<nat>, seen: seq<nat>, more: seq<nat>, blkno: nat, n: int, n': int)
    requires Seen(a, seen, blkno, n) && Seen(b, more, blkno + |a|, n')
    ensures Seen(a + b, seen + more, blkno, n + n')
  {
    WrongConcat(a, seen, b, more);
    forall i | 0 <= i < |a + b|
      ensures (seen + more)[i] == (a + b)[i] || ((seen + more)[i] == 0 && blkno + i > DIRECT_LIM)
    {
      assert i < |a| ==> (a + b)[i] == a[i] && (seen + more)[i] == seen[i];
      assert i >= |a| ==> (a + b)[i] == b[i - |a|] && (seen + more)[i] == more[i - |a|];
    }
  }

  /** One pointer: the block, or a hole in its place. */
  lemma SeenOne(fs: Fs, ip: Inode, blkno: nat, seen: seq<nat>, faults: int)
    requires FsOk(fs) && |ip.block| == N_BLOCKS && Seen([Walk(fs, ip, blkno)], seen, blkno, faults)
    ensures seen != [Walk(fs, ip, blkno)] ==> seen == [0] && blkno > DIRECT_LIM && faults > 0
    ensures seen == [0] ==> BlockByBlock(Content(fs), fs.bs, seen) == Zeros(fs.bs)
    ensures seen == [Walk(fs, ip, blkno)] ==> BlockByBlock(Content(fs), fs.bs, seen) == FileBlock(fs, ip, blkno)
  {
    var b := Walk(fs, ip, blkno);
    assert seen == [seen[0]];
    OneHole(Content(fs), fs.bs);
    RunIsBlocks(Content(fs), fs.bs, if b != 0 then [b] else []);
    assert DiskRun(Content(fs), b, 0) == [] && DiskRun(Content(fs), b, 1) == [] + Content(fs)(b);
    assert Content(fs)(b) == BlockAt(fs, b);
  }

  /** Nothing is found in an indirect block outside the partition. */
  lemma NoEntry(fs: Fs, b: nat, i: nat)
    requires FsOk(fs) && i < Ptrs(fs.bs)
    ensures !InImage(fs, b) ==> Entry(fs, b, i) == 0
  {
  }

  lemma ContentSized(fs: Fs)
    ensures Sized(Content(fs), fs.bs)
  {
    forall b: nat ensures |Content(fs)(b)| == fs.bs {
      assert Content(fs)(b) == BlockAt(fs, b);
    }
  }

  /** The first run of `rest` goes from what is to come to what has come. */
  lemma NextRun(content: nat -> seq<byte>, bs: nat, all: seq<byte>, data: seq<byte>, rest: seq<nat>, m: nat, tail: seq<nat>, chunk: seq<byte>)
    requires |rest| > 0 && all == data + RunByRun(content, bs, rest)
    requires m == RunLength(rest) && tail == rest[m..] && chunk == FirstRun(content, bs, rest)
    ensures all == data + chunk + RunByRun(content, bs, tail)
  {
    var x := RunByRun(content, bs, tail);
    assert RunByRun(content, bs, rest) == chunk + x;
    Assoc(data, chunk, x);
  }

  /** How many blocks ext2_breadi really reads: not beyond the one in which the file ends. */
  function Clipped(ip: Inode, bs: nat, blkno: nat, nblks: nat): int
    requires bs > 0
  {
    if (blkno + nblks) * bs > ip.size then (ip.size + bs) / bs - blkno else nblks
  }

  lemma ClippedOne(ip: Inode, bs: nat, blkno: nat)
    requires bs > 0 && blkno <= ip.size / bs
    ensures Clipped(ip, bs, blkno, 1) == 1
  {
    ClippedPositive(ip.size, bs, blkno, 1);
    var q := ip.size / bs;
    assert ip.size == bs * q + ip.size % bs;
    if blkno < q {
      assert bs * (blkno + 1) <= bs * q;
    }
  }

  /** The block is a hole or lies inside the partition. */
  predicate BlockReadable(fs: Fs, ip: Inode, blkno: nat)
    requires FsOk(fs) && |ip.block| == N_BLOCKS
  {
    Walk(fs, ip, blkno) == 0 || InImage(fs, Walk(fs, ip, blkno))
  }

  /** `ptrs` lists the blocks of the file from `blkno` on. */
  ghost predicate Mapped(fs: Fs, ip: Inode, blkno: nat, ptrs: seq<nat>)
    requires FsOk(fs) && |ip.block| == N_BLOCKS
  {
    forall i: nat {:trigger MappedAt(fs, ip, blkno, ptrs, i)} :: i < |ptrs| ==> MappedAt(fs, ip, blkno, ptrs, i)
  }

  ghost predicate MappedAt(fs: Fs, ip: Inode, blkno: nat, ptrs: seq<nat>, i: nat)
    requires FsOk(fs) && |ip.block| == N_BLOCKS && i < |ptrs|
  {
    ptrs[i] == Walk(fs, ip, blkno + i)
  }

  lemma MappedTail(fs: Fs, ip: Inode, blkno: nat, ptrs: seq<nat>, k: nat, from: nat, tail: seq<nat>)
    requires FsOk(fs) && |ip.block| == N_BLOCKS && k <= |ptrs| && Mapped(fs, ip, blkno, ptrs)
    requires from == blkno + k && tail == ptrs[k..]
    ensures Mapped(fs, ip, from, tail)
  {
    forall i: nat | i < |tail| ensures MappedAt(fs, ip, from, tail, i) {
      assert MappedAt(fs, ip, blkno, ptrs, k + i);
    }
  }

  /** The run length is determined by where the run ends. */
  lemma RunLengthIs(ptrs: seq<nat>, n: nat)
    requires 1 <= n <= |ptrs| && (forall i :: 0 <= i < n ==> ptrs[i] == ptrs[0] + i)
    requires n < |ptrs| ==> ptrs[n] != ptrs[0] + n
    ensures RunLength(ptrs) == n
  {
  }

  lemma ClippedPositive(size: nat, bs: nat, blkno: nat, nblks: nat)
    requires bs > 0 && blkno <= size / bs && nblks > 0
    ensures (size + bs) / bs == size / bs + 1
  {
    var q := size / bs;
    assert size + bs == bs * (q + 1) + size % bs;
    DivUnique(size + bs, bs, q + 1, size % bs);
  }

  lemma {:induction false} RunInImage(fs: Fs, b: nat, n: nat, at: nat, len: nat)
    requires FsOk(fs) && at == b * fs.bs && len == n * fs.bs && at + len <= |fs.image|
    ensures fs.image[at..at + len] == DiskRun(Content(fs), b, n)
    decreases n
  {
    if n > 0 {
      RunStep(b, n, fs.bs);
      RunInImage(fs, b, n - 1, at, len - fs.bs);
      OneMore(fs, at, len - fs.bs, b + n - 1);
    }
  }

  lemma OneMore(fs: Fs, at: nat, len: nat, k: nat)
    requires FsOk(fs) && k * fs.bs == at + len && at + len + fs.bs <= |fs.image|
    ensures fs.image[at..at + (len + fs.bs)] == fs.image[at..at + len] + Content(fs)(k)
  {
    assert (k + 1) * fs.bs == k * fs.bs + fs.bs;
    assert Content(fs)(k) == BlockAt(fs, k);
    Join(fs.image, at, at + len, at + len + fs.bs);
  }

  lemma RunStep(b: nat, n: nat, bs: nat)
    requires n > 0
    ensures n * bs == (n - 1) * bs + bs && (b + n - 1) * bs == b * bs + (n - 1) * bs
    ensures (b + n - 1 + 1) * bs == b * bs + n * bs
  {
  }

  lemma Join(s: seq<byte>, i: nat, j: nat, k: nat)
    requires i <= j <= k <= |s|
    ensures s[i..k] == s[i..j] + s[j..k]
  {
  }

  // ----- a read that succeeds with zeros

  /** Once the drive has died, every block that hangs on an indirect block is read as zeros, and the read succeeds. */
  method DeadRead(media: seq<Sector>, bs: nat, ip: Inode, blkno: nat) returns (ok: bool, data: seq<byte>)
    requires |media| <= TWO48 && FsOk(Fs(Flatten(media), bs)) && PointersOk(Fs(Flatten(media), bs), ip)
    requires DIRECT_LIM < blkno <= ip.size / bs
    ensures ok && data == Zeros(bs)
  {
    var disk := new Disk(media, Geometry(63, 16), LbaExtended, 0, t => true);
    var part := new Partition(disk, 0, |media|);
    assert part.Window() == media;
    var reader := new BlockReader(part, bs);
    ghost var lost;
    ok, data, lost := reader.ReadOne(ip, blkno);
  }

  const BLANK: Sector := Zeros(SECTOR_SIZE)
  const ONES: Sector := OnesAt(SECTOR_SIZE, true)
  const LISTING: Sector := Zeros(SECTOR_SIZE)[0 := 2]     // the start of an indirect block that names block 2

  /** Three blocks: nothing, an indirect block, and the data it names. */
  const DRIVE: seq<Sector> := [BLANK, BLANK, LISTING, BLANK, ONES, ONES]

  /** A file of 13 blocks, all holes but the last one. */
  const FILE: Inode := Inode(0x8000, 13 * 1024, 4, seq(NDIR_BLOCKS, i => 0) + [1, 0, 0])

  function Both(a: seq<byte>, b: seq<byte>): seq<byte> {
    a + b
  }

  lemma FlattenTwo(a: Sector, b: Sector)
    ensures Flatten([a, b]) == Both(a, b)
  {
    assert [a, b][..1] == [a] && [a][..0] == [];
    assert Flatten([a]) == [] + a == a;
  }

  lemma DriveBlock(b: nat)
    requires b < 3
    ensures var fs := Fs(Flatten(DRIVE), 1024); InImage(fs, b) && BlockAt(fs, b) == Both(DRIVE[2 * b], DRIVE[2 * b + 1])
  {
    var w := DRIVE;
    FlattenSlice(w, 2 * b, 2 * b + 2);
    FlattenTwo(w[2 * b], w[2 * b + 1]);
    assert w[2 * b..2 * b + 2] == [w[2 * b], w[2 * b + 1]];
  }

  /** The indirect block names block 2 and nothing else. */
  lemma ListingEntry(i: nat)
    requires i < 256
    ensures var fs := Fs(Flatten(DRIVE), 1024); FsOk(fs) && Entry(fs, 1, i) == if i == 0 then 2 else 0
  {
    DriveBlock(1);
    var blk := Both(LISTING, BLANK);
    assert blk[0] == 2 && forall j :: 1 <= j < 1024 ==> blk[j] == 0;
  }

  lemma FileOnDrive()
    ensures var fs := Fs(Flatten(DRIVE), 1024);
            FsOk(fs) && PointersOk(fs, FILE) && FileBlock(fs, FILE, 12) == Both(ONES, ONES) && InImage(fs, 1)
  {
    var fs := Fs(Flatten(DRIVE), 1024);
    forall off: nat ensures FsOk(fs) && SmallAt(fs, FILE, off) {
      if DIRECT_LIM < off <= Ind1Lim(1024) {
        ListingEntry(off - 12);
      }
    }
    ListingEntry(0);
    DriveBlock(1);
    DriveBlock(2);
  }

  /** On this input the read succeeds with zeros although the file has none there. */
  method LostRead() returns (ok: bool, data: seq<byte>)
    ensures ok && data == Zeros(1024) && FileBlock(Fs(Flatten(DRIVE), 1024), FILE, 12) != data
  {
    FileOnDrive();
    ok, data := DeadRead(DRIVE, 1024, FILE, 12);
    assert Both(ONES, ONES)[0] == 1 && data[0] == 0;
  }
}
