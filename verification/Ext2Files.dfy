/**
  Open files: the table of inodes in memory, path resolution, links, and reading at a position.
 */
module Ext2Files {
  import opened Bytes
  import opened DiskStack
  import opened Ext2Blocks
  import opened Ext2Layout
  import opened Ext2Names
  import opened Words

  const MAX_OPEN_FILES: nat := 32
  const PATH_MAX: nat := 4095

  datatype Slot = Slot(free: bool, inumber: nat, inode: Inode, pos: nat)

  // ----- counting slots

  function FreeCount(slots: seq<Slot>): (n: nat)
    ensures n <= |slots|
  {
    if slots == [] then 0
    else FreeCount(slots[..|slots| - 1]) + if slots[|slots| - 1].free then 1 else 0
  }

  /** The same slots are in use, for the same inodes. */
  ghost predicate SameHeld(a: seq<Slot>, b: seq<Slot>) {
    |a| == |b| && forall i :: 0 <= i < |a| ==> (a[i].free <==> b[i].free) && (!a[i].free ==> a[i] == b[i])
  }

  /** Slot `i`, free in `a`, is in use in `b`; the others are the same. */
  ghost predicate OneMoreHeld(a: seq<Slot>, b: seq<Slot>, i: int) {
    && |a| == |b| && 0 <= i < |a| && a[i].free && !b[i].free
    && forall j :: 0 <= j < |a| && j != i ==> (a[j].free <==> b[j].free) && (!a[j].free ==> a[j] == b[j])
  }

  /** Slot `i` is the first free one. */
  ghost predicate FirstFree(a: seq<Slot>, i: int) {
    0 <= i < |a| && a[i].free && forall j :: 0 <= j < i ==> !a[j].free
  }

  /** From `a` to `b` the free slots up to `fd` have been taken, and none behind it. */
  ghost predicate TakenUpTo(a: seq<Slot>, b: seq<Slot>, fd: int) {
    && |a| == |b| && 0 <= fd < |a| && a[fd].free
    && (forall j :: 0 <= j <= fd ==> !b[j].free)
    && (forall j :: fd < j < |a| ==> (b[j].free <==> a[j].free))
  }

  lemma FirstTaken(a: seq<Slot>, b: seq<Slot>, i: int)
    requires OneMoreHeld(a, b, i) && FirstFree(a, i)
    ensures TakenUpTo(a, b, i)
  {
  }

  lemma NextTaken(a: seq<Slot>, b: seq<Slot>, c: seq<Slot>, fd: int, i: int)
    requires TakenUpTo(a, b, fd) && OneMoreHeld(b, c, i) && FirstFree(b, i)
    ensures TakenUpTo(a, c, i)
  {
  }

  /** What was in use still is. */
  ghost predicate StillHeld(a: seq<Slot>, b: seq<Slot>) {
    |a| == |b| && forall j :: 0 <= j < |a| && !a[j].free ==> b[j] == a[j]
  }

  lemma {:induction false} SameFree(a: seq<Slot>, b: seq<Slot>)
    requires |a| == |b| && forall i :: 0 <= i < |a| ==> (a[i].free <==> b[i].free)
    ensures FreeCount(a) == FreeCount(b)
    decreases |a|
  {
    if a != [] {
      SameFree(a[..|a| - 1], b[..|b| - 1]);
    }
  }

  lemma {:induction false} OneLessFree(a: seq<Slot>, b: seq<Slot>, i: int)
    requires OneMoreHeld(a, b, i)
    ensures FreeCount(b) == FreeCount(a) - 1
    decreases |a|
  {
    var n := |a| - 1;
    if i == n {
      SameFree(a[..n], b[..n]);
    } else {
      OneLessFree(a[..n], b[..n], i);
    }
  }

  lemma {:induction false} NoneFree(a: seq<Slot>)
    ensures FreeCount(a) == 0 <==> forall i :: 0 <= i < |a| ==> !a[i].free
    decreases |a|
  {
    if a != [] {
      var n := |a| - 1;
      NoneFree(a[..n]);
      assert forall i :: 0 <= i < n ==> a[..n][i] == a[i];
    }
  }

  /** The root was held before, or one more slot is in use for it, or there was none to be had. */
  ghost predicate RootHeld(a: seq<Slot>, root: int, b: seq<Slot>, root': int) {
    if root != -1 then b == a && root' == root
    else if root' == -1 then b == a else OneMoreHeld(a, b, root') && FirstFree(a, root')
  }

  /** A slot in use holds what the disk holds. */
  ghost predicate SlotOk(vol: Volume, s: Slot)
    requires VolumeOk(vol)
  {
    !s.free ==> Known(vol, s.inumber) && s.inode == InodeOf(vol, s.inumber)
  }

  class Ext2 {
    const reader: BlockReader
    const tables: seq<nat>
    const perGroup: nat
    const inodeSize: nat
    var slots: seq<Slot>
    var root: int
    var blkbuf: seq<byte>
    var diroffset: nat
    var blockoffset: nat

    ghost function Vol(): Volume
      requires reader.part.start + reader.part.size <= |reader.part.disk.media|
      reads this, reader, reader.part
    {
      Volume(reader.TheFs(), tables, perGroup, inodeSize)
    }

    ghost predicate Valid()
      reads this, reader, reader.part, reader.part.disk
    {
      && reader.Valid() && VolumeOk(Vol()) && Known(Vol(), ROOT_INO)
      && |slots| == MAX_OPEN_FILES && (forall i {:trigger slots[i]} :: 0 <= i < MAX_OPEN_FILES ==> SlotOk(Vol(), slots[i]))
      && -1 <= root < MAX_OPEN_FILES && (root != -1 ==> !slots[root].free && slots[root].inumber == ROOT_INO)
    }

    /** ext2fs_init_state: every slot is free and the root is not held. */
    constructor (reader: BlockReader, tables: seq<nat>, perGroup: nat, inodeSize: nat)
      requires reader.Valid() && VolumeOk(Volume(reader.TheFs(), tables, perGroup, inodeSize))
      requires Known(Volume(reader.TheFs(), tables, perGroup, inodeSize), ROOT_INO)
      ensures Valid() && this.reader == reader && root == -1 && FreeCount(slots) == MAX_OPEN_FILES
    {
      this.reader, this.tables, this.perGroup, this.inodeSize := reader, tables, perGroup, inodeSize;
      slots := seq(MAX_OPEN_FILES, i => Slot(true, 0, Inode(0, 0, 0, []), 0));
      root := -1;
      blkbuf, diroffset, blockoffset := [], 0, 0;
      new;
      AllFree(slots);
    }

    /** Transfers that have failed. */
    ghost function Faults(): nat
      reads reader.part.disk
    {
      reader.part.disk.faults
    }

    ghost function Reliable(): bool {
      reader.part.disk.Reliable()
    }

    // ----- ext2_iget and ext2_iput

    /** ext2_iget: the inode as it is on the disk, in a slot that was free. */
    method Iget(ino: nat) returns (i: int)
      requires Valid() && Known(Vol(), ino)
      modifies this`slots, reader.part.disk
      ensures Valid() && -1 <= i < MAX_OPEN_FILES && Faults() >= old(Faults())
      ensures i == -1 ==> slots == old(slots)
      ensures i != -1 ==> OneMoreHeld(old(slots), slots, i) && FirstFree(old(slots), i) && slots[i].inumber == ino
      ensures i != -1 <==> FreeCount(old(slots)) > 0 && Faults() == old(Faults())
    {
      i := FindFree();
      if i == MAX_OPEN_FILES {
        return -1;
      }
      var ok, ip := ReadInode(ino);
      if !ok {
        return -1;
      }
      slots := slots[i := Slot(false, ino, ip, slots[i].pos)];
    }

    /** The first free slot, or MAX_OPEN_FILES. */
    method FindFree() returns (i: nat)
      requires |slots| == MAX_OPEN_FILES
      ensures i < MAX_OPEN_FILES ==> FirstFree(slots, i)
      ensures if FreeCount(slots) > 0 then i < MAX_OPEN_FILES else i == MAX_OPEN_FILES
    {
      NoneFree(slots);
      i := 0;
      while i < MAX_OPEN_FILES && !slots[i].free
        invariant 0 <= i <= MAX_OPEN_FILES
        invariant forall j :: 0 <= j < i ==> !slots[j].free
      {
        i := i + 1;
      }
    }

    method ReadInode(ino: nat) returns (ok: bool, ip: Inode)
      requires reader.Valid() && VolumeOk(Vol()) && Known(Vol(), ino)
      modifies reader.part.disk
      ensures reader.Valid() && Faults() >= old(Faults())
      ensures ok ==> ip == InodeOf(Vol(), ino)
      ensures ok <==> Faults() == old(Faults())
    {
      ip := Inode(0, 0, 0, []);
      var group := (ino - 1) / perGroup;
      var offset := tables[group] * reader.bs + (ino - 1) % perGroup * inodeSize;
      InodeAligned(Vol(), ino);
      CallersCovered(offset, 128);
      assert InodeOk(Vol(), ino);
      OneSector(offset, reader.part.size);
      var raw;
      ok, raw := ReadBytes(reader.part, offset, 128);
      if ok {
        ip := ParseInode(raw);
      }
    }

    /** ext2_iput */
    method Iput(i: nat)
      requires Valid() && i < MAX_OPEN_FILES && !slots[i].free && i != root
      modifies this`slots
      ensures Valid() && OneMoreHeld(slots, old(slots), i)
    {
      slots := slots[i := slots[i].(inumber := 0, free := true)];
    }

    // ----- directories

    /** ext2_readdiri stands in block `k` of directory `ip`, before the record at `blockoffset`. */
    ghost predicate Standing(vol: Volume, ip: Inode, k: nat)
      requires VolumeOk(vol) && |ip.block| == N_BLOCKS
      reads this
    {
      && diroffset == k * vol.fs.bs && k < BlockCount(ip.size, vol.fs.bs) && blkbuf == FileBlock(vol.fs, ip, k)
      && blockoffset <= vol.fs.bs && RecordsOk(vol, blkbuf, blockoffset)
    }

    /** Read block `k` of a directory. */
    method ReadDirBlock(ghost vol: Volume, ip: Inode, k: nat) returns (ok: bool, ghost lost: bool)
      requires reader.Valid() && vol == Vol() && VolumeOk(vol) && |ip.block| == N_BLOCKS && PointersOk(vol.fs, ip) && BlocksOk(vol, ip)
      requires k < BlockCount(ip.size, reader.bs)
      modifies this`blkbuf, reader, reader.part.disk
      ensures reader.Valid() && Vol() == vol && Faults() >= old(Faults())
      ensures ok && !lost ==> blkbuf == FileBlock(vol.fs, ip, k) && RecordsOk(vol, blkbuf, 0)
      ensures lost ==> ok && blkbuf == Zeros(reader.bs) && k > DIRECT_LIM && Faults() > old(Faults())
      ensures !ok ==> Faults() > old(Faults())
    {
      BlockCountIs(ip.size, reader.bs, k);
      DirBlockInFile(ip.size, reader.bs, k);
      assert BlockOk(Vol(), ip, k);
      ok, blkbuf, lost := reader.ReadOne(ip, k);
    }

    /** Start over with the first block. */
    method Rewind(ghost vol: Volume, ip: Inode) returns (ok: bool)
      requires reader.Valid() && vol == Vol() && VolumeOk(vol) && |ip.block| == N_BLOCKS && PointersOk(vol.fs, ip) && BlocksOk(vol, ip)
      modifies this`blkbuf, this`diroffset, this`blockoffset, reader, reader.part.disk
      ensures reader.Valid() && Vol() == vol && Faults() >= old(Faults()) && (ok ==> Standing(vol, ip, 0) && blockoffset == 0)
      ensures !ok ==> Faults() > old(Faults())
    {
      ghost var lost;
      diroffset, blockoffset := 0, 0;
      ok, lost := ReadDirBlock(vol, ip, 0);
    }

    /** Go on to the next block, if there is one. */
    method NextDirBlock(ghost vol: Volume, ip: Inode, ghost k: nat) returns (ok: bool, ghost lost: bool)
      requires reader.Valid() && vol == Vol() && VolumeOk(vol) && |ip.block| == N_BLOCKS && PointersOk(vol.fs, ip) && BlocksOk(vol, ip)
      requires diroffset == k * reader.bs
      modifies this`blkbuf, this`diroffset, this`blockoffset, reader, reader.part.disk
      ensures reader.Valid() && Vol() == vol && Faults() >= old(Faults())
      ensures ok ==> k + 1 < BlockCount(ip.size, reader.bs) && blockoffset == 0
      ensures ok && !lost ==> Standing(vol, ip, k + 1)
      ensures lost ==> ok && blkbuf == Zeros(reader.bs) && k + 1 > DIRECT_LIM && Faults() > old(Faults())
      ensures !ok && Faults() == old(Faults()) ==> k + 1 >= BlockCount(ip.size, reader.bs)
    {
      var inside, number := NextOffset(ip.size, k);
      if !inside {
        return false, false;
      }
      assert number == k + 1;
      ok, lost := ReadDirBlock(vol, ip, number);
      if ok {
        blockoffset := 0;
      }
    }

    /** The offset of the next block, whether there is one, and its number. */
    method NextOffset(size: nat, ghost k: nat) returns (inside: bool, number: nat)
      requires reader.bs > 0 && diroffset == k * reader.bs
      modifies this`diroffset
      ensures diroffset == (k + 1) * reader.bs && number == k + 1
      ensures inside <==> k + 1 < BlockCount(size, reader.bs)
    {
      diroffset := diroffset + reader.bs;
      NextBlock(k, reader.bs);
      BlockCountIs(size, reader.bs, k + 1);
      inside := diroffset < size;
      number := BlockNumber(diroffset, reader.bs, k + 1);
    }

    /** ext2_readdiri: the next record, at `at` in the block buffer; `k'` is the block it is in. */
    method ReadDir(ghost vol: Volume, ip: Inode, rewind: bool, ghost k: nat) returns (found: bool, at: nat, ghost k': nat, ghost lost: bool)
      requires reader.Valid() && vol == Vol() && VolumeOk(vol) && |ip.block| == N_BLOCKS && PointersOk(vol.fs, ip) && BlocksOk(vol, ip)
      requires if rewind then k == 0 else Standing(vol, ip, k)
      modifies this`blkbuf, this`diroffset, this`blockoffset, reader, reader.part.disk
      ensures reader.Valid() && Vol() == vol && Faults() >= old(Faults())
      ensures found && !lost ==> at < reader.bs && Standing(vol, ip, k') && RecordsOk(vol, blkbuf, at) && blockoffset == at + RecLen(blkbuf, at)
      ensures found ==>
                || (k' == k && at == if rewind then 0 else old(blockoffset))
                || (k' == k + 1 && at == 0 && !rewind && old(blockoffset) == reader.bs && k' < BlockCount(ip.size, reader.bs))
      ensures lost ==> found && k' == k + 1 > DIRECT_LIM && blkbuf == Zeros(reader.bs) && Faults() > old(Faults())
      ensures !found && Faults() == old(Faults()) ==> !rewind && old(blockoffset) == reader.bs && k + 1 >= BlockCount(ip.size, reader.bs)
      ensures !found && !rewind ==> old(blockoffset) == reader.bs
    {
      at := 0;
      found, k', lost := Approach(vol, ip, rewind, k);
      if found {
        at := TakeRecord(vol, ip, k', lost);
      }
    }

    /** Come to the next record: in the first block, in this one, or in the next. */
    method Approach(ghost vol: Volume, ip: Inode, rewind: bool, ghost k: nat) returns (found: bool, ghost k': nat, ghost lost: bool)
      requires reader.Valid() && vol == Vol() && VolumeOk(vol) && |ip.block| == N_BLOCKS && PointersOk(vol.fs, ip) && BlocksOk(vol, ip)
      requires if rewind then k == 0 else Standing(vol, ip, k)
      modifies this`blkbuf, this`diroffset, this`blockoffset, reader, reader.part.disk
      ensures reader.Valid() && Vol() == vol && Faults() >= old(Faults())
      ensures found ==> blockoffset < reader.bs && (!lost ==> Standing(vol, ip, k'))
      ensures found ==>
                || (k' == k && blockoffset == if rewind then 0 else old(blockoffset))
                || (k' == k + 1 && blockoffset == 0 && !rewind && old(blockoffset) == reader.bs && k' < BlockCount(ip.size, reader.bs))
      ensures lost ==> found && k' == k + 1 > DIRECT_LIM && blockoffset == 0 && blkbuf == Zeros(reader.bs) && Faults() > old(Faults())
      ensures !found && Faults() == old(Faults()) ==> !rewind && old(blockoffset) == reader.bs && k + 1 >= BlockCount(ip.size, reader.bs)
      ensures !found && !rewind ==> old(blockoffset) == reader.bs
    {
      found, k', lost := true, k, false;
      if rewind {
        found := Rewind(vol, ip);
      } else if blockoffset >= reader.bs {
        k' := k + 1;
        found, lost := NextDirBlock(vol, ip, k);
      }
    }

    /** Step over the record before which the search stands. */
    method TakeRecord(ghost vol: Volume, ip: Inode, ghost k: nat, ghost lost: bool) returns (at: nat)
      requires reader.Valid() && vol == Vol() && VolumeOk(vol) && |ip.block| == N_BLOCKS && blockoffset < reader.bs
      requires if lost then blkbuf == Zeros(reader.bs) && blockoffset == 0 else Standing(vol, ip, k)
      modifies this`blockoffset
      ensures at == old(blockoffset) && reader.Valid() && Vol() == vol
      ensures !lost ==> Standing(vol, ip, k) && RecordsOk(vol, blkbuf, at) && blockoffset == at + RecLen(blkbuf, at)
    {
      at := blockoffset;
      blockoffset := blockoffset + RecLen(blkbuf, at);
    }

    /**
      The search for one component in ext2_namei: the first record with the name over all blocks, which is then in the
      buffer. If the drive can fail, the name must be one for which the search ends; only the empty one may be found in
      a lost block, as 0. `fate` is what became of the blocks.
     */
    method FindEntry(ip: Inode, key: Key) returns (next: int, ghost fate: nat -> Fate)
      requires reader.Valid() && VolumeOk(Vol()) && |ip.block| == N_BLOCKS && Searchable(Vol(), ip, key, Reliable())
      requires KeyFits(key, reader.bs)
      modifies this`blkbuf, this`diroffset, this`blockoffset, reader, reader.part.disk
      ensures reader.Valid() && Faults() >= old(Faults()) && next >= -1
      ensures next == -1 || (Lookup(Vol(), ip, key) == Some(next) && blkbuf == BufferAfter(Vol(), ip, key)) ||
              (next == 0 && KeyLength(key) == 0 && Faults() > old(Faults()) && !FoundDirectly(Vol(), ip, key))
      ensures next == -1 && Faults() == old(Faults()) ==> Lookup(Vol(), ip, key) == None
      ensures Possible(fate) && EndsWith(Vol(), ip, fate, key, next)
      ensures Faults() == old(Faults()) ==> forall k: nat :: fate(k) == Good
    {
      ghost var vol := Vol();
      ghost var k: nat, lost, tr := 0, false, Trail([], 0);
      next := -1;
      var found, at: nat;
      found, at, k, lost := ReadDir(vol, ip, true, k);
      HereStart(vol, ip, key);
      tr := Trail([if found then Good else Unread], 0);
      TrailStarts(vol, ip, key, tr.seen[0], Faults() > old(Faults()));
      while found
        invariant reader.Valid() && Vol() == vol && Faults() >= old(Faults())
        invariant found ==> At(vol, ip, key, k, at, lost)
        invariant found ==> TrailAt(vol, ip, key, tr, k, at, lost, Faults() > old(Faults()))
        invariant !found ==> OnTrail(vol, ip, key, tr, Ended(-1), Faults() > old(Faults()))
        invariant lost ==> Faults() > old(Faults()) && KeyLength(key) == 0 && !FoundDirectly(vol, ip, key)
        invariant !found && Faults() == old(Faults()) ==> Lookup(vol, ip, key) == None
        decreases found, BlockCount(ip.size, reader.bs) - k, reader.bs - at
      {
        if Matches(blkbuf, at, key) {
          next := Le32(blkbuf, at);
          Match(vol, ip, key, tr, k, at, lost, blkbuf, Faults() > old(Faults()));
          tr := tr.(turns := tr.turns + 1);
          break;
        }
        found, at, k, lost, tr := NextRecord(ip, vol, key, k, at, tr, old(Faults()));
      }
      TrailEnds(vol, ip, key, tr, next, Faults() > old(Faults()));
      fate := FateOf(tr.seen);
    }

    /** The search stands before record `at` of block `k`, or at the start of a block that was lost. */
    ghost predicate At(vol: Volume, ip: Inode, key: Key, k: nat, at: nat, lost: bool)
      requires VolumeOk(vol) && |ip.block| == N_BLOCKS && BlocksOk(vol, ip)
      reads this
    {
      if lost then blkbuf == Zeros(vol.fs.bs) && at == 0
      else
        && at < vol.fs.bs && Standing(vol, ip, k) && RecordsOk(vol, blkbuf, at) && blockoffset == at + RecLen(blkbuf, at)
        && Here(vol, ip, k, at, key)
    }

    /** From a record that does not match to the next one. */
    method NextRecord(ip: Inode, ghost vol: Volume, ghost key: Key, ghost k: nat, ghost at: nat, ghost tr: Trail, ghost faults: nat)
      returns (found: bool, at': nat, ghost k': nat, ghost lost: bool, ghost tr': Trail)
      requires reader.Valid() && vol == Vol() && VolumeOk(vol) && |ip.block| == N_BLOCKS && Searchable(vol, ip, key, Reliable())
      requires At(vol, ip, key, k, at, false) && !Matches(blkbuf, at, key) && Faults() >= faults
      requires TrailAt(vol, ip, key, tr, k, at, false, Faults() > faults)
      modifies this`blkbuf, this`diroffset, this`blockoffset, reader, reader.part.disk
      ensures reader.Valid() && Vol() == vol && Faults() >= old(Faults())
      ensures found ==> At(vol, ip, key, k', at', lost) && (k' == k + 1 || (k' == k && at' > at && !lost))
      ensures found ==> TrailAt(vol, ip, key, tr', k', at', lost, Faults() > faults)
      ensures !found ==> OnTrail(vol, ip, key, tr', Ended(-1), Faults() > faults)
      ensures lost ==> found && Faults() > old(Faults()) && KeyLength(key) == 0 && !FoundDirectly(vol, ip, key)
      ensures !found && Faults() == old(Faults()) ==> Lookup(vol, ip, key) == None
    {
      NotBeforeNext(vol, ip, k, at, key);
      found, at', k', lost := ReadDir(vol, ip, false, k);
      tr' := Next(tr, k, if found then k' else k + 1, if !found then Unread else if lost then Lost else Good, ip.size, reader.bs);
      RecordLeft(vol, ip, key, tr, k, at, found, k', at', lost, old(Faults()) > faults, Faults() > old(Faults()), Faults() > faults);
    }

    // ----- paths

    /** The root inode is held from the first lookup on. */
    method HoldRoot()
      requires Valid()
      modifies this`slots, this`root, reader.part.disk
      ensures Valid() && RootHeld(old(slots), old(root), slots, root) && Faults() >= old(Faults())
      ensures root == -1 && Faults() == old(Faults()) ==> FreeCount(slots) == 0
    {
      if root == -1 {
        root := Iget(ROOT_INO);
      }
    }

    /** Look up one component: the directory is given back, unless it is the root, and the inode found is held. */
    method Descend(dir: int, key: Key, ghost held: seq<Slot>) returns (i: int)
      requires Valid() && root != -1 && 0 <= dir < MAX_OPEN_FILES && !slots[dir].free
      requires LookupOk(Vol(), slots[dir].inode, key, Reliable()) && KeyFits(key, reader.bs)
      requires if dir == root then SameHeld(held, slots) else OneMoreHeld(held, slots, dir)
      modifies this`slots, this`blkbuf, this`diroffset, this`blockoffset, reader, reader.part.disk
      ensures Valid() && -1 <= i < MAX_OPEN_FILES && Faults() >= old(Faults())
      ensures if i == -1 then SameHeld(held, slots) else OneMoreHeld(held, slots, i) && FirstFree(held, i) && i != root
      ensures i != -1 ==> Lookup(old(Vol()), old(slots)[dir].inode, key) == Some(slots[i].inumber)
      ensures i != -1 ==> blkbuf == BufferAfter(old(Vol()), old(slots)[dir].inode, key)
      ensures i == -1 && Faults() == old(Faults()) ==>
                Lookup(old(Vol()), old(slots)[dir].inode, key) == None || FreeCount(slots) == 0
    {
      var next;
      ghost var fate;
      next, fate := FindEntry(slots[dir].inode, key);
      if dir != root {
        Iput(dir);
      }
      if next < 0 {
        return -1;
      }
      i := Iget(next);
    }

    /** The loop over the components of a path, from the root on. */
    method WalkPath(name: String, ghost held: seq<Slot>) returns (i: int)
      requires Valid() && root != -1 && held == slots
      requires PathOk(Vol(), ROOT_INO, Components(name), Reliable())
      modifies this`slots, this`blkbuf, this`diroffset, this`blockoffset, reader, reader.part.disk
      ensures Valid() && -1 <= i < MAX_OPEN_FILES && Faults() >= old(Faults())
      ensures if i == -1 then SameHeld(held, slots) else OneMoreHeld(held, slots, i) && FirstFree(held, i) && i != root
      ensures i != -1 ==> Resolve(old(Vol()), ROOT_INO, Components(name)) == Some(slots[i].inumber)
      ensures i == -1 && Faults() == old(Faults()) ==>
                Resolve(old(Vol()), ROOT_INO, Components(name)) == None || FreeCount(slots) == 0
    {
      ghost var vol, comps := Vol(), Components(name);
      i := root;
      var rest := Some(name);
      while rest.Some?
        invariant Valid() && Vol() == vol && 0 <= i < MAX_OPEN_FILES && !slots[i].free && Faults() >= old(Faults())
        invariant if i == root then SameHeld(held, slots) && rest.Some? else OneMoreHeld(held, slots, i) && FirstFree(held, i)
        invariant comps == if rest.Some? then Components(rest.value) else []
        invariant PathOk(vol, slots[i].inumber, comps, Reliable())
        invariant Resolve(vol, ROOT_INO, Components(name)) == Resolve(vol, slots[i].inumber, comps)
        decreases if rest.Some? then |rest.value| + 1 else 0
      {
        var component := Component(rest.value);
        rest := Remainder(rest.value);
        assert comps[0] == component && comps[1..] == if rest.Some? then Components(rest.value) else [];
        i := Descend(i, Name(component), held);
        if i == -1 {
          return;
        }
        comps := comps[1..];
      }
    }

    /** The same loop for a path in the block buffer, into which every directory is read meanwhile. */
    method WalkBuffer(ghost held: seq<Slot>, ghost vol: Volume, ghost blk: seq<byte>, ghost target: Option<nat>) returns (i: int)
      requires Valid() && root != -1 && held == slots && vol == Vol() && blk == blkbuf && |blk| == reader.bs
      requires BufferOk(vol, ROOT_INO, blk, Some(0), Reliable()) && target == ResolveIn(vol, ROOT_INO, blk, Some(0))
      modifies this`slots, this`blkbuf, this`diroffset, this`blockoffset, reader, reader.part.disk
      ensures Valid() && -1 <= i < MAX_OPEN_FILES && Faults() >= old(Faults())
      ensures if i == -1 then SameHeld(held, slots) else OneMoreHeld(held, slots, i) && FirstFree(held, i) && i != root
      ensures i != -1 ==> target == Some(slots[i].inumber)
      ensures i == -1 && Faults() == old(Faults()) ==> target == None || FreeCount(slots) == 0
    {
      i := root;
      var rest := Some(0);
      while rest.Some?
        invariant Valid() && Vol() == vol && 0 <= i < MAX_OPEN_FILES && !slots[i].free && Faults() >= old(Faults())
        invariant if i == root then SameHeld(held, slots) && rest.Some? else OneMoreHeld(held, slots, i) && FirstFree(held, i)
        invariant |blkbuf| == reader.bs && (rest.Some? ==> rest.value <= reader.bs)
        invariant BufferOk(vol, slots[i].inumber, blkbuf, rest, Reliable())
        invariant target == ResolveIn(vol, slots[i].inumber, blkbuf, rest)
        decreases if rest.Some? then reader.bs + 1 - rest.value else 0
      {
        var component := BufferedKey(blkbuf, rest.value);
        rest := NextStart(blkbuf, rest.value);
        i := Descend(i, component, held);
        if i == -1 {
          return;
        }
      }
    }

    /**
      ext2_namei: besides the root, a successful lookup holds exactly one more slot, that of the inode
      the path names; a failed one holds none. `held` is what is held once the root is.
     */
    method Namei(name: String) returns (i: int, ghost held: seq<Slot>)
      requires Valid() && PathOk(Vol(), ROOT_INO, Components(name), Reliable())
      modifies this`slots, this`root, this`blkbuf, this`diroffset, this`blockoffset, reader, reader.part.disk
      ensures Valid() && -1 <= i < MAX_OPEN_FILES && RootHeld(old(slots), old(root), held, root) && Faults() >= old(Faults())
      ensures if i == -1 then SameHeld(held, slots) else OneMoreHeld(held, slots, i) && FirstFree(held, i) && i != root && root != -1
      ensures i != -1 ==> Resolve(old(Vol()), ROOT_INO, Components(name)) == Some(slots[i].inumber)
      ensures i == -1 && Faults() == old(Faults()) ==>
                Resolve(old(Vol()), ROOT_INO, Components(name)) == None || FreeCount(slots) == 0
    {
      HoldRoot();
      held := slots;
      if root == -1 {
        return -1, held;
      }
      i := WalkPath(name, held);
    }

    // ----- links, open and close

    /**
      ext2_follow_link. `base` is what tokenising has left of the name that led here; it has no directory part, so
      that relative and absolute links are both looked up from the root. A link that has blocks is read into the
      block buffer and looked up there.
     */
    method FollowLink(from: int, base: String) returns (i: int)
      requires Valid() && root != -1 && 0 <= from < MAX_OPEN_FILES && !slots[from].free
      requires IsLink(slots[from].inode) && LinkOk(Vol(), slots[from].inumber, Reliable()) && LastSlash(base).None?
      modifies this`slots, this`root, this`blkbuf, this`diroffset, this`blockoffset, reader, reader.part.disk
      ensures Valid() && -1 <= i < MAX_OPEN_FILES && root == old(root) && Faults() >= old(Faults())
      ensures if i == -1 then SameHeld(old(slots), slots) else OneMoreHeld(old(slots), slots, i) && FirstFree(old(slots), i)
      ensures i != -1 ==> Target(old(Vol()), old(slots)[from].inumber) == Some(slots[i].inumber)
      ensures i == -1 && Faults() == old(Faults()) ==> Target(old(Vol()), old(slots)[from].inumber) == None || FreeCount(slots) == 0
    {
      if slots[from].inode.blocks != 0 {
        i := FollowLong(from);
      } else {
        var linkto := LinkText(slots[from].inode);
        ghost var held;
        i, held := Namei(linkto);
      }
    }

    /** A link whose text lies in a block. */
    method FollowLong(from: int) returns (i: int)
      requires Valid() && root != -1 && 0 <= from < MAX_OPEN_FILES && !slots[from].free && slots[from].inode.blocks != 0
      requires IsLink(slots[from].inode) && LinkOk(Vol(), slots[from].inumber, Reliable())
      modifies this`slots, this`blkbuf, this`diroffset, this`blockoffset, reader, reader.part.disk
      ensures Valid() && -1 <= i < MAX_OPEN_FILES && Faults() >= old(Faults())
      ensures if i == -1 then SameHeld(old(slots), slots) else OneMoreHeld(old(slots), slots, i) && FirstFree(old(slots), i)
      ensures i != -1 ==> Target(old(Vol()), old(slots)[from].inumber) == Some(slots[i].inumber)
      ensures i == -1 && Faults() == old(Faults()) ==> Target(old(Vol()), old(slots)[from].inumber) == None || FreeCount(slots) == 0
    {
      ghost var vol, ino, held := Vol(), slots[from].inumber, slots;
      LongTarget(vol, ino, Reliable());
      var ok := ReadText(slots[from].inode);
      if !ok {
        return -1;
      }
      i := WalkBuffer(held, vol, blkbuf, Target(vol, ino));
    }

    method ReadText(ip: Inode) returns (ok: bool)
      requires Valid() && |ip.block| == N_BLOCKS && PointersOk(Vol().fs, ip)
      modifies this`blkbuf, reader, reader.part.disk
      ensures Valid() && Vol() == old(Vol()) && Faults() >= old(Faults())
      ensures if ok then BlockReadable(Vol().fs, ip, 0) && blkbuf == FileBlock(Vol().fs, ip, 0)
              else Faults() > old(Faults()) || !BlockReadable(Vol().fs, ip, 0)
    {
      ghost var lost;
      ok, blkbuf, lost := reader.ReadOne(ip, 0);
    }

    /** Follow one link; it is the one that `n` links lead to from the path. */
    method Hop(from: int, base: String, ghost held: seq<Slot>, ghost vol: Volume, ghost comps: seq<String>, ghost c: Chain, ghost n: nat)
      returns (i: int)
      requires Valid() && root != -1 && 0 <= from < MAX_OPEN_FILES && !slots[from].free && IsLink(slots[from].inode) && vol == Vol()
      requires ChainOk(vol, comps, Reliable()) && ChainIs(vol, comps, c) && LastSlash(base).None? && StillHeld(held, slots)
      requires c.named(n) == Some(slots[from].inumber)
      modifies this`slots, this`root, this`blkbuf, this`diroffset, this`blockoffset, reader, reader.part.disk
      ensures Valid() && -1 <= i < MAX_OPEN_FILES && root == old(root) && StillHeld(held, slots) && Vol() == vol
      ensures c.link(n) && Faults() >= old(Faults())
      ensures i == -1 ==> FreeCount(slots) == FreeCount(old(slots))
      ensures i != -1 ==> FreeCount(slots) == FreeCount(old(slots)) - 1 && held[i].free && !slots[i].free
      ensures i != -1 ==> OneMoreHeld(old(slots), slots, i) && FirstFree(old(slots), i)
      ensures i != -1 ==> c.named(n + 1) == Some(slots[i].inumber)
      ensures i == -1 && Faults() == old(Faults()) ==> c.named(n + 1) == None || FreeCount(slots) == 0
    {
      ghost var before := slots;
      assert ChainAt(vol, comps, c, n) && ChainAt(vol, comps, c, n + 1);
      assert NamesLink(vol, comps, n);
      NamedIs(vol, comps, n);
      i := FollowLink(from, base);
      if i == -1 {
        SameFree(before, slots);
      } else {
        OneLessFree(before, slots, i);
      }
    }

    /** Follow links until something else turns up; each link keeps its slot, so the free slots run out. */
    method FollowLinks(from: int, base: String, ghost held: seq<Slot>, ghost vol: Volume, ghost comps: seq<String>, ghost c: Chain)
      returns (fd: int, ghost links: nat)
      requires Valid() && root != -1 && 0 <= from < MAX_OPEN_FILES && !slots[from].free && vol == Vol()
      requires StillHeld(held, slots) && TakenUpTo(held, slots, from) && FreeCount(slots) + 1 == FreeCount(held)
      requires ChainOk(vol, comps, Reliable()) && ChainIs(vol, comps, c)
      requires LastSlash(base).None? && c.named(0) == Some(slots[from].inumber)
      modifies this`slots, this`root, this`blkbuf, this`diroffset, this`blockoffset, reader, reader.part.disk
      ensures Valid() && -1 <= fd < MAX_OPEN_FILES && root == old(root) && Faults() >= old(Faults()) && Vol() == vol
      ensures FreeCount(slots) + links + (if fd == -1 then 0 else 1) == FreeCount(held)
      ensures StillHeld(held, slots)
      ensures fd != -1 ==> TakenUpTo(held, slots, fd) && !IsLink(slots[fd].inode) && c.named(links) == Some(slots[fd].inumber)
      ensures fd == -1 ==> links > 0 && c.link(links - 1)
      ensures fd == -1 && Faults() == old(Faults()) ==> c.named(links) == None || FreeCount(slots) == 0
    {
      fd, links := from, 0;
      while IsLink(slots[fd].inode)
        invariant Valid() && Vol() == vol && root == old(root) && 0 <= fd < MAX_OPEN_FILES && !slots[fd].free && held[fd].free
        invariant StillHeld(held, slots) && TakenUpTo(held, slots, fd) && Faults() >= old(Faults())
        invariant FreeCount(slots) + links + 1 == FreeCount(held)
        invariant c.named(links) == Some(slots[fd].inumber)
        decreases FreeCount(slots)
      {
        ghost var before, was := slots, fd;
        fd := Hop(fd, base, held, vol, comps, c, links);
        links := links + 1;
        if fd == -1 {
          return;
        }
        NextTaken(held, before, slots, was, fd);
      }
    }

    /** The inode that the name itself stands for. */
    method First(name: String, ghost vol: Volume, ghost comps: seq<String>, ghost c: Chain) returns (i: int, ghost held: seq<Slot>)
      requires Valid() && vol == Vol() && comps == Components(name) && ChainOk(vol, comps, Reliable()) && ChainIs(vol, comps, c)
      modifies this`slots, this`root, this`blkbuf, this`diroffset, this`blockoffset, reader, reader.part.disk
      ensures Valid() && -1 <= i < MAX_OPEN_FILES && RootHeld(old(slots), old(root), held, root) && Faults() >= old(Faults())
      ensures Vol() == vol && StillHeld(held, slots)
      ensures if i == -1 then FreeCount(slots) == FreeCount(held)
              else !slots[i].free && |held| == MAX_OPEN_FILES && TakenUpTo(held, slots, i) && FreeCount(slots) + 1 == FreeCount(held) && root != -1
      ensures i != -1 ==> c.named(0) == Some(slots[i].inumber)
      ensures i == -1 && Faults() == old(Faults()) ==> c.named(0) == None || FreeCount(slots) == 0
    {
      NamedIs(vol, comps, 0);
      assert ChainAt(vol, comps, c, 0);
      i, held := Namei(name);
      if i == -1 {
        SameFree(held, slots);
      } else {
        OneLessFree(held, slots, i);
        FirstTaken(held, slots, i);
      }
    }

    /** ext2_open: look the name up and follow links. */
    method OpenInode(name: String, ghost vol: Volume, ghost c: Chain) returns (fd: int, ghost held: seq<Slot>, ghost links: nat)
      requires Valid() && vol == Vol() && ChainOk(vol, Components(name), Reliable()) && ChainIs(vol, Components(name), c)
      modifies this`slots, this`root, this`blkbuf, this`diroffset, this`blockoffset, reader, reader.part.disk
      ensures Valid() && -1 <= fd < MAX_OPEN_FILES && RootHeld(old(slots), old(root), held, root) && Faults() >= old(Faults())
      ensures FreeCount(slots) + links + (if fd == -1 then 0 else 1) == FreeCount(held)
      ensures StillHeld(held, slots) && Vol() == vol
      ensures fd != -1 ==> TakenUpTo(held, slots, fd) && !IsLink(slots[fd].inode) && c.named(links) == Some(slots[fd].inumber)
      ensures fd == -1 && links > 0 ==> c.link(links - 1)
      ensures fd == -1 && Faults() == old(Faults()) ==> c.named(links) == None || FreeCount(slots) == 0
    {
      ghost var comps := Components(name);
      var base := Base(name);
      var first;
      first, held := First(name, vol, comps, c);
      if first == -1 {
        return -1, held, 0;
      }
      ghost var now := root;
      assert RootHeld(old(slots), old(root), held, now);
      fd, links := FollowLinks(first, base, held, vol, comps, c);
      assert root == now;
    }

    /** The same, in terms of what the name leads to. */
    method OpenName(name: String) returns (fd: int, ghost held: seq<Slot>, ghost links: nat)
      requires Valid() && ChainOk(Vol(), Components(name), Reliable())
      modifies this`slots, this`root, this`blkbuf, this`diroffset, this`blockoffset, reader, reader.part.disk
      ensures Valid() && -1 <= fd < MAX_OPEN_FILES && RootHeld(old(slots), old(root), held, root) && Faults() >= old(Faults())
      ensures FreeCount(slots) + links + (if fd == -1 then 0 else 1) == FreeCount(held)
      ensures StillHeld(held, slots)
      ensures fd != -1 ==> TakenUpTo(held, slots, fd) && !IsLink(slots[fd].inode)
      ensures fd != -1 ==> Named(old(Vol()), Components(name), links) == Some(slots[fd].inumber)
      ensures forall n: nat :: n < links ==> NamesLink(old(Vol()), Components(name), n)
      ensures Faults() == old(Faults()) ==> Opened(old(Vol()), Components(name), fd != -1, links, FreeCount(held))
    {
      ghost var vol, comps := Vol(), Components(name);
      ghost var c := ChainOf(vol, comps);
      fd, held, links := OpenInode(name, vol, c);
      assert ChainAt(vol, comps, c, links);
      if Faults() == old(Faults()) {
        ChainOpens(vol, comps, c, fd != -1, links, FreeCount(held), FreeCount(slots));
        OpenedIs(vol, comps, c, fd != -1, links, FreeCount(held));
      }
      LinksFollowed(vol, comps, c, links);
    }

    /**
      ext2fs_open: succeeds exactly when the path leads over links to something else before the slots run out, which
      ends every cycle. The `links` that were followed stay held, on success and on failure; the position starts at zero.
     */
    method Open(name: String) returns (fd: int, ghost held: seq<Slot>, ghost links: nat)
      requires Valid() && ChainOk(Vol(), Components(name), Reliable())
      modifies this`slots, this`root, this`blkbuf, this`diroffset, this`blockoffset, reader, reader.part.disk
      ensures Valid() && -1 <= fd < MAX_OPEN_FILES && Faults() >= old(Faults())
      ensures |name| >= PATH_MAX ==> fd == -1 && links == 0 && held == slots == old(slots) && root == old(root)
      ensures |name| < PATH_MAX ==> RootHeld(old(slots), old(root), held, root)
      ensures FreeCount(slots) + links + (if fd == -1 then 0 else 1) == FreeCount(held)
      ensures StillHeld(held, slots)
      ensures fd != -1 ==> TakenUpTo(held, slots, fd) && !IsLink(slots[fd].inode) && slots[fd].pos == 0
      ensures fd != -1 ==> Named(old(Vol()), Components(name), links) == Some(slots[fd].inumber)
      ensures forall n: nat :: n < links ==> NamesLink(old(Vol()), Components(name), n)
      ensures |name| < PATH_MAX && Faults() == old(Faults()) ==> Opened(old(Vol()), Components(name), fd != -1, links, FreeCount(held))
    {
      if |name| >= PATH_MAX {
        fd, held, links := -1, slots, 0;
        return;
      }
      fd, held, links := OpenName(name);
      if fd != -1 {
        ghost var before := slots;
        slots := slots[fd := slots[fd].(pos := 0)];
        SameFree(before, slots);
      }
    }

    /** ext2_close: the slot is free again, unless it is the root's. */
    method Close(fd: nat)
      requires Valid() && fd < MAX_OPEN_FILES && !slots[fd].free
      modifies this`slots
      ensures Valid()
      ensures if fd == root then slots == old(slots) else OneMoreHeld(slots, old(slots), fd)
    {
      if fd != root {
        Iput(fd);
      }
    }

    // ----- ext2fs_seek and ext2fs_read

    /** ext2fs_seek: any position up to the end of the file. */
    method Seek(fd: nat, newpos: nat) returns (ret: int)
      requires Valid() && fd < MAX_OPEN_FILES && !slots[fd].free
      modifies this`slots
      ensures Valid()
      ensures ret == 0 <==> newpos <= slots[fd].inode.size && newpos < WORD
      ensures slots == if ret == 0 then old(slots)[fd := old(slots)[fd].(pos := newpos)] else old(slots)
    {
      if newpos >= WORD || newpos > slots[fd].inode.size {
        return -1;
      }
      slots := slots[fd := slots[fd].(pos := newpos)];
      return 0;
    }

    /**
      ext2fs_read: the bytes of the file from its position on, holes as zeros, and the position moves by as many;
      after a failure the position stays. Blocks whose indirect block could not be read (`lost`) come as zeros
      without a word, at most one for each transfer that failed.
     */
    method Read(fd: nat, n: nat) returns (ret: int, out: seq<byte>, ghost lost: set<nat>)
      requires Valid() && fd < MAX_OPEN_FILES && !slots[fd].free && slots[fd].pos <= slots[fd].inode.size
      requires PointersOk(Vol().fs, slots[fd].inode)
      modifies this`slots, this`blkbuf, reader, reader.part.disk
      ensures Valid() && (ret == 0 || ret == -1)
      ensures var was := old(slots)[fd];
              && slots == (if ret == 0 then old(slots)[fd := was.(pos := was.pos + |out|)] else old(slots))
              && (ret == 0 ==> |out| == Least(n, was.inode.size - was.pos))
              && out == LossySlice(old(Vol()).fs, was.inode, was.pos, |out|, lost)
              && (ret == -1 && RangeReadable(old(Vol()).fs, was.inode, was.pos, Least(n, was.inode.size - was.pos)) ==>
                    Faults() > old(Faults()) + |lost|)
              && (old(reader.AllBlind(was.inode)) && was.pos >= NDIR_BLOCKS * reader.bs ==>
                    ret == 0 && out == Zeros(|out|) && reader.AllBlind(was.inode))
      ensures Faults() >= old(Faults()) + |lost| && MayBeLost(lost)
    {
      var ip, pos: nat := slots[fd].inode, slots[fd].pos;
      var count: nat := Least(n, ip.size - pos);
      var ok;
      ok, out, lost := ReadAt(ip, pos, count);
      if !ok {
        return -1, out, lost;
      }
      slots := slots[fd := slots[fd].(pos := slots[fd].pos + |out|)];
      ret := 0;
    }

    /** The loop of ext2fs_read over the blocks of a request. */
    method ReadAt(ip: Inode, pos0: nat, count0: nat) returns (ok: bool, out: seq<byte>, ghost lost: set<nat>)
      requires reader.Valid() && PointersOk(reader.TheFs(), ip) && pos0 + count0 <= ip.size
      modifies this`blkbuf, reader, reader.part.disk
      ensures reader.Valid() && (ok ==> |out| == count0)
      ensures out == LossySlice(reader.TheFs(), ip, pos0, |out|, lost)
      ensures Faults() >= old(Faults()) + |lost| && MayBeLost(lost)
      ensures !ok && RangeReadable(reader.TheFs(), ip, pos0, count0) ==> Faults() > old(Faults()) + |lost|
      ensures old(reader.AllBlind(ip)) && pos0 >= NDIR_BLOCKS * reader.bs ==> ok && out == Zeros(|out|) && reader.AllBlind(ip)
    {
      ghost var fs, blind := reader.TheFs(), reader.AllBlind(ip) && pos0 >= NDIR_BLOCKS * reader.bs;
      var pos: nat, count: nat := pos0, count0;
      ok, out, lost := true, [], {};
      while count != 0
        invariant ok && reader.Valid() && reader.TheFs() == fs && count + |out| == count0 && pos == pos0 + |out|
        invariant ReadUpTo(fs, ip, pos0, pos, count, out, lost, blind)
        invariant Faults() >= old(Faults()) + |lost| && (blind ==> reader.AllBlind(ip))
        decreases count
      {
        ghost var more;
        var piece;
        ok, piece, more := OnePiece(ip, pos, count, blind);
        if !ok {
          InRange(fs, ip, pos0, count0, pos);
          return;
        }
        PieceRead(fs, ip, pos0, pos, count, out, lost, piece, more, blind);
        out, lost := out + piece, lost + more;
        count, pos := count - |piece|, pos + |piece|;
      }
    }

    /** The part of the request that lies in one block. */
    method OnePiece(ip: Inode, pos: nat, count: nat, ghost blind: bool) returns (ok: bool, piece: seq<byte>, ghost lost: set<nat>)
      requires reader.Valid() && PointersOk(reader.TheFs(), ip) && 0 < count && pos + count <= ip.size
      requires blind ==> reader.AllBlind(ip) && pos >= NDIR_BLOCKS * reader.bs
      modifies this`blkbuf, reader, reader.part.disk
      ensures reader.Valid() && Faults() >= old(Faults()) + |lost| && MayBeLost(lost)
      ensures ok ==> IsPiece(reader.TheFs(), ip, pos, count, piece, lost)
      ensures !ok ==> piece == [] && lost == {}
      ensures !ok && ByteReadable(reader.TheFs(), ip, pos) ==> Faults() > old(Faults())
      ensures blind ==> ok && piece == Zeros(|piece|) && reader.AllBlind(ip)
    {
      var bnum, bofs := pos / reader.bs, pos % reader.bs;
      var nc := if count <= reader.bs - bofs then count else reader.bs - bofs;
      BlockInFile(ip.size, reader.bs, pos, bnum);
      BlockBelow(pos, NDIR_BLOCKS, reader.bs);
      ghost var zeros;
      ok, zeros := FileBlockIn(ip, bnum, blind);
      piece, lost := [], {};
      if ok {
        piece, lost := blkbuf[bofs..bofs + nc], if zeros then {bnum} else {};
        PieceOf(reader.TheFs(), ip, pos, count, bnum, bofs, nc, zeros, blkbuf);
        PartOfZeros(reader.bs, bofs, nc);
      }
    }

    /** One block of the file in the buffer. */
    method FileBlockIn(ip: Inode, bnum: nat, ghost blind: bool) returns (ok: bool, ghost zeros: bool)
      requires reader.Valid() && PointersOk(reader.TheFs(), ip) && bnum <= ip.size / reader.bs
      requires blind ==> reader.AllBlind(ip) && bnum > DIRECT_LIM
      modifies this`blkbuf, reader, reader.part.disk
      ensures reader.Valid() && Faults() >= old(Faults())
      ensures ok ==> blkbuf == if zeros then Zeros(reader.bs) else FileBlock(reader.TheFs(), ip, bnum)
      ensures zeros ==> ok && bnum > DIRECT_LIM && Faults() > old(Faults())
      ensures !ok ==> Faults() > old(Faults()) || !BlockReadable(reader.TheFs(), ip, bnum)
      ensures blind ==> ok && blkbuf == Zeros(reader.bs) && reader.AllBlind(ip)
    {
      ok, blkbuf, zeros := reader.ReadOne(ip, bnum);
    }
  }

  lemma PartOfZeros(n: nat, i: nat, k: nat)
    requires i + k <= n
    ensures Zeros(n)[i..i + k] == Zeros(k)
  {
  }

  /** What tokenising has left of a name has no directory part. */
  method Base(name: String) returns (base: String)
    ensures base == Truncated(name) && LastSlash(base).None?
  {
    DirectoryPartLost(name);
    base := Truncated(name);
  }

  function Least(a: nat, b: nat): nat {
    if a <= b then a else b
  }

  /** The block in which byte `o` lies is a hole or lies inside the partition. */
  ghost predicate ByteReadable(fs: Fs, ip: Inode, o: nat)
    requires FsOk(fs) && |ip.block| == N_BLOCKS
  {
    BlockReadable(fs, ip, o / fs.bs)
  }

  /** The same for `n` bytes from `pos` on. */
  ghost predicate RangeReadable(fs: Fs, ip: Inode, pos: nat, n: nat)
    requires FsOk(fs) && |ip.block| == N_BLOCKS
  {
    forall o: nat {:trigger ByteReadable(fs, ip, o)} :: pos <= o < pos + n ==> ByteReadable(fs, ip, o)
  }

  /** Everything in the file lies inside the partition. */
  ghost predicate FileReadable(fs: Fs, ip: Inode)
    requires FsOk(fs) && |ip.block| == N_BLOCKS
  {
    RangeReadable(fs, ip, 0, ip.size)
  }

  lemma InRange(fs: Fs, ip: Inode, pos: nat, n: nat, o: nat)
    requires FsOk(fs) && |ip.block| == N_BLOCKS && pos <= o < pos + n
    ensures RangeReadable(fs, ip, pos, n) ==> ByteReadable(fs, ip, o)
  {
  }

  // ----- when open succeeds

  /** What a path leads to after any number of links, and where that is a link again. */
  datatype Chain = Chain(named: nat -> Option<nat>, link: nat -> bool)

  ghost predicate ChainAt(vol: Volume, comps: seq<String>, c: Chain, n: nat)
    requires VolumeOk(vol) && Known(vol, ROOT_INO)
  {
    c.named(n) == Named(vol, comps, n) && c.link(n) == NamesLink(vol, comps, n)
  }

  ghost predicate ChainIs(vol: Volume, comps: seq<String>, c: Chain)
    requires VolumeOk(vol) && Known(vol, ROOT_INO)
  {
    forall n: nat {:trigger ChainAt(vol, comps, c, n)} :: ChainAt(vol, comps, c, n)
  }

  ghost function ChainOf(vol: Volume, comps: seq<String>): (c: Chain)
    requires VolumeOk(vol) && Known(vol, ROOT_INO)
    ensures ChainIs(vol, comps, c)
  {
    Chain((n: nat) => Named(vol, comps, n), (n: nat) => NamesLink(vol, comps, n))
  }

  /** What an open without read failures comes to, given the free slots once the root is held. */
  ghost predicate Opened(vol: Volume, comps: seq<String>, ok: bool, links: nat, free: nat)
    requires VolumeOk(vol) && Known(vol, ROOT_INO)
  {
    && (ok <==> exists n: nat :: n < free && NamesFile(vol, comps, n))
    && (!ok ==> Named(vol, comps, links) == None || links == free)
    && ((forall n: nat :: NamesLink(vol, comps, n)) ==> !ok && links == free)
  }

  /** Whatever is reached after `k + 1` links, a link led there. */
  ghost predicate LeadsOn(reach: nat -> bool, link: nat -> bool, k: nat) {
    (link(k) ==> reach(k)) && (reach(k + 1) ==> link(k))
  }

  lemma {:induction false} LinksBefore(reach: nat -> bool, link: nat -> bool, n: nat, m: nat)
    requires (forall k: nat :: LeadsOn(reach, link, k)) && m < n && reach(n)
    ensures link(m)
    decreases n - m
  {
    assert LeadsOn(reach, link, m);
    if m + 1 < n {
      LinksBefore(reach, link, n, m + 1);
      assert LeadsOn(reach, link, m + 1);
    }
  }

  lemma LinksAll(reach: nat -> bool, link: nat -> bool, links: nat)
    requires (forall k: nat :: LeadsOn(reach, link, k)) && (links > 0 ==> reach(links) || link(links - 1))
    ensures forall n: nat :: n < links ==> link(n)
  {
    forall n: nat | n < links ensures link(n) {
      assert LeadsOn(reach, link, links - 1);
      if n < links - 1 {
        LinksBefore(reach, link, links - 1, n);
      }
    }
  }

  /** Where following a chain comes to an end: at something else, at nothing, or for want of slots. */
  lemma ChainEnds(reach: nat -> bool, link: nat -> bool, ok: bool, links: nat, free: nat, left: nat)
    requires (forall k: nat :: LeadsOn(reach, link, k)) && (links > 0 ==> reach(links) || link(links - 1))
    requires left + links + (if ok then 1 else 0) == free
    requires if ok then reach(links) && !link(links) else !reach(links) || left == 0
    ensures forall n: nat :: n < links ==> link(n)
    ensures !ok ==> forall n: nat :: n < free && reach(n) ==> link(n)
    ensures (forall n: nat :: link(n)) ==> !ok && links == free
  {
    LinksAll(reach, link, links);
    assert link(links) && LeadsOn(reach, link, links) ==> reach(links);
    if !ok {
      forall n: nat | n < free && reach(n) ensures link(n) {
        if n > links {
          LinksBefore(reach, link, n, links);
        }
      }
    }
  }

  lemma ChainLeads(vol: Volume, comps: seq<String>, c: Chain, k: nat)
    requires VolumeOk(vol) && Known(vol, ROOT_INO) && ChainIs(vol, comps, c)
    ensures LeadsOn((n: nat) => c.named(n).Some?, c.link, k)
    ensures NamesFile(vol, comps, k) <==> c.named(k).Some? && !c.link(k)
  {
    assert ChainAt(vol, comps, c, k) && ChainAt(vol, comps, c, k + 1);
    NamedIs(vol, comps, k);
  }

  /** `Opened` for a chain. */
  ghost predicate ChainOpened(c: Chain, ok: bool, links: nat, free: nat) {
    && (ok ==> links < free && c.named(links).Some? && !c.link(links))
    && (!ok ==> forall n: nat :: n < free && c.named(n).Some? ==> c.link(n))
    && (!ok ==> c.named(links) == None || links == free)
    && ((forall n: nat :: c.link(n)) ==> !ok && links == free)
  }

  lemma ChainOpens(vol: Volume, comps: seq<String>, c: Chain, ok: bool, links: nat, free: nat, left: nat)
    requires VolumeOk(vol) && Known(vol, ROOT_INO) && ChainIs(vol, comps, c) && (!ok && links > 0 ==> c.link(links - 1))
    requires left + links + (if ok then 1 else 0) == free
    requires if ok then c.named(links).Some? && !c.link(links) else c.named(links) == None || left == 0
    ensures ChainOpened(c, ok, links, free)
  {
    var reach := (n: nat) => c.named(n).Some?;
    forall k: nat ensures LeadsOn(reach, c.link, k) {
      ChainLeads(vol, comps, c, k);
    }
    ChainEnds(reach, c.link, ok, links, free, left);
    assert !ok ==> forall n: nat :: n < free && reach(n) ==> c.link(n);
  }

  lemma OpenedIs(vol: Volume, comps: seq<String>, c: Chain, ok: bool, links: nat, free: nat)
    requires VolumeOk(vol) && Known(vol, ROOT_INO) && ChainIs(vol, comps, c) && ChainOpened(c, ok, links, free)
    ensures Opened(vol, comps, ok, links, free)
  {
    ChainLeads(vol, comps, c, links);
    assert ChainAt(vol, comps, c, links);
    if !ok {
      forall n: nat | n < free ensures !NamesFile(vol, comps, n) {
        ChainLeads(vol, comps, c, n);
      }
    }
    if forall n: nat :: NamesLink(vol, comps, n) {
      forall n: nat ensures c.link(n) {
        assert ChainAt(vol, comps, c, n);
      }
    }
  }

  lemma LinksFollowed(vol: Volume, comps: seq<String>, c: Chain, links: nat)
    requires VolumeOk(vol) && Known(vol, ROOT_INO) && ChainIs(vol, comps, c)
    requires links > 0 ==> c.named(links).Some? || c.link(links - 1)
    ensures forall n: nat :: n < links ==> NamesLink(vol, comps, n)
  {
    var reach := (n: nat) => c.named(n).Some?;
    forall k: nat ensures LeadsOn(reach, c.link, k) {
      ChainLeads(vol, comps, c, k);
    }
    LinksAll(reach, c.link, links);
    forall n: nat | n < links ensures NamesLink(vol, comps, n) {
      assert ChainAt(vol, comps, c, n);
    }
  }

  // ----- slices with losses

  /** Blocks that the inode itself lists are never lost. */
  ghost predicate MayBeLost(lost: set<nat>) {
    forall k :: k in lost ==> k > DIRECT_LIM
  }

  /** A slice of a file in which the lost blocks are zeros. */
  function LossySlice(fs: Fs, ip: Inode, pos: nat, n: nat, lost: set<nat>): (r: seq<byte>)
    requires FsOk(fs) && |ip.block| == N_BLOCKS
    ensures |r| == n
  {
    seq<byte>(n, i requires 0 <= i => LossyByte(fs, ip, pos + i, lost))
  }

  function LossyByte(fs: Fs, ip: Inode, o: nat, lost: set<nat>): byte
    requires FsOk(fs) && |ip.block| == N_BLOCKS
  {
    if o / fs.bs in lost then 0 else FileByte(fs, ip, o)
  }

  /** Byte `o` is not lost, or it is zero. */
  ghost predicate Unharmed(fs: Fs, ip: Inode, lost: set<nat>, o: nat)
    requires FsOk(fs) && |ip.block| == N_BLOCKS
  {
    o / fs.bs in lost ==> FileByte(fs, ip, o) == 0
  }

  /** A loss does not show exactly where the file has zeros anyway. */
  lemma LossShows(fs: Fs, ip: Inode, pos: nat, n: nat, lost: set<nat>)
    requires FsOk(fs) && |ip.block| == N_BLOCKS
    ensures LossySlice(fs, ip, pos, n, lost) == Slice(fs, ip, pos, n) <==>
            forall o: nat {:trigger Unharmed(fs, ip, lost, o)} :: pos <= o < pos + n ==> Unharmed(fs, ip, lost, o)
  {
    var l, r := LossySlice(fs, ip, pos, n, lost), Slice(fs, ip, pos, n);
    forall o: nat | pos <= o < pos + n ensures Unharmed(fs, ip, lost, o) <==> l[o - pos] == r[o - pos] {
      LossyAt(fs, ip, pos, n, lost, o - pos);
      SliceAt(fs, ip, pos, n, o - pos);
    }
    if forall o: nat {:trigger Unharmed(fs, ip, lost, o)} :: pos <= o < pos + n ==> Unharmed(fs, ip, lost, o) {
      forall i: nat | i < n ensures l[i] == r[i] {
        assert Unharmed(fs, ip, lost, pos + i);
      }
      assert l == r;
    }
  }

  /** Losing blocks that hang on an indirect block changes nothing in byte `o`. */
  ghost predicate SafeByte(fs: Fs, ip: Inode, o: nat)
    requires FsOk(fs) && |ip.block| == N_BLOCKS
  {
    o / fs.bs > DIRECT_LIM ==> FileByte(fs, ip, o) == 0
  }

  /**
    A read that succeeds is sure to return the file, whatever fails, exactly when the range holds nothing but zeros
    behind the blocks that the inode itself lists.
   */
  lemma SafeToRead(fs: Fs, ip: Inode, pos: nat, n: nat)
    requires FsOk(fs) && |ip.block| == N_BLOCKS
    ensures (forall lost: set<nat> {:trigger MayBeLost(lost)} :: MayBeLost(lost) ==> LossySlice(fs, ip, pos, n, lost) == Slice(fs, ip, pos, n)) <==>
            forall o: nat {:trigger SafeByte(fs, ip, o)} :: pos <= o < pos + n ==> SafeByte(fs, ip, o)
  {
    forall lost: set<nat> {:trigger MayBeLost(lost)} | MayBeLost(lost) && forall o: nat {:trigger SafeByte(fs, ip, o)} :: pos <= o < pos + n ==> SafeByte(fs, ip, o)
      ensures LossySlice(fs, ip, pos, n, lost) == Slice(fs, ip, pos, n)
    {
      forall o: nat | pos <= o < pos + n ensures Unharmed(fs, ip, lost, o) {
        assert SafeByte(fs, ip, o);
      }
      LossShows(fs, ip, pos, n, lost);
    }
    forall o: nat | pos <= o < pos + n && !SafeByte(fs, ip, o)
      ensures MayBeLost({o / fs.bs}) && LossySlice(fs, ip, pos, n, {o / fs.bs}) != Slice(fs, ip, pos, n)
    {
      LossShows(fs, ip, pos, n, {o / fs.bs});
      assert !Unharmed(fs, ip, {o / fs.bs}, o);
    }
  }

  /** The zeros that a dead drive gives for a range behind those blocks are the file under the same condition. */
  lemma DeadReadRight(fs: Fs, ip: Inode, pos: nat, n: nat)
    requires FsOk(fs) && |ip.block| == N_BLOCKS && pos >= NDIR_BLOCKS * fs.bs
    ensures Zeros(n) == Slice(fs, ip, pos, n) <==> forall o: nat {:trigger SafeByte(fs, ip, o)} :: pos <= o < pos + n ==> SafeByte(fs, ip, o)
  {
    forall o: nat | pos <= o < pos + n ensures SafeByte(fs, ip, o) <==> Slice(fs, ip, pos, n)[o - pos] == 0 {
      BlockBelow(o, NDIR_BLOCKS, fs.bs);
      SliceAt(fs, ip, pos, n, o - pos);
    }
    if forall o: nat {:trigger SafeByte(fs, ip, o)} :: pos <= o < pos + n ==> SafeByte(fs, ip, o) {
      forall i: nat | i < n ensures Slice(fs, ip, pos, n)[i] == 0 {
        assert SafeByte(fs, ip, pos + i);
      }
    } else {
      var o: nat :| pos <= o < pos + n && !SafeByte(fs, ip, o);
      assert Slice(fs, ip, pos, n)[o - pos] != Zeros(n)[o - pos];
    }
  }

  lemma NothingLost(fs: Fs, ip: Inode, pos: nat, n: nat)
    requires FsOk(fs) && |ip.block| == N_BLOCKS
    ensures LossySlice(fs, ip, pos, n, {}) == Slice(fs, ip, pos, n)
  {
    LossShows(fs, ip, pos, n, {});
  }

  /** One piece of a request: part of one block, and all of it unless the request ends there. */
  ghost predicate IsPiece(fs: Fs, ip: Inode, pos: nat, count: nat, piece: seq<byte>, lost: set<nat>)
    requires FsOk(fs) && |ip.block| == N_BLOCKS
  {
    && 0 < |piece| <= count && piece == LossySlice(fs, ip, pos, |piece|, lost) && lost <= {pos / fs.bs}
    && pos + |piece| <= (pos / fs.bs + 1) * fs.bs && (|piece| < count ==> pos + |piece| == (pos / fs.bs + 1) * fs.bs)
  }

  /** What a request has brought so far; the rest starts on a new block. */
  ghost predicate ReadUpTo(fs: Fs, ip: Inode, pos0: nat, pos: nat, count: nat, out: seq<byte>, lost: set<nat>, blind: bool)
    requires FsOk(fs) && |ip.block| == N_BLOCKS
  {
    && pos == pos0 + |out| && out == LossySlice(fs, ip, pos0, |out|, lost) && MayBeLost(lost) && (blind ==> out == Zeros(|out|))
    && (count > 0 ==> (out == [] && lost == {}) || (pos == pos / fs.bs * fs.bs && forall k :: k in lost ==> k < pos / fs.bs))
  }

  // ----- sessions

  datatype FileOp = ReadOp(n: nat) | SeekOp(to: nat)

  datatype Reply = Got(bytes: seq<byte>) | Moved | Refused

  /** Where a reply leaves the position. */
  function PosAfter(pos: nat, op: FileOp, reply: Reply): nat {
    match reply
    case Got(bytes) => pos + |bytes|
    case Moved => if op.SeekOp? then op.to else pos
    case Refused => pos
  }

  function Position(start: nat, ops: seq<FileOp>, replies: seq<Reply>): nat
    requires |ops| == |replies|
  {
    if ops == [] then start else
      var n := |ops| - 1;
      PosAfter(Position(start, ops[..n], replies[..n]), ops[n], replies[n])
  }

  /** What may come back for one request at a position: its slice, with zeros for lost blocks, or a refusal. */
  ghost predicate Answers(fs: Fs, ip: Inode, pos: nat, op: FileOp, reply: Reply, lost: set<nat>)
    requires FsOk(fs) && |ip.block| == N_BLOCKS
  {
    && MayBeLost(lost)
    && match op
       case ReadOp(n) =>
         reply == Refused ||
         (pos <= ip.size && reply == Got(LossySlice(fs, ip, pos, Least(n, ip.size - pos), lost)))
       case SeekOp(to) => reply == if to <= ip.size && to < WORD then Moved else Refused
  }

  /** Every reply fits the position at which its request was made. */
  ghost predicate Faithful(fs: Fs, ip: Inode, start: nat, ops: seq<FileOp>, replies: seq<Reply>, losses: seq<set<nat>>)
    requires FsOk(fs) && |ip.block| == N_BLOCKS && |ops| == |replies| == |losses|
  {
    ops != [] ==>
      var n := |ops| - 1;
      && Faithful(fs, ip, start, ops[..n], replies[..n], losses[..n])
      && Answers(fs, ip, Position(start, ops[..n], replies[..n]), ops[n], replies[n], losses[n])
  }

  /** Reads refused and blocks lost. */
  function DamageOf(op: FileOp, reply: Reply, lost: set<nat>): nat {
    |lost| + if op.ReadOp? && reply.Refused? then 1 else 0
  }

  function Damage(ops: seq<FileOp>, replies: seq<Reply>, losses: seq<set<nat>>): nat
    requires |ops| == |replies| == |losses|
  {
    if ops == [] then 0 else
      var n := |ops| - 1;
      Damage(ops[..n], replies[..n], losses[..n]) + DamageOf(ops[n], replies[n], losses[n])
  }

  /** What a sequence of reads and seeks returns when nothing fails. */
  function Undisturbed(fs: Fs, ip: Inode, start: nat, ops: seq<FileOp>): (r: (seq<Reply>, nat))
    requires FsOk(fs) && |ip.block| == N_BLOCKS && start <= ip.size
    ensures |r.0| == |ops| && r.1 <= ip.size
  {
    if ops == [] then ([], start) else
      var n := |ops| - 1;
      var (replies, pos) := Undisturbed(fs, ip, start, ops[..n]);
      match ops[n]
      case ReadOp(c) =>
        var len := Least(c, ip.size - pos);
        (replies + [Got(Slice(fs, ip, pos, len))], pos + len)
      case SeekOp(to) =>
        if to <= ip.size && to < WORD then (replies + [Moved], to) else (replies + [Refused], pos)
  }

  lemma UndisturbedStep(fs: Fs, ip: Inode, pos: nat, op: FileOp, reply: Reply, lost: set<nat>)
    requires FsOk(fs) && |ip.block| == N_BLOCKS && pos <= ip.size
    requires Answers(fs, ip, pos, op, reply, lost) && DamageOf(op, reply, lost) == 0
    ensures match op
            case ReadOp(c) =>
              var len := Least(c, ip.size - pos);
              reply == Got(Slice(fs, ip, pos, len)) && PosAfter(pos, op, reply) == pos + len
            case SeekOp(to) =>
              if to <= ip.size && to < WORD then reply == Moved && PosAfter(pos, op, reply) == to
              else reply == Refused && PosAfter(pos, op, reply) == pos
  {
    assert lost == {};
    if op.ReadOp? {
      NothingLost(fs, ip, pos, Least(op.n, ip.size - pos));
    }
  }

  /** Without damage there is only one way to answer. */
  lemma {:induction false} NoDamage(fs: Fs, ip: Inode, start: nat, ops: seq<FileOp>, replies: seq<Reply>, losses: seq<set<nat>>)
    requires FsOk(fs) && |ip.block| == N_BLOCKS && start <= ip.size && |ops| == |replies| == |losses|
    requires Faithful(fs, ip, start, ops, replies, losses) && Damage(ops, replies, losses) == 0
    ensures Undisturbed(fs, ip, start, ops) == (replies, Position(start, ops, replies))
    decreases |ops|
  {
    if ops != [] {
      var n := |ops| - 1;
      NoDamage(fs, ip, start, ops[..n], replies[..n], losses[..n]);
      UndisturbedStep(fs, ip, Position(start, ops[..n], replies[..n]), ops[n], replies[n], losses[n]);
      assert replies == replies[..n] + [replies[n]];
    }
  }

  lemma SessionStep(fs: Fs, ip: Inode, start: nat, ops: seq<FileOp>, i: nat, replies: seq<Reply>, losses: seq<set<nat>>,
                    reply: Reply, lost: set<nat>)
    requires FsOk(fs) && |ip.block| == N_BLOCKS && i < |ops| && |replies| == |losses| == i
    requires Faithful(fs, ip, start, ops[..i], replies, losses)
    requires Answers(fs, ip, Position(start, ops[..i], replies), ops[i], reply, lost)
    ensures Faithful(fs, ip, start, ops[..i + 1], replies + [reply], losses + [lost])
    ensures Position(start, ops[..i + 1], replies + [reply]) == PosAfter(Position(start, ops[..i], replies), ops[i], reply)
    ensures Damage(ops[..i + 1], replies + [reply], losses + [lost]) == Damage(ops[..i], replies, losses) + DamageOf(ops[i], reply, lost)
  {
    assert ops[..i + 1][..i] == ops[..i] && (replies + [reply])[..i] == replies && (losses + [lost])[..i] == losses;
  }

  /**
    Any sequence of reads and seeks, whatever fails: each read returns the slice that the position selects, with
    zeros for the blocks lost, or is refused and keeps the position. On a file that lies inside the partition there
    is no more damage than transfers that failed, so that without failures the replies are exactly the undisturbed ones.
   */
  method Session(e: Ext2, fd: nat, ops: seq<FileOp>) returns (replies: seq<Reply>, ghost losses: seq<set<nat>>)
    requires e.Valid() && fd < MAX_OPEN_FILES && !e.slots[fd].free && e.slots[fd].pos <= e.slots[fd].inode.size
    requires PointersOk(e.Vol().fs, e.slots[fd].inode)
    modifies e, e.reader, e.reader.part.disk
    ensures e.Valid() && e.slots[fd] == old(e.slots[fd]).(pos := e.slots[fd].pos)
    ensures |replies| == |losses| == |ops|
    ensures var fs, was := old(e.Vol()).fs, old(e.slots)[fd];
            && Faithful(fs, was.inode, was.pos, ops, replies, losses) && e.slots[fd].pos == Position(was.pos, ops, replies)
            && (FileReadable(fs, was.inode) ==> Damage(ops, replies, losses) <= e.Faults() - old(e.Faults()))
            && (FileReadable(fs, was.inode) && e.Faults() == old(e.Faults()) ==> replies == Undisturbed(fs, was.inode, was.pos, ops).0)
  {
    ghost var fs, ip, start, n := e.Vol().fs, e.slots[fd].inode, e.slots[fd].pos, e.Faults();
    replies, losses := [], [];
    assert ops[..0] == [];
    for i := 0 to |ops|
      invariant e.Valid() && e.Vol().fs == fs && e.slots[fd] == old(e.slots[fd]).(pos := e.slots[fd].pos) && e.slots[fd].pos <= ip.size
      invariant |replies| == |losses| == i && e.Faults() >= n
      invariant Faithful(fs, ip, start, ops[..i], replies, losses) && e.slots[fd].pos == Position(start, ops[..i], replies)
      invariant FileReadable(fs, ip) ==> Damage(ops[..i], replies, losses) <= e.Faults() - n
    {
      var reply;
      ghost var lost;
      reply, lost := Perform(e, fd, ops[i]);
      SessionStep(fs, ip, start, ops, i, replies, losses, reply, lost);
      replies, losses := replies + [reply], losses + [lost];
    }
    assert ops[..|ops|] == ops;
    if FileReadable(fs, ip) && e.Faults() == n {
      NoDamage(fs, ip, start, ops, replies, losses);
    }
  }

  /** One read or seek. */
  method Perform(e: Ext2, fd: nat, op: FileOp) returns (reply: Reply, ghost lost: set<nat>)
    requires e.Valid() && fd < MAX_OPEN_FILES && !e.slots[fd].free && e.slots[fd].pos <= e.slots[fd].inode.size
    requires PointersOk(e.Vol().fs, e.slots[fd].inode)
    modifies e, e.reader, e.reader.part.disk
    ensures e.Valid() && e.Vol() == old(e.Vol()) && e.slots == old(e.slots)[fd := old(e.slots)[fd].(pos := e.slots[fd].pos)]
    ensures var fs, was := old(e.Vol()).fs, old(e.slots)[fd];
            && Answers(fs, was.inode, was.pos, op, reply, lost)
            && e.slots[fd].pos == PosAfter(was.pos, op, reply) <= was.inode.size && e.Faults() >= old(e.Faults())
            && (FileReadable(fs, was.inode) ==> e.Faults() >= old(e.Faults()) + DamageOf(op, reply, lost))
  {
    lost := {};
    match op
    case ReadOp(n) =>
      var ret, out;
      ret, out, lost := e.Read(fd, n);
      reply := if ret == 0 then Got(out) else Refused;
    case SeekOp(to) =>
      var ret := e.Seek(fd, to);
      reply := if ret == 0 then Moved else Refused;
  }

  lemma {:induction false} AllFree(s: seq<Slot>)
    requires forall i :: 0 <= i < |s| ==> s[i].free
    ensures FreeCount(s) == |s|
    decreases |s|
  {
    if s != [] {
      AllFree(s[..|s| - 1]);
    }
  }

  lemma OneSector(offset: nat, sectors: nat)
    requires offset % 128 == 0 && offset + 128 <= SECTOR_SIZE * sectors
    ensures offset / SECTOR_SIZE + (128 + SECTOR_SIZE - 1) / SECTOR_SIZE <= sectors
  {
  }

  lemma BlockInFile(size: nat, bs: nat, pos: nat, bnum: nat)
    requires bs > 0 && pos < size && bnum == pos / bs
    ensures bnum <= size / bs && pos == bnum * bs + pos % bs
  {
    var q := size / bs;
    assert size == bs * q + size % bs;
    assert pos == bs * bnum + pos % bs;
    assert bnum > q ==> bs * bnum >= bs * (q + 1);
  }

  lemma ByteAt(fs: Fs, ip: Inode, bnum: nat, o: nat, pos: nat)
    requires FsOk(fs) && |ip.block| == N_BLOCKS && o < fs.bs && pos == bnum * fs.bs + o
    ensures pos / fs.bs == bnum && FileByte(fs, ip, pos) == FileBlock(fs, ip, bnum)[o]
  {
    DivUnique(pos, fs.bs, bnum, o);
  }

  /** Part of a block, as it is or lost, is a slice of the file. */
  lemma PieceIsSlice(fs: Fs, ip: Inode, pos: nat, bnum: nat, bofs: nat, nc: nat, zeros: bool, blk: seq<byte>)
    requires FsOk(fs) && |ip.block| == N_BLOCKS && pos == bnum * fs.bs + bofs && bofs + nc <= fs.bs
    requires blk == if zeros then Zeros(fs.bs) else FileBlock(fs, ip, bnum)
    ensures blk[bofs..bofs + nc] == LossySlice(fs, ip, pos, nc, if zeros then {bnum} else {})
  {
    var lost: set<nat> := if zeros then {bnum} else {};
    var slice := LossySlice(fs, ip, pos, nc, lost);
    forall i | 0 <= i < nc ensures blk[bofs + i] == slice[i] {
      ByteAt(fs, ip, bnum, bofs + i, pos + i);
      LossyAt(fs, ip, pos, nc, lost, i);
    }
    SameBytes(blk, bofs, slice);
  }

  lemma SliceAt(fs: Fs, ip: Inode, pos: nat, n: nat, i: nat)
    requires FsOk(fs) && |ip.block| == N_BLOCKS && i < n
    ensures Slice(fs, ip, pos, n)[i] == FileByte(fs, ip, pos + i)
  {
  }

  lemma LossyAt(fs: Fs, ip: Inode, pos: nat, n: nat, lost: set<nat>, i: nat)
    requires FsOk(fs) && |ip.block| == N_BLOCKS && i < n
    ensures LossySlice(fs, ip, pos, n, lost)[i] == LossyByte(fs, ip, pos + i, lost)
  {
  }

  lemma SameBytes(blk: seq<byte>, at: nat, slice: seq<byte>)
    requires at + |slice| <= |blk| && forall i :: 0 <= i < |slice| ==> blk[at + i] == slice[i]
    ensures blk[at..at + |slice|] == slice
  {
  }

  lemma PieceOf(fs: Fs, ip: Inode, pos: nat, count: nat, bnum: nat, bofs: nat, nc: nat, zeros: bool, blk: seq<byte>)
    requires FsOk(fs) && |ip.block| == N_BLOCKS && pos == bnum * fs.bs + bofs && bofs < fs.bs && count > 0
    requires nc == (if count <= fs.bs - bofs then count else fs.bs - bofs)
    requires blk == if zeros then Zeros(fs.bs) else FileBlock(fs, ip, bnum)
    ensures IsPiece(fs, ip, pos, count, blk[bofs..bofs + nc], if zeros then {bnum} else {})
  {
    PieceIsSlice(fs, ip, pos, bnum, bofs, nc, zeros, blk);
    PieceEnd(fs.bs, pos, count, bnum, bofs, nc);
  }

  lemma PieceEnd(bs: nat, pos: nat, count: nat, bnum: nat, bofs: nat, nc: nat)
    requires pos == bnum * bs + bofs && bofs < bs && count > 0 && nc == (if count <= bs - bofs then count else bs - bofs)
    ensures pos / bs == bnum && 0 < nc <= count
    ensures pos + nc <= (pos / bs + 1) * bs && (nc < count ==> pos + nc == (pos / bs + 1) * bs)
  {
    DivUnique(pos, bs, bnum, bofs);
    assert (bnum + 1) * bs == bnum * bs + bs;
  }

  lemma SizeOfUnion(a: set<nat>, b: set<nat>)
    ensures |a + b| <= |a| + |b|
  {
    assert a + b == a + (b - a);
    assert |b - a| <= |b| by {
      assert b == (b - a) + (b * a);
    }
  }

  /** None of `n` bytes from `pos` on is in one of the blocks. */
  ghost predicate Apart(bs: nat, pos: nat, n: nat, blocks: set<nat>)
    requires bs > 0
  {
    forall o: nat {:trigger o / bs} :: pos <= o < pos + n ==> o / bs !in blocks
  }

  lemma LossyJoin(fs: Fs, ip: Inode, pos: nat, a: nat, b: nat, lost: set<nat>, more: set<nat>)
    requires FsOk(fs) && |ip.block| == N_BLOCKS
    requires Apart(fs.bs, pos, a, more) && Apart(fs.bs, pos + a, b, lost)
    ensures LossySlice(fs, ip, pos, a, lost) + LossySlice(fs, ip, pos + a, b, more) == LossySlice(fs, ip, pos, a + b, lost + more)
  {
    var l, r := LossySlice(fs, ip, pos, a, lost) + LossySlice(fs, ip, pos + a, b, more), LossySlice(fs, ip, pos, a + b, lost + more);
    forall i: nat | i < a + b ensures l[i] == r[i] {
      var o := pos + i;
      assert o / fs.bs == (pos + i) / fs.bs;
      LossyAt(fs, ip, pos, a + b, lost + more, i);
      if i < a {
        LossyAt(fs, ip, pos, a, lost, i);
      } else {
        LossyAt(fs, ip, pos + a, b, more, i - a);
        assert pos + a + (i - a) == o;
      }
    }
  }

  /** Blocks of earlier bytes come earlier. */
  lemma BlockBelow(o: nat, q: nat, bs: nat)
    requires bs > 0
    ensures o / bs < q <==> o < q * bs
  {
    var d := o / bs;
    assert o == d * bs + o % bs;
    if d < q {
      MulMono(d + 1, q, bs);
    } else {
      MulMono(q, d, bs);
    }
  }

  lemma PieceRead(fs: Fs, ip: Inode, pos0: nat, pos: nat, count: nat, out: seq<byte>, lost: set<nat>, piece: seq<byte>, more: set<nat>,
                  blind: bool)
    requires FsOk(fs) && |ip.block| == N_BLOCKS && ReadUpTo(fs, ip, pos0, pos, count, out, lost, blind)
    requires IsPiece(fs, ip, pos, count, piece, more) && MayBeLost(more) && (blind ==> piece == Zeros(|piece|))
    ensures ReadUpTo(fs, ip, pos0, pos + |piece|, count - |piece|, out + piece, lost + more, blind) && |lost + more| <= |lost| + |more|
  {
    var q := pos / fs.bs;
    SizeOfUnion(lost, more);
    forall o: nat {:trigger o / fs.bs} | pos0 <= o < pos ensures o / fs.bs !in more {
      BlockBelow(o, q, fs.bs);
    }
    forall o: nat {:trigger o / fs.bs} | pos <= o < pos + |piece| ensures o / fs.bs !in lost {
      BlockBelow(o, q, fs.bs);
    }
    LossyJoin(fs, ip, pos0, |out|, |piece|, lost, more);
    if |piece| < count {
      DivUnique(pos + |piece|, fs.bs, q + 1, 0);
    }
  }

  /** Two reads in a row give what one read of both lengths would. */
  lemma SlicesJoin(fs: Fs, ip: Inode, pos: nat, a: nat, b: nat)
    requires FsOk(fs) && |ip.block| == N_BLOCKS
    ensures Slice(fs, ip, pos, a) + Slice(fs, ip, pos + a, b) == Slice(fs, ip, pos, a + b)
  {
    var l, r := Slice(fs, ip, pos, a) + Slice(fs, ip, pos + a, b), Slice(fs, ip, pos, a + b);
    forall i | 0 <= i < a + b ensures l[i] == r[i] {
      assert i >= a ==> pos + a + (i - a) == pos + i;
    }
  }

  lemma DirBlockInFile(size: nat, bs: nat, k: nat)
    requires bs > 0 && k * bs < size
    ensures k <= size / bs
  {
    var q := size / bs;
    assert size == bs * q + size % bs;
    if k > q {
      MulMono(q + 1, k, bs);
    }
  }

  lemma NextBlock(k: nat, bs: nat)
    requires bs > 0
    ensures (k + 1) * bs == k * bs + bs
  {
  }

  /** The number of the block that starts at an offset, `k` in the end. */
  method BlockNumber(offset: nat, bs: nat, ghost k: nat) returns (number: nat)
    requires bs > 0 && offset == k * bs
    ensures number == k
  {
    DivUnique(offset, bs, k, 0);
    number := offset / bs;
  }

  /** The search has come to the record at `at` of block `k` without finding the name. */
  ghost predicate Here(vol: Volume, ip: Inode, k: nat, at: nat, key: Key)
    requires VolumeOk(vol) && |ip.block| == N_BLOCKS && BlocksOk(vol, ip)
  {
    && k < BlockCount(ip.size, vol.fs.bs) && NotBefore(vol, ip, k, at, key)
    && Lookup(vol, ip, key) == FindFrom(vol, ip, k, key) && LastRead(vol, ip, 0, key) == LastRead(vol, ip, k, key)
  }

  lemma HereStart(vol: Volume, ip: Inode, key: Key)
    requires VolumeOk(vol) && |ip.block| == N_BLOCKS && BlocksOk(vol, ip)
    ensures Here(vol, ip, 0, 0, key)
  {
    NotBeforeStart(vol, ip, 0, key);
  }

  /** A record that does not match leaves the search to the next one, in this block or in the next. */
  lemma HereOn(vol: Volume, ip: Inode, k: nat, at: nat, key: Key)
    requires VolumeOk(vol) && |ip.block| == N_BLOCKS && BlocksOk(vol, ip)
    requires Here(vol, ip, k, at, key) && at < vol.fs.bs && !Matches(FileBlock(vol.fs, ip, k), at, key)
    ensures var at' := at + RecLen(FileBlock(vol.fs, ip, k), at);
            && at < at' <= vol.fs.bs && (at' < vol.fs.bs ==> Here(vol, ip, k, at', key))
            && (at' == vol.fs.bs && k + 1 >= BlockCount(ip.size, vol.fs.bs) ==> Lookup(vol, ip, key) == None)
            && (at' == vol.fs.bs && k + 1 < BlockCount(ip.size, vol.fs.bs) ==>
                  Here(vol, ip, k + 1, 0, key) && (k + 1 > DIRECT_LIM ==> !FoundDirectly(vol, ip, key)))
  {
    NotBeforeNext(vol, ip, k, at, key);
    if at + RecLen(FileBlock(vol.fs, ip, k), at) == vol.fs.bs {
      FindFromNext(vol, ip, k, key);
      if k + 1 < BlockCount(ip.size, vol.fs.bs) {
        LastReadNext(vol, ip, k, key);
        NotBeforeStart(vol, ip, k + 1, key);
      }
    }
  }

  // ----- the search and its model

  /** The search has come to record `at` of block `k`; the block is lost or as it is on the disk. */
  ghost predicate TrailAt(vol: Volume, ip: Inode, key: Key, tr: Trail, k: nat, at: nat, lost: bool, faulty: bool)
    requires VolumeOk(vol) && |ip.block| == N_BLOCKS && BlocksOk(vol, ip)
  {
    OnTrail(vol, ip, key, tr, Before(k, at), faulty) && tr.seen[k] == if lost then Lost else Good
  }

  /** A match ends the search, and leaves the block in the buffer in which the name is found. */
  lemma Match(vol: Volume, ip: Inode, key: Key, tr: Trail, k: nat, at: nat, lost: bool, blk: seq<byte>, faulty: bool)
    requires VolumeOk(vol) && |ip.block| == N_BLOCKS && BlocksOk(vol, ip) && TrailAt(vol, ip, key, tr, k, at, lost, faulty)
    requires blk == if lost then Zeros(vol.fs.bs) else FileBlock(vol.fs, ip, k)
    requires if lost then at == 0 else at < vol.fs.bs && Here(vol, ip, k, at, key)
    requires at + 8 <= |blk| && at + 8 + blk[at + 6] as int <= |blk| && Matches(blk, at, key)
    ensures OnTrail(vol, ip, key, tr.(turns := tr.turns + 1), Ended(Le32(blk, at)), faulty)
    ensures lost ==> Le32(blk, at) == 0
    ensures !lost ==> Lookup(vol, ip, key) == Some(Le32(blk, at)) && blk == BufferAfter(vol, ip, key)
  {
    TrailFound(vol, ip, key, tr, k, at, blk, faulty);
  }

  /** The trail after one more turn, which may have read block `k'` with result `f`. */
  function Next(tr: Trail, k: nat, k': nat, f: Fate, size: nat, bs: nat): Trail
    requires bs > 0
  {
    Trail(tr.seen + if k' == k then [] else if k + 1 < BlockCount(size, bs) then [f] else [Good], tr.turns + 1)
  }

  /** What is known once ext2_readdiri has gone on from a record that does not match. */
  lemma RecordLeft(vol: Volume, ip: Inode, key: Key, tr: Trail, k: nat, at: nat, found: bool, k': nat, at': nat, lost: bool,
                   faulty: bool, now: bool, faulty': bool)
    requires VolumeOk(vol) && |ip.block| == N_BLOCKS && BlocksOk(vol, ip) && TrailAt(vol, ip, key, tr, k, at, false, faulty)
    requires at < vol.fs.bs && Here(vol, ip, k, at, key) && !Matches(FileBlock(vol.fs, ip, k), at, key) && (faulty || now ==> faulty')
    requires StepsTo(vol, ip, k, at, found, k', at', lost, now)
    ensures var f := if !found then Unread else if lost then Lost else Good;
            var tr' := Next(tr, k, if found then k' else k + 1, f, ip.size, vol.fs.bs);
            if found then TrailAt(vol, ip, key, tr', k', at', lost, faulty') else OnTrail(vol, ip, key, tr', Ended(-1), faulty')
    ensures found && !lost ==> Here(vol, ip, k', at', key) && (k' == k + 1 || (k' == k && at' > at))
    ensures lost ==> !FoundDirectly(vol, ip, key)
    ensures !found && !now ==> Lookup(vol, ip, key) == None
  {
    HereOn(vol, ip, k, at, key);
    TrailNext(vol, ip, key, tr, k, at, found, k', at', lost, faulty, now, faulty');
  }

  /** Where ext2_readdiri goes from record `at` of block `k`; `now` is whether a transfer fails meanwhile. */
  ghost predicate StepsTo(vol: Volume, ip: Inode, k: nat, at: nat, found: bool, k': nat, at': nat, lost: bool, now: bool)
    requires VolumeOk(vol) && |ip.block| == N_BLOCKS && at + 8 <= vol.fs.bs
  {
    var end := at + RecLen(FileBlock(vol.fs, ip, k), at);
    && (lost ==> found && k' == k + 1 > DIRECT_LIM && now)
    && (found ==> (k' == k && at' == end < vol.fs.bs) ||
                  (k' == k + 1 && at' == 0 && end == vol.fs.bs && k' < BlockCount(ip.size, vol.fs.bs)))
    && (!found ==> end == vol.fs.bs && (k + 1 < BlockCount(ip.size, vol.fs.bs) ==> now))
  }

  lemma TrailNext(vol: Volume, ip: Inode, key: Key, tr: Trail, k: nat, at: nat, found: bool, k': nat, at': nat, lost: bool,
                  faulty: bool, now: bool, faulty': bool)
    requires VolumeOk(vol) && |ip.block| == N_BLOCKS && BlocksOk(vol, ip) && TrailAt(vol, ip, key, tr, k, at, false, faulty)
    requires at < vol.fs.bs && Here(vol, ip, k, at, key) && !Matches(FileBlock(vol.fs, ip, k), at, key) && (faulty || now ==> faulty')
    requires StepsTo(vol, ip, k, at, found, k', at', lost, now)
    ensures var f := if !found then Unread else if lost then Lost else Good;
            var tr' := Next(tr, k, if found then k' else k + 1, f, ip.size, vol.fs.bs);
            if found then TrailAt(vol, ip, key, tr', k', at', lost, faulty') else OnTrail(vol, ip, key, tr', Ended(-1), faulty')
  {
    var f := if !found then Unread else if lost then Lost else Good;
    if found && k' == k {
      TrailOn(vol, ip, key, tr, k, at, faulty);
      TrailFaulty(vol, ip, key, tr.(turns := tr.turns + 1), Before(k, at'), faulty, faulty');
      assert tr.seen + [] == tr.seen;
    } else {
      var g := if k + 1 < BlockCount(ip.size, vol.fs.bs) then f else Good;
      TrailToBlock(vol, ip, key, tr, k, at, g, faulty, faulty');
      assert (tr.seen + [g])[k + 1] == g;
      assert found ==> g == f && Entered(k + 1, f) == Before(k', at');
      assert !found && k + 1 < BlockCount(ip.size, vol.fs.bs) ==> Entered(k + 1, g) == Ended(-1);
    }
  }

  lemma TrailFaulty(vol: Volume, ip: Inode, key: Key, tr: Trail, s: Search, faulty: bool, faulty': bool)
    requires VolumeOk(vol) && |ip.block| == N_BLOCKS && BlocksOk(vol, ip) && OnTrail(vol, ip, key, tr, s, faulty) && (faulty ==> faulty')
    ensures OnTrail(vol, ip, key, tr, s, faulty')
  {
  }
}
