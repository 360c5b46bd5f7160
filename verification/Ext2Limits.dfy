/**
  Inputs on which looking up names goes wrong: a directory that is searched for ever once its drive fails,
  and links that are stored in a block.
 */
module Ext2Limits {
  import opened Bytes
  import opened Ext2Blocks
  import opened Ext2Layout
  import opened Ext2Names
  import opened Words

  // ----- a search without end

  /** Block 1 is one record, inode 2 by the name of "x"; block 2 starts with the number 1. */
  function DirImage(): (r: seq<byte>)
    ensures |r| == 3 * 1024
  {
    seq<byte>(3 * 1024, i =>
      if i == 1024 then 2 else if i == 1029 then 4 else if i == 1030 then 1 else if i == 1032 then 120 else if i == 2048 then 1 else 0)
  }

  /** Eight inodes in block 0. */
  function DirVolume(): Volume {
    Volume(Fs(DirImage(), 1024), [0], 8, 128)
  }

  /** A directory of 13 blocks, all of them block 1; the last one hangs on block 2. */
  function Dir(): Inode {
    Inode(0x4000, 13 * 1024, 26, seq(NDIR_BLOCKS, i => 1) + [2, 0, 0])
  }

  const ABSENT: Key := Name([121])

  lemma DirVolumeOk()
    ensures VolumeOk(DirVolume())
  {
    var vol := DirVolume();
    forall ino: nat | Known(vol, ino) ensures InodeOk(vol, ino) {
      assert (ino - 1) / 8 == 0;
    }
  }

  lemma RecordBlock()
    ensures var vol, blk := DirVolume(), BlockAt(DirVolume().fs, 1);
            RecordsOk(vol, blk, 0) && FindIn(vol, blk, 0, ABSENT) == None
  {
    var vol, blk := DirVolume(), BlockAt(DirVolume().fs, 1);
    assert forall j :: 0 <= j < 1024 ==> blk[j] == vol.fs.image[1024 + j];
    assert RecLen(blk, 0) == 1024 && Le32(blk, 0) == 2 && blk[6] == 1;
    assert RecordsOk(vol, blk, 1024);
    assert blk[8..9][0] == 120;
  }

  lemma ListedBlock(i: nat)
    requires i < 256
    ensures FsOk(DirVolume().fs) && Entry(DirVolume().fs, 2, i) == if i == 0 then 1 else 0
  {
    var fs := DirVolume().fs;
    var blk := BlockAt(fs, 2);
    assert forall j :: 0 <= j < 1024 ==> blk[j] == fs.image[2048 + j];
  }

  lemma DirBlock(k: nat)
    requires k < 13
    ensures FsOk(DirVolume().fs) && Walk(DirVolume().fs, Dir(), k) == 1
  {
    ListedBlock(0);
  }

  lemma DirBlocksOk()
    ensures VolumeOk(DirVolume()) && PointersOk(DirVolume().fs, Dir()) && BlocksOk(DirVolume(), Dir())
    ensures BlockCount(Dir().size, 1024) == 13
  {
    var vol, ip := DirVolume(), Dir();
    DirVolumeOk();
    forall off: nat ensures SmallAt(vol.fs, ip, off) {
      if DIRECT_LIM < off <= Ind1Lim(1024) {
        ListedBlock(off - 12);
      }
    }
    RecordBlock();
    forall k: nat | k < 13 ensures BlockOk(vol, ip, k) {
      DirBlock(k);
    }
  }

  lemma {:induction false} ReadsToEnd(k: nat)
    requires k < 13
    ensures VolumeOk(DirVolume()) && BlocksOk(DirVolume(), Dir()) && BlockCount(Dir().size, 1024) == 13
    ensures LastRead(DirVolume(), Dir(), k, ABSENT) == 12
    decreases 13 - k
  {
    DirBlocksOk();
    DirBlock(k);
    RecordBlock();
    if k < 12 {
      ReadsToEnd(k + 1);
    }
  }

  /** With its indirect block lost, the search of this directory for a name that it does not hold never ends. */
  lemma NeverEnds(n: nat)
    ensures VolumeOk(DirVolume()) && BlocksOk(DirVolume(), Dir()) && PointersOk(DirVolume().fs, Dir())
    ensures Possible(AllLost()) && Walked(DirVolume(), Dir(), AllLost(), ABSENT, n).Before?
  {
    var vol, ip := DirVolume(), Dir();
    DirBlocksOk();
    ReadsToEnd(0);
    NotBeforeStart(vol, ip, 0, ABSENT);
    EnterOk(vol, ip, AllLost(), 0);
    StuckForever(vol, ip, ABSENT, Enter(AllLost(), 0), n);
  }

  // ----- links in a block

  /** From record `at` on, no name in the block holds a zero. */
  predicate NamesProper(vol: Volume, blk: seq<byte>, at: nat)
    requires vol.perGroup > 0 && RecordsOk(vol, blk, at)
    decreases |blk| - at
  {
    at == |blk| || (0 !in blk[at + 8..at + 8 + blk[at + 6] as int] && NamesProper(vol, blk, at + RecLen(blk, at)))
  }

  lemma {:induction false} SameIsEqual(a: seq<byte>, b: seq<byte>)
    requires |a| == |b| && 0 !in b
    ensures SameUpToZero(a, b) <==> a == b
    decreases |a|
  {
    if a != [] {
      SameIsEqual(a[1..], b[1..]);
      assert a == [a[0]] + a[1..] && b == [b[0]] + b[1..];
      assert b[0] != 0;
    }
  }

  lemma OwnMatch(blk: seq<byte>, at: nat, key: Key, own: String)
    requires at + 8 <= |blk| && at + 8 + blk[at + 6] as int <= |blk| && 0 !in blk[at + 8..at + 8 + blk[at + 6] as int]
    requires key.Buffered? && KeyFits(key, |blk|) && own == blk[key.off..key.off + key.len]
    ensures Matches(blk, at, key) <==> Matches(blk, at, Name(own))
  {
    if blk[at + 6] as int == key.len {
      SameIsEqual(own, blk[at + 8..at + 8 + key.len]);
    }
  }

  /** A component in the buffer is compared as what the directory block holds in its place, whatever it was. */
  lemma {:induction false} OwnBytes(vol: Volume, blk: seq<byte>, at: nat, key: Key)
    requires vol.perGroup > 0 && RecordsOk(vol, blk, at) && NamesProper(vol, blk, at) && key.Buffered? && KeyFits(key, |blk|)
    ensures FindIn(vol, blk, at, key) == FindIn(vol, blk, at, Name(blk[key.off..key.off + key.len]))
    decreases |blk| - at
  {
    if at < |blk| {
      OwnMatch(blk, at, key, blk[key.off..key.off + key.len]);
      OwnBytes(vol, blk, at + RecLen(blk, at), key);
    }
  }

  /** No proper name has a zero in it. */
  lemma {:induction false} NoSuchName(vol: Volume, blk: seq<byte>, at: nat, name: String)
    requires vol.perGroup > 0 && RecordsOk(vol, blk, at) && NamesProper(vol, blk, at) && 0 in name
    ensures FindIn(vol, blk, at, Name(name)) == None
    decreases |blk| - at
  {
    if at < |blk| {
      NoSuchName(vol, blk, at + RecLen(blk, at), name);
    }
  }

  /** The bytes of block `k` in the place of the component hold a zero, and its names do not. */
  ghost predicate Overwritten(vol: Volume, ip: Inode, k: nat, key: Key)
    requires VolumeOk(vol) && |ip.block| == N_BLOCKS && BlocksOk(vol, ip) && k < BlockCount(ip.size, vol.fs.bs)
    requires key.Buffered? && KeyFits(key, vol.fs.bs)
  {
    var blk := FileBlock(vol.fs, ip, k);
    0 in blk[key.off..key.off + key.len] && RecordsOk(vol, blk, 0) && NamesProper(vol, blk, 0)
  }

  lemma {:induction false} NoneFrom(vol: Volume, ip: Inode, k: nat, key: Key)
    requires VolumeOk(vol) && |ip.block| == N_BLOCKS && BlocksOk(vol, ip) && key.Buffered? && KeyFits(key, vol.fs.bs)
    requires forall j: nat {:trigger Overwritten(vol, ip, j, key)} :: j < BlockCount(ip.size, vol.fs.bs) ==> Overwritten(vol, ip, j, key)
    ensures FindFrom(vol, ip, k, key) == None
    decreases BlockCount(ip.size, vol.fs.bs) - k
  {
    if k < BlockCount(ip.size, vol.fs.bs) {
      assert Overwritten(vol, ip, k, key);
      var blk := FileBlock(vol.fs, ip, k);
      OwnBytes(vol, blk, 0, key);
      NoSuchName(vol, blk, 0, blk[key.off..key.off + key.len]);
      NoneFrom(vol, ip, k + 1, key);
      FindFromNext(vol, ip, k, key);
    }
  }

  /** Block `k` of the root starts with the record of an inode whose number has a zero for its second byte. */
  ghost predicate LowFirst(vol: Volume, ip: Inode, k: nat)
    requires VolumeOk(vol) && |ip.block| == N_BLOCKS && BlocksOk(vol, ip) && k < BlockCount(ip.size, vol.fs.bs)
  {
    var blk := FileBlock(vol.fs, ip, k);
    RecordsOk(vol, blk, 0) && NamesProper(vol, blk, 0) && Le32(blk, 0) / 256 % 256 == 0
  }

  /** The component starts at the first character, or at the second behind a separator. */
  lemma FirstComponent(blk: seq<byte>)
    ensures BufferedKey(blk, 0).off <= 1
  {
  }

  lemma SecondByte(blk: seq<byte>, key: Key)
    requires |blk| >= 4 && key.Buffered? && KeyFits(key, |blk|) && key.off <= 1 && key.len > 0 && key.off + key.len >= 2
    requires Le32(blk, 0) / 256 % 256 == 0
    ensures 0 in blk[key.off..key.off + key.len]
  {
    assert blk[1] == 0;
    assert blk[key.off..key.off + key.len][1 - key.off] == blk[1];
  }

  /**
    A link that is stored in a block leads nowhere, whatever its text names, if the blocks of the root start with low
    inode numbers: by the time the first component is compared, the root has been read over it. Only a relative link
    whose first component is a single character, or an empty component, could fare otherwise.
   */
  lemma LongLinkLost(vol: Volume, ino: nat)
    requires VolumeOk(vol) && Known(vol, ROOT_INO) && Known(vol, ino) && InodeOf(vol, ino).blocks != 0
    requires BlocksOk(vol, InodeOf(vol, ROOT_INO))
    requires forall k: nat {:trigger LowFirst(vol, InodeOf(vol, ROOT_INO), k)} ::
               k < BlockCount(InodeOf(vol, ROOT_INO).size, vol.fs.bs) ==> LowFirst(vol, InodeOf(vol, ROOT_INO), k)
    requires var key := BufferedKey(FileBlock(vol.fs, InodeOf(vol, ino), 0), 0); key.len > 0 && key.off + key.len >= 2
    ensures Target(vol, ino) == None
  {
    var root, blk := InodeOf(vol, ROOT_INO), FileBlock(vol.fs, InodeOf(vol, ino), 0);
    var key := BufferedKey(blk, 0);
    FirstComponent(blk);
    forall k: nat | k < BlockCount(root.size, vol.fs.bs) ensures Overwritten(vol, root, k, key) {
      assert LowFirst(vol, root, k);
      SecondByte(FileBlock(vol.fs, root, k), key);
    }
    NoneFrom(vol, root, 0, key);
    LongTarget(vol, ino, true);
  }
}
