/**
  Names on an ext2 file system: the tokeniser, inodes and directories as they are on the disk, and
  the inode that a path names.
 */
module Ext2Names {
  import opened Bytes
  import opened Ext2Blocks
  import opened Ext2Layout
  import opened Words

  datatype Option<T> = None | Some(value: T)

  type String = seq<byte>

  const SLASH: byte := 47

  // ----- strtok_simple and strrchr

  /** The first separator, or the end. */
  function Slash(s: String): (k: nat)
    ensures k <= |s| && SLASH !in s[..k] && (k < |s| ==> s[k] == SLASH)
  {
    if s == [] || s[0] == SLASH then 0 else 1 + Slash(s[1..])
  }

  function SkipSlash(s: String): String {
    if s != [] && s[0] == SLASH then s[1..] else s
  }

  /** The next component. */
  function Component(s: String): String {
    SkipSlash(s)[..Slash(SkipSlash(s))]
  }

  /** What the tokeniser keeps for the next call; None stands for its null pointer. */
  function Remainder(s: String): (r: Option<String>)
    ensures r.Some? ==> |r.value| < |s|
  {
    var t := SkipSlash(s);
    var k := Slash(t);
    if k < |t| then Some(t[k + 1..]) else None
  }

  /** The components of a path; there is always at least one. */
  function Components(s: String): (r: seq<String>)
    ensures |r| >= 1
    decreases |s|
  {
    [Component(s)] + if Remainder(s).Some? then Components(Remainder(s).value) else []
  }

  /** What a buffer still reads as, once the tokeniser has put an end mark on the first separator. */
  function Truncated(s: String): String {
    s[..|s| - |SkipSlash(s)| + Slash(SkipSlash(s))]
  }

  /** strrchr for the separator: the search stops short of the first character. */
  function LastSlash(s: String): Option<nat> {
    if |s| <= 1 then None
    else if s[|s| - 1] == SLASH then Some(|s| - 1)
    else LastSlash(s[..|s| - 1])
  }

  lemma {:induction false} LastSlashIs(s: String)
    ensures LastSlash(s).None? <==> forall i :: 1 <= i < |s| ==> s[i] != SLASH
    ensures LastSlash(s).Some? ==> 1 <= LastSlash(s).value < |s| && s[LastSlash(s).value] == SLASH
    decreases |s|
  {
    if |s| > 1 && s[|s| - 1] != SLASH {
      LastSlashIs(s[..|s| - 1]);
      assert forall i :: 1 <= i < |s| - 1 ==> s[..|s| - 1][i] == s[i];
    }
  }

  /** Once a path has been tokenised, no directory part is left of it: relative links start at the root. */
  lemma DirectoryPartLost(s: String)
    ensures LastSlash(Truncated(s)).None?
  {
    var t := SkipSlash(s);
    var k := Slash(t);
    var lead := |s| - |t|;
    LastSlashIs(Truncated(s));
    forall i | 1 <= i < |Truncated(s)| ensures Truncated(s)[i] != SLASH {
      assert s[i] == t[i - lead] == t[..k][i - lead];
    }
  }

  // ----- inodes on the disk

  datatype Volume = Volume(fs: Fs, tables: seq<nat>, perGroup: nat, inodeSize: nat)

  predicate Known(vol: Volume, ino: nat)
    requires vol.perGroup > 0
  {
    1 <= ino < 0x8000_0000 && (ino - 1) / vol.perGroup < |vol.tables|
  }

  function InodeOffset(vol: Volume, ino: nat): nat
    requires vol.perGroup > 0 && Known(vol, ino)
  {
    vol.tables[(ino - 1) / vol.perGroup] * vol.fs.bs + (ino - 1) % vol.perGroup * vol.inodeSize
  }

  function ParseInode(raw: seq<byte>): (ip: Inode)
    requires |raw| == 128
    ensures |ip.block| == N_BLOCKS
  {
    Inode(Le16(raw, 0), Le32(raw, 4), Le32(raw, 28), seq(N_BLOCKS, i requires 0 <= i < N_BLOCKS => Le32(raw, 40 + 4 * i)))
  }

  function InodeOf(vol: Volume, ino: nat): (ip: Inode)
    requires vol.perGroup > 0 && Known(vol, ino)
    ensures |ip.block| == N_BLOCKS
  {
    var o := InodeOffset(vol, ino);
    if o + 128 <= |vol.fs.image| then ParseInode(vol.fs.image[o..o + 128]) else Inode(0, 0, 0, seq(N_BLOCKS, i => 0))
  }

  ghost predicate InodeOk(vol: Volume, ino: nat)
    requires vol.perGroup > 0 && Known(vol, ino)
  {
    InodeOffset(vol, ino) + 128 <= |vol.fs.image|
  }

  /** The group descriptors are in order, and the inode tables lie inside the partition. */
  ghost predicate VolumeOk(vol: Volume) {
    && FsOk(vol.fs) && vol.perGroup > 0 && vol.inodeSize >= 128 && vol.inodeSize % 128 == 0
    && forall ino: nat {:trigger InodeOk(vol, ino)} :: Known(vol, ino) ==> InodeOk(vol, ino)
  }

  /** Inodes start on 128-byte boundaries, so that none crosses a sector. */
  lemma InodeAligned(vol: Volume, ino: nat)
    requires VolumeOk(vol) && Known(vol, ino)
    ensures InodeOffset(vol, ino) % 128 == 0
  {
    var t, r := vol.tables[(ino - 1) / vol.perGroup], (ino - 1) % vol.perGroup;
    Multiple128(t, vol.fs.bs);
    Multiple128(r, vol.inodeSize);
  }

  lemma Multiple128(a: nat, b: nat)
    requires b % 128 == 0
    ensures a * b % 128 == 0
  {
    var q := b / 128;
    assert a * b == 128 * (a * q);
  }

  /** S_ISLNK */
  predicate IsLink(ip: Inode) {
    ip.mode / 0x1000 % 16 == 0xA
  }

  function CString(s: seq<byte>): String {
    if s == [] || s[0] == 0 then [] else [s[0]] + CString(s[1..])
  }

  function WordBytes(w: nat): seq<byte> {
    [w % 256, w / 0x100 % 256, w / 0x1_0000 % 256, w / 0x100_0000 % 256]
  }

  function AllBytes(ws: seq<nat>): seq<byte> {
    if ws == [] then [] else WordBytes(ws[0]) + AllBytes(ws[1..])
  }

  /** The text of a link that is stored in its inode. */
  function LinkText(ip: Inode): String {
    CString(AllBytes(ip.block))
  }

  // ----- directories

  function RecLen(blk: seq<byte>, at: nat): nat
    requires at + 8 <= |blk|
  {
    Le16(blk, at + 4)
  }

  /** The inode number of a record: that of an inode, or 0 in a record that is not in use. */
  predicate Numbered(vol: Volume, ino: nat)
    requires vol.perGroup > 0
  {
    ino == 0 || Known(vol, ino)
  }

  /** A directory record starts at `at`. */
  predicate RecordOk(vol: Volume, blk: seq<byte>, at: nat)
    requires vol.perGroup > 0
  {
    && at + 8 <= |blk| && RecLen(blk, at) >= 8 && at + RecLen(blk, at) <= |blk|
    && at + 8 + blk[at + 6] as int <= |blk| && Numbered(vol, Le32(blk, at))
  }

  /** Records tile the block from `at` on. */
  predicate RecordsOk(vol: Volume, blk: seq<byte>, at: nat)
    requires vol.perGroup > 0
    decreases |blk| - at
  {
    at == |blk| || (RecordOk(vol, blk, at) && RecordsOk(vol, blk, at + RecLen(blk, at)))
  }

  /**
    What names are compared with: a component in a buffer of its own, or `len` bytes of the block buffer from
    `off` on, whatever they are by then.
   */
  datatype Key = Name(name: String) | Buffered(off: nat, len: nat)

  function KeyLength(key: Key): nat {
    match key
    case Name(name) => |name|
    case Buffered(_, len) => len
  }

  predicate KeyFits(key: Key, bs: nat) {
    key.Buffered? ==> key.off + key.len <= bs
  }

  /** strncmp for strings of one length: what comes behind a zero does not count. */
  predicate SameUpToZero(a: seq<byte>, b: seq<byte>)
    requires |a| == |b|
  {
    a == [] || (a[0] == b[0] && (a[0] == 0 || SameUpToZero(a[1..], b[1..])))
  }

  predicate Matches(blk: seq<byte>, at: nat, key: Key)
    requires at + 8 <= |blk| && at + 8 + blk[at + 6] as int <= |blk|
  {
    && blk[at + 6] as int == KeyLength(key)
    && match key
       case Name(name) => blk[at + 8..at + 8 + |name|] == name
       case Buffered(off, len) => off + len <= |blk| && SameUpToZero(blk[off..off + len], blk[at + 8..at + 8 + len])
  }

  /** The first record from `at` on that has the name. */
  function FindIn(vol: Volume, blk: seq<byte>, at: nat, key: Key): (r: Option<nat>)
    requires vol.perGroup > 0 && RecordsOk(vol, blk, at)
    ensures r.Some? ==> Numbered(vol, r.value)
    decreases |blk| - at
  {
    if at == |blk| then None
    else if Matches(blk, at, key) then Some(Le32(blk, at))
    else FindIn(vol, blk, at + RecLen(blk, at), key)
  }

  /** The number of blocks that a file of `size` bytes takes. */
  function BlockCount(size: nat, bs: nat): nat
    requires bs > 0
  {
    (size + bs - 1) / bs
  }

  lemma BlockCountIs(size: nat, bs: nat, k: nat)
    requires bs > 0
    ensures k < BlockCount(size, bs) <==> k * bs < size
  {
    var q, r := BlockCount(size, bs), (size + bs - 1) % bs;
    assert size + bs - 1 == q * bs + r;
    if k < q {
      MulMono(k + 1, q, bs);
    } else {
      MulMono(q, k, bs);
    }
  }

  /** All blocks of a directory hold records. */
  ghost predicate BlocksOk(vol: Volume, ip: Inode)
    requires VolumeOk(vol) && |ip.block| == N_BLOCKS
  {
    BlockCount(ip.size, vol.fs.bs) > 0 && forall k: nat {:trigger BlockOk(vol, ip, k)} :: k < BlockCount(ip.size, vol.fs.bs) ==> BlockOk(vol, ip, k)
  }

  ghost predicate BlockOk(vol: Volume, ip: Inode, k: nat)
    requires VolumeOk(vol) && |ip.block| == N_BLOCKS
  {
    RecordsOk(vol, FileBlock(vol.fs, ip, k), 0) && BlockReadable(vol.fs, ip, k)
  }

  /** What block `k` of a directory gives for a name. */
  ghost function FindAt(vol: Volume, ip: Inode, k: nat, key: Key): (r: Option<nat>)
    requires VolumeOk(vol) && |ip.block| == N_BLOCKS && BlocksOk(vol, ip) && k < BlockCount(ip.size, vol.fs.bs)
    ensures r.Some? ==> Numbered(vol, r.value)
  {
    assert BlockOk(vol, ip, k);
    FindIn(vol, FileBlock(vol.fs, ip, k), 0, key)
  }

  /** The inode that a directory gives for a name, looking from block `k` on. */
  ghost function FindFrom(vol: Volume, ip: Inode, k: nat, key: Key): (r: Option<nat>)
    requires VolumeOk(vol) && |ip.block| == N_BLOCKS && BlocksOk(vol, ip)
    ensures r.Some? ==> Numbered(vol, r.value)
    decreases BlockCount(ip.size, vol.fs.bs) - k
  {
    if k >= BlockCount(ip.size, vol.fs.bs) then None
    else if FindAt(vol, ip, k, key).Some? then FindAt(vol, ip, k, key)
    else FindFrom(vol, ip, k + 1, key)
  }

  /** The last block that the search for a name reads, from block `k` on. */
  ghost function LastRead(vol: Volume, ip: Inode, k: nat, key: Key): (last: nat)
    requires VolumeOk(vol) && |ip.block| == N_BLOCKS && BlocksOk(vol, ip) && k < BlockCount(ip.size, vol.fs.bs)
    ensures k <= last
    decreases BlockCount(ip.size, vol.fs.bs) - k
  {
    if FindAt(vol, ip, k, key).Some? then k else
      if k + 1 >= BlockCount(ip.size, vol.fs.bs) then k else LastRead(vol, ip, k + 1, key)
  }

  /** The search for the name does not depend on an indirect block. */
  ghost predicate FoundDirectly(vol: Volume, ip: Inode, key: Key)
    requires VolumeOk(vol) && |ip.block| == N_BLOCKS && BlocksOk(vol, ip)
  {
    LastRead(vol, ip, 0, key) <= DIRECT_LIM
  }

  /** A directory in which the search for the name ends; see `SearchEnds`. */
  ghost predicate Searchable(vol: Volume, ip: Inode, key: Key, reliable: bool)
    requires VolumeOk(vol) && |ip.block| == N_BLOCKS
  {
    PointersOk(vol.fs, ip) && BlocksOk(vol, ip) && (reliable || KeyLength(key) == 0 || FoundDirectly(vol, ip, key))
  }

  // ----- a search on a drive that fails

  /** What becomes of a block: a lost one has come as zeros because of a failed read of an indirect block. */
  datatype Fate = Good | Unread | Lost

  ghost predicate Possible(fate: nat -> Fate) {
    forall k: nat :: fate(k) == Lost ==> k > DIRECT_LIM
  }

  datatype Search = Before(k: nat, at: nat) | Ended(ino: int)

  ghost function SeenBlock(vol: Volume, ip: Inode, fate: nat -> Fate, k: nat): (r: seq<byte>)
    requires VolumeOk(vol) && |ip.block| == N_BLOCKS
    ensures |r| == vol.fs.bs
  {
    if fate(k) == Lost then Zeros(vol.fs.bs) else FileBlock(vol.fs, ip, k)
  }

  /** Where a search can be: before a record of a block of the directory. */
  ghost predicate OnRecord(vol: Volume, ip: Inode, fate: nat -> Fate, s: Search)
    requires VolumeOk(vol) && |ip.block| == N_BLOCKS
  {
    s.Before? ==>
      && s.k < BlockCount(ip.size, vol.fs.bs) && s.at < vol.fs.bs
      && if fate(s.k) == Lost then s.at == 0 else RecordsOk(vol, FileBlock(vol.fs, ip, s.k), s.at)
  }

  ghost function Enter(fate: nat -> Fate, k: nat): Search {
    if fate(k) == Unread then Ended(-1) else Before(k, 0)
  }

  lemma EnterOk(vol: Volume, ip: Inode, fate: nat -> Fate, k: nat)
    requires VolumeOk(vol) && |ip.block| == N_BLOCKS && BlocksOk(vol, ip) && k < BlockCount(ip.size, vol.fs.bs)
    ensures OnRecord(vol, ip, fate, Enter(fate, k))
  {
    assert BlockOk(vol, ip, k);
  }

  /** One turn of the loop of ext2_namei: a match, the next record, the next block, or the end. */
  ghost function Turn(vol: Volume, ip: Inode, fate: nat -> Fate, key: Key, s: Search): (s': Search)
    requires VolumeOk(vol) && |ip.block| == N_BLOCKS && BlocksOk(vol, ip) && OnRecord(vol, ip, fate, s)
    ensures OnRecord(vol, ip, fate, s')
  {
    if s.Ended? then s else
      var blk := SeenBlock(vol, ip, fate, s.k);
      if Matches(blk, s.at, key) then Ended(Le32(blk, s.at))
      else if s.at + RecLen(blk, s.at) < vol.fs.bs then Before(s.k, s.at + RecLen(blk, s.at))
      else if s.k + 1 >= BlockCount(ip.size, vol.fs.bs) then Ended(-1)
      else EnterOk(vol, ip, fate, s.k + 1); Enter(fate, s.k + 1)
  }

  ghost function Turns(vol: Volume, ip: Inode, fate: nat -> Fate, key: Key, s: Search, n: nat): (s': Search)
    requires VolumeOk(vol) && |ip.block| == N_BLOCKS && BlocksOk(vol, ip) && OnRecord(vol, ip, fate, s)
    ensures OnRecord(vol, ip, fate, s')
    decreases n
  {
    if n == 0 then s else Turn(vol, ip, fate, key, Turns(vol, ip, fate, key, s, n - 1))
  }

  ghost predicate Ends(vol: Volume, ip: Inode, fate: nat -> Fate, key: Key)
    requires VolumeOk(vol) && |ip.block| == N_BLOCKS && BlocksOk(vol, ip)
  {
    EnterOk(vol, ip, fate, 0);
    exists n: nat :: Turns(vol, ip, fate, key, Enter(fate, 0), n).Ended?
  }

  /** A block of zeros is never left: its first record has no length, and only the empty name matches it. */
  lemma ZeroBlockStays(bs: nat, key: Key)
    requires bs >= 8 && KeyFits(key, bs)
    ensures RecLen(Zeros(bs), 0) == 0 && (Matches(Zeros(bs), 0, key) <==> KeyLength(key) == 0)
  {
  }

  /** The records of a block from `at` on give what all of them give. */
  ghost predicate NotBefore(vol: Volume, ip: Inode, k: nat, at: nat, key: Key)
    requires VolumeOk(vol) && |ip.block| == N_BLOCKS && BlocksOk(vol, ip) && k < BlockCount(ip.size, vol.fs.bs)
  {
    var blk := FileBlock(vol.fs, ip, k);
    RecordsOk(vol, blk, at) && FindAt(vol, ip, k, key) == FindIn(vol, blk, at, key)
  }

  lemma NotBeforeStart(vol: Volume, ip: Inode, k: nat, key: Key)
    requires VolumeOk(vol) && |ip.block| == N_BLOCKS && BlocksOk(vol, ip) && k < BlockCount(ip.size, vol.fs.bs)
    ensures NotBefore(vol, ip, k, 0, key)
  {
    assert BlockOk(vol, ip, k);
  }

  /** A record that does not match is stepped over. */
  lemma NotBeforeNext(vol: Volume, ip: Inode, k: nat, at: nat, key: Key)
    requires VolumeOk(vol) && |ip.block| == N_BLOCKS && BlocksOk(vol, ip) && k < BlockCount(ip.size, vol.fs.bs)
    requires at < vol.fs.bs && NotBefore(vol, ip, k, at, key) && !Matches(FileBlock(vol.fs, ip, k), at, key)
    ensures var at' := at + RecLen(FileBlock(vol.fs, ip, k), at);
            at < at' <= vol.fs.bs && NotBefore(vol, ip, k, at', key) && (at' == vol.fs.bs ==> FindAt(vol, ip, k, key) == None)
  {
  }

  /** The blocks still to be read are in the inode itself. */
  ghost predicate Direct(vol: Volume, ip: Inode, key: Key, s: Search)
    requires VolumeOk(vol) && |ip.block| == N_BLOCKS && BlocksOk(vol, ip)
  {
    s.Before? ==>
      s.k < BlockCount(ip.size, vol.fs.bs) && LastRead(vol, ip, s.k, key) <= DIRECT_LIM && NotBefore(vol, ip, s.k, s.at, key)
  }

  lemma FindFromNext(vol: Volume, ip: Inode, k: nat, key: Key)
    requires VolumeOk(vol) && |ip.block| == N_BLOCKS && BlocksOk(vol, ip) && k < BlockCount(ip.size, vol.fs.bs)
    requires FindAt(vol, ip, k, key) == None
    ensures FindFrom(vol, ip, k, key) == FindFrom(vol, ip, k + 1, key)
    ensures k + 1 >= BlockCount(ip.size, vol.fs.bs) ==> FindFrom(vol, ip, k, key) == None
  {
  }

  lemma LastReadNext(vol: Volume, ip: Inode, k: nat, key: Key)
    requires VolumeOk(vol) && |ip.block| == N_BLOCKS && BlocksOk(vol, ip) && k + 1 < BlockCount(ip.size, vol.fs.bs)
    requires FindAt(vol, ip, k, key) == None
    ensures LastRead(vol, ip, k + 1, key) == LastRead(vol, ip, k, key)
  {
  }

  lemma DirectTurn(vol: Volume, ip: Inode, fate: nat -> Fate, key: Key, s: Search)
    requires VolumeOk(vol) && |ip.block| == N_BLOCKS && BlocksOk(vol, ip) && OnRecord(vol, ip, fate, s) && Possible(fate)
    requires s.Before? && Direct(vol, ip, key, s)
    ensures Direct(vol, ip, key, Turn(vol, ip, fate, key, s))
  {
    assert fate(s.k) != Lost;
    var s' := Turn(vol, ip, fate, key, s);
    if s'.Before? {
      NotBeforeNext(vol, ip, s.k, s.at, key);
      if s'.k != s.k {
        LastReadNext(vol, ip, s.k, key);
        NotBeforeStart(vol, ip, s'.k, key);
      }
    }
  }

  /** A turn ends the search or brings it forward, unless it stands in a lost block. */
  lemma TurnForward(vol: Volume, ip: Inode, fate: nat -> Fate, key: Key, s: Search)
    requires VolumeOk(vol) && |ip.block| == N_BLOCKS && BlocksOk(vol, ip) && OnRecord(vol, ip, fate, s) && s.Before?
    requires fate(s.k) == Lost ==> KeyLength(key) == 0
    requires KeyFits(key, vol.fs.bs)
    ensures var s' := Turn(vol, ip, fate, key, s); s'.Before? ==> s'.k == s.k + 1 || (s'.k == s.k && s'.at > s.at)
  {
    ZeroBlockStays(vol.fs.bs, key);
  }

  lemma OneTurn(vol: Volume, ip: Inode, fate: nat -> Fate, key: Key, s: Search)
    requires VolumeOk(vol) && |ip.block| == N_BLOCKS && BlocksOk(vol, ip) && OnRecord(vol, ip, fate, s) && Possible(fate)
    requires s.Before? && (KeyLength(key) == 0 || Direct(vol, ip, key, s))
    requires KeyFits(key, vol.fs.bs)
    ensures var s' := Turn(vol, ip, fate, key, s);
            && (KeyLength(key) == 0 || Direct(vol, ip, key, s'))
            && (s'.Before? ==> s'.k == s.k + 1 || (s'.k == s.k && s'.at > s.at))
  {
    if KeyLength(key) != 0 {
      DirectTurn(vol, ip, fate, key, s);
    }
    TurnForward(vol, ip, fate, key, s);
  }

  /** Without lost blocks in the way, a search that has come this far in `n` turns ends after `m`. */
  lemma {:induction false} TurnsEnd(vol: Volume, ip: Inode, fate: nat -> Fate, key: Key, s0: Search, n: nat, s: Search) returns (m: nat)
    requires VolumeOk(vol) && |ip.block| == N_BLOCKS && BlocksOk(vol, ip) && OnRecord(vol, ip, fate, s0) && Possible(fate)
    requires s == Turns(vol, ip, fate, key, s0, n) && (KeyLength(key) == 0 || Direct(vol, ip, key, s))
    requires KeyFits(key, vol.fs.bs)
    ensures Turns(vol, ip, fate, key, s0, m).Ended?
    decreases s.Before?, if s.Before? then BlockCount(ip.size, vol.fs.bs) - s.k else 0, if s.Before? then vol.fs.bs - s.at else 0
  {
    m := n;
    if s.Before? {
      OneTurn(vol, ip, fate, key, s);
      m := TurnsEnd(vol, ip, fate, key, s0, n + 1, Turn(vol, ip, fate, key, s));
    }
  }

  /** The search is on its way to an indirect block, or stuck in it. */
  ghost predicate Stuck(vol: Volume, ip: Inode, key: Key, s: Search)
    requires VolumeOk(vol) && |ip.block| == N_BLOCKS && BlocksOk(vol, ip)
  {
    && s.Before? && s.k < BlockCount(ip.size, vol.fs.bs) && s.k <= DIRECT_LIM + 1
    && if s.k > DIRECT_LIM then s.at == 0
       else LastRead(vol, ip, s.k, key) > DIRECT_LIM && NotBefore(vol, ip, s.k, s.at, key)
  }

  /** Every block that hangs on an indirect block is lost. */
  function AllLost(): nat -> Fate {
    (k: nat) => if k > DIRECT_LIM then Lost else Good
  }

  /** A search that goes on beyond block `k` does not find the name there. */
  lemma NotFoundHere(vol: Volume, ip: Inode, k: nat, at: nat, key: Key)
    requires VolumeOk(vol) && |ip.block| == N_BLOCKS && BlocksOk(vol, ip) && k < BlockCount(ip.size, vol.fs.bs)
    requires LastRead(vol, ip, k, key) > k && at < vol.fs.bs && NotBefore(vol, ip, k, at, key)
    ensures !Matches(FileBlock(vol.fs, ip, k), at, key) && k + 1 < BlockCount(ip.size, vol.fs.bs)
    ensures LastRead(vol, ip, k + 1, key) == LastRead(vol, ip, k, key)
  {
  }

  lemma StuckTurn(vol: Volume, ip: Inode, key: Key, s: Search)
    requires VolumeOk(vol) && |ip.block| == N_BLOCKS && BlocksOk(vol, ip) && KeyLength(key) != 0
    requires OnRecord(vol, ip, AllLost(), s) && Stuck(vol, ip, key, s)
    requires KeyFits(key, vol.fs.bs)
    ensures Stuck(vol, ip, key, Turn(vol, ip, AllLost(), key, s))
  {
    if s.k > DIRECT_LIM {
      ZeroBlockStays(vol.fs.bs, key);
    } else {
      NotFoundHere(vol, ip, s.k, s.at, key);
      NotBeforeNext(vol, ip, s.k, s.at, key);
      if s.k < DIRECT_LIM {
        NotBeforeStart(vol, ip, s.k + 1, key);
      }
    }
  }

  lemma {:induction false} StuckForever(vol: Volume, ip: Inode, key: Key, s: Search, n: nat)
    requires VolumeOk(vol) && |ip.block| == N_BLOCKS && BlocksOk(vol, ip) && KeyLength(key) != 0
    requires OnRecord(vol, ip, AllLost(), s) && Stuck(vol, ip, key, s) && KeyFits(key, vol.fs.bs)
    ensures Stuck(vol, ip, key, Turns(vol, ip, AllLost(), key, s, n))
    decreases n
  {
    if n > 0 {
      StuckForever(vol, ip, key, s, n - 1);
      StuckTurn(vol, ip, key, Turns(vol, ip, AllLost(), key, s, n - 1));
    }
  }

  /**
    On a drive that can fail, a search ends whatever fails exactly when it never reads a block that hangs on an
    indirect block; the empty name, which even a lost block matches, is the exception.
   */
  lemma SearchEnds(vol: Volume, ip: Inode, key: Key)
    requires VolumeOk(vol) && |ip.block| == N_BLOCKS && BlocksOk(vol, ip)
    requires KeyFits(key, vol.fs.bs)
    ensures (forall fate: nat -> Fate :: Possible(fate) ==> Ends(vol, ip, fate, key)) <==>
            KeyLength(key) == 0 || FoundDirectly(vol, ip, key)
  {
    NotBeforeStart(vol, ip, 0, key);
    if KeyLength(key) == 0 || FoundDirectly(vol, ip, key) {
      forall fate: nat -> Fate | Possible(fate) ensures Ends(vol, ip, fate, key) {
        EnterOk(vol, ip, fate, 0);
        var n := TurnsEnd(vol, ip, fate, key, Enter(fate, 0), 0, Enter(fate, 0));
      }
    } else {
      var s := Enter(AllLost(), 0);
      EnterOk(vol, ip, AllLost(), 0);
      forall n: nat ensures Turns(vol, ip, AllLost(), key, s, n).Before? {
        StuckForever(vol, ip, key, s, n);
      }
      assert Possible(AllLost()) && !Ends(vol, ip, AllLost(), key);
    }
  }

  // ----- a search as it goes along

  /** The search from its start. */
  ghost function Walked(vol: Volume, ip: Inode, fate: nat -> Fate, key: Key, n: nat): (s: Search)
    requires VolumeOk(vol) && |ip.block| == N_BLOCKS && BlocksOk(vol, ip)
    ensures OnRecord(vol, ip, fate, s)
  {
    EnterOk(vol, ip, fate, 0);
    Turns(vol, ip, fate, key, Enter(fate, 0), n)
  }

  lemma WalkedNext(vol: Volume, ip: Inode, fate: nat -> Fate, key: Key, n: nat)
    requires VolumeOk(vol) && |ip.block| == N_BLOCKS && BlocksOk(vol, ip)
    ensures Walked(vol, ip, fate, key, n + 1) == Turn(vol, ip, fate, key, Walked(vol, ip, fate, key, n))
  {
    EnterOk(vol, ip, fate, 0);
  }

  /** What has become of the blocks read so far, and how many turns that took. */
  datatype Trail = Trail(seen: seq<Fate>, turns: nat)

  ghost predicate Agrees(fate: nat -> Fate, seen: seq<Fate>) {
    forall k: nat :: k < |seen| ==> fate(k) == seen[k]
  }

  ghost predicate SeenOk(seen: seq<Fate>, faulty: bool) {
    forall k: nat :: k < |seen| ==> (seen[k] == Lost ==> k > DIRECT_LIM) && (seen[k] != Good ==> faulty)
  }

  /** Whatever becomes of blocks not yet read, the search is at `s`. */
  ghost predicate OnTrail(vol: Volume, ip: Inode, key: Key, tr: Trail, s: Search, faulty: bool)
    requires VolumeOk(vol) && |ip.block| == N_BLOCKS && BlocksOk(vol, ip)
  {
    && SeenOk(tr.seen, faulty) && (s.Before? ==> |tr.seen| == s.k + 1)
    && forall fate: nat -> Fate {:trigger Agrees(fate, tr.seen)} :: Agrees(fate, tr.seen) ==> Walked(vol, ip, fate, key, tr.turns) == s
  }

  /** Where a search goes when it has read block `k` with this result. */
  function Entered(k: nat, f: Fate): Search {
    if f == Unread then Ended(-1) else Before(k, 0)
  }

  lemma TrailStarts(vol: Volume, ip: Inode, key: Key, f: Fate, faulty: bool)
    requires VolumeOk(vol) && |ip.block| == N_BLOCKS && BlocksOk(vol, ip) && f != Lost && (f == Unread ==> faulty)
    ensures OnTrail(vol, ip, key, Trail([f], 0), Entered(0, f), faulty)
  {
    forall fate: nat -> Fate | Agrees(fate, [f]) ensures Walked(vol, ip, fate, key, 0) == Entered(0, f) {
      assert fate(0) == [f][0];
    }
  }

  /** A match ends the search. */
  lemma TrailFound(vol: Volume, ip: Inode, key: Key, tr: Trail, k: nat, at: nat, blk: seq<byte>, faulty: bool)
    requires VolumeOk(vol) && |ip.block| == N_BLOCKS && BlocksOk(vol, ip) && |tr.seen| == k + 1
    requires OnTrail(vol, ip, key, tr, Before(k, at), faulty) && blk == (if tr.seen[k] == Lost then Zeros(vol.fs.bs) else FileBlock(vol.fs, ip, k))
    requires at + 8 <= |blk| && at + 8 + blk[at + 6] as int <= |blk| && Matches(blk, at, key)
    ensures OnTrail(vol, ip, key, tr.(turns := tr.turns + 1), Ended(Le32(blk, at)), faulty)
  {
    forall fate: nat -> Fate | Agrees(fate, tr.seen) ensures Walked(vol, ip, fate, key, tr.turns + 1) == Ended(Le32(blk, at)) {
      WalkedNext(vol, ip, fate, key, tr.turns);
      assert fate(k) == tr.seen[k];
    }
  }

  /** From a record that does not match to the one behind it. */
  lemma TrailOn(vol: Volume, ip: Inode, key: Key, tr: Trail, k: nat, at: nat, faulty: bool)
    requires VolumeOk(vol) && |ip.block| == N_BLOCKS && BlocksOk(vol, ip) && |tr.seen| == k + 1 && tr.seen[k] == Good
    requires k < BlockCount(ip.size, vol.fs.bs) && NotBefore(vol, ip, k, at, key)
    requires at < vol.fs.bs && OnTrail(vol, ip, key, tr, Before(k, at), faulty) && !Matches(FileBlock(vol.fs, ip, k), at, key)
    requires at + RecLen(FileBlock(vol.fs, ip, k), at) < vol.fs.bs
    ensures OnTrail(vol, ip, key, tr.(turns := tr.turns + 1), Before(k, at + RecLen(FileBlock(vol.fs, ip, k), at)), faulty)
  {
    var s := Before(k, at + RecLen(FileBlock(vol.fs, ip, k), at));
    forall fate: nat -> Fate | Agrees(fate, tr.seen) ensures Walked(vol, ip, fate, key, tr.turns + 1) == s {
      WalkedNext(vol, ip, fate, key, tr.turns);
      assert fate(k) == tr.seen[k];
    }
  }

  lemma AgreesFront(fate: nat -> Fate, seen: seq<Fate>, f: Fate)
    requires Agrees(fate, seen + [f])
    ensures Agrees(fate, seen) && fate(|seen|) == f
  {
    forall k: nat | k < |seen| ensures fate(k) == seen[k] {
      assert fate(k) == (seen + [f])[k];
    }
    assert fate(|seen|) == (seen + [f])[|seen|];
  }

  /** From the last record of a block to the next block, which comes with result `f`, or to the end. */
  lemma TrailToBlock(vol: Volume, ip: Inode, key: Key, tr: Trail, k: nat, at: nat, f: Fate, faulty: bool, faulty': bool)
    requires VolumeOk(vol) && |ip.block| == N_BLOCKS && BlocksOk(vol, ip) && |tr.seen| == k + 1 && tr.seen[k] == Good
    requires k < BlockCount(ip.size, vol.fs.bs) && NotBefore(vol, ip, k, at, key)
    requires at < vol.fs.bs && OnTrail(vol, ip, key, tr, Before(k, at), faulty) && !Matches(FileBlock(vol.fs, ip, k), at, key)
    requires at + RecLen(FileBlock(vol.fs, ip, k), at) >= vol.fs.bs && (faulty ==> faulty')
    requires (f == Lost ==> k + 1 > DIRECT_LIM) && (f != Good ==> faulty')
    ensures var tr' := Trail(tr.seen + [f], tr.turns + 1);
            OnTrail(vol, ip, key, tr', if k + 1 < BlockCount(ip.size, vol.fs.bs) then Entered(k + 1, f) else Ended(-1), faulty')
  {
    var s := if k + 1 < BlockCount(ip.size, vol.fs.bs) then Entered(k + 1, f) else Ended(-1);
    forall fate: nat -> Fate | Agrees(fate, tr.seen + [f]) ensures Walked(vol, ip, fate, key, tr.turns + 1) == s {
      AgreesFront(fate, tr.seen, f);
      WalkedNext(vol, ip, fate, key, tr.turns);
      assert fate(k) == tr.seen[k];
    }
  }

  function FateOf(seen: seq<Fate>): nat -> Fate {
    (k: nat) => if k < |seen| then seen[k] else Good
  }

  /** The search ends with `ino`, or -1. */
  ghost predicate EndsWith(vol: Volume, ip: Inode, fate: nat -> Fate, key: Key, ino: int)
    requires VolumeOk(vol) && |ip.block| == N_BLOCKS && BlocksOk(vol, ip)
  {
    exists n: nat :: Walked(vol, ip, fate, key, n) == Ended(ino)
  }

  lemma TrailEnds(vol: Volume, ip: Inode, key: Key, tr: Trail, ino: int, faulty: bool)
    requires VolumeOk(vol) && |ip.block| == N_BLOCKS && BlocksOk(vol, ip) && OnTrail(vol, ip, key, tr, Ended(ino), faulty)
    ensures Possible(FateOf(tr.seen)) && EndsWith(vol, ip, FateOf(tr.seen), key, ino)
    ensures !faulty ==> forall k: nat :: FateOf(tr.seen)(k) == Good
  {
    assert Agrees(FateOf(tr.seen), tr.seen);
  }

  // ----- paths

  /** The inode that a directory gives for a name; nothing is found in what is no directory. */
  ghost function Lookup(vol: Volume, ip: Inode, key: Key): (r: Option<nat>)
    requires VolumeOk(vol) && |ip.block| == N_BLOCKS
    ensures r.Some? ==> Numbered(vol, r.value)
  {
    if BlocksOk(vol, ip) then FindFrom(vol, ip, 0, key) else None
  }

  /** The search for the name ends, and what it finds is not the record of an inode that is not in use. */
  ghost predicate LookupOk(vol: Volume, ip: Inode, key: Key, reliable: bool)
    requires VolumeOk(vol) && |ip.block| == N_BLOCKS
  {
    && Searchable(vol, ip, key, reliable) && (reliable || FoundDirectly(vol, ip, key))
    && (Lookup(vol, ip, key).Some? ==> Known(vol, Lookup(vol, ip, key).value))
  }

  /**
    Every inode in which a component is looked up is a directory, and no component has the name of a record that
    is not in use: ext2_namei would take its 0 for an inode number.
   */
  ghost predicate PathOk(vol: Volume, ino: nat, comps: seq<String>, reliable: bool)
    requires VolumeOk(vol) && Known(vol, ino)
    decreases |comps|
  {
    comps != [] ==>
      && LookupOk(vol, InodeOf(vol, ino), Name(comps[0]), reliable)
      && var next := Lookup(vol, InodeOf(vol, ino), Name(comps[0]));
         next.Some? ==> PathOk(vol, next.value, comps[1..], reliable)
  }

  /** The inode that a path names, from a directory on. */
  ghost function Resolve(vol: Volume, ino: nat, comps: seq<String>): (r: Option<nat>)
    requires VolumeOk(vol) && Known(vol, ino)
    ensures r.Some? ==> Known(vol, r.value)
    decreases |comps|
  {
    if comps == [] then Some(ino) else
      var next := Lookup(vol, InodeOf(vol, ino), Name(comps[0]));
      if next.None? || !Known(vol, next.value) then None else Resolve(vol, next.value, comps[1..])
  }

  // ----- paths in the block buffer

  /** The string in the buffer at `p` has an end. */
  predicate Terminated(blk: seq<byte>, p: nat)
    requires p <= |blk|
  {
    0 in blk[p..]
  }

  lemma {:induction false} CStringShort(s: seq<byte>)
    ensures |CString(s)| <= |s|
    decreases |s|
  {
    if s != [] && s[0] != 0 {
      CStringShort(s[1..]);
    }
  }

  /** Where the component is that the tokeniser finds in the buffer at `p`. */
  function BufferedKey(blk: seq<byte>, p: nat): (key: Key)
    requires p <= |blk|
    ensures key.Buffered? && KeyFits(key, |blk|)
  {
    var text := CString(blk[p..]);
    CStringShort(blk[p..]);
    Buffered(p + |text| - |SkipSlash(text)|, Slash(SkipSlash(text)))
  }

  /** Where the tokeniser goes on, whatever the buffer holds by then. */
  function NextStart(blk: seq<byte>, p: nat): (r: Option<nat>)
    requires p <= |blk|
    ensures r.Some? ==> p < r.value <= |blk|
  {
    var text := CString(blk[p..]);
    CStringShort(blk[p..]);
    if Remainder(text).None? then None else Some(p + |text| - |Remainder(text).value|)
  }

  /** What the buffer holds once a name has been found. */
  ghost function BufferAfter(vol: Volume, ip: Inode, key: Key): (r: seq<byte>)
    requires VolumeOk(vol) && |ip.block| == N_BLOCKS && BlocksOk(vol, ip)
    ensures |r| == vol.fs.bs
  {
    FileBlock(vol.fs, ip, LastRead(vol, ip, 0, key))
  }

  /** What a path leads to that is still to be read from the buffer at `p`, while the directories are read into it. */
  ghost function ResolveIn(vol: Volume, ino: nat, blk: seq<byte>, p: Option<nat>): (r: Option<nat>)
    requires VolumeOk(vol) && Known(vol, ino) && |blk| == vol.fs.bs && (p.Some? ==> p.value <= |blk|)
    ensures r.Some? ==> Known(vol, r.value)
    decreases if p.Some? then vol.fs.bs + 1 - p.value else 0
  {
    if p.None? then Some(ino) else
      var ip, key := InodeOf(vol, ino), BufferedKey(blk, p.value);
      var next := Lookup(vol, ip, key);
      if next.None? || !Known(vol, next.value) then None
      else ResolveIn(vol, next.value, BufferAfter(vol, ip, key), NextStart(blk, p.value))
  }

  /** Every component has an end and can be looked up. */
  ghost predicate BufferOk(vol: Volume, ino: nat, blk: seq<byte>, p: Option<nat>, reliable: bool)
    requires VolumeOk(vol) && Known(vol, ino) && |blk| == vol.fs.bs && (p.Some? ==> p.value <= |blk|)
    decreases if p.Some? then vol.fs.bs + 1 - p.value else 0
  {
    p.Some? ==>
      var ip, key := InodeOf(vol, ino), BufferedKey(blk, p.value);
      && Terminated(blk, p.value) && LookupOk(vol, ip, key, reliable)
      && var next := Lookup(vol, ip, key);
         next.Some? ==> BufferOk(vol, next.value, BufferAfter(vol, ip, key), NextStart(blk, p.value), reliable)
  }

  // ----- links

  const ROOT_INO: nat := 2

  /** The path that a link gives, in its inode or in its first block, goes through directories. */
  ghost predicate LinkOk(vol: Volume, ino: nat, reliable: bool)
    requires VolumeOk(vol) && Known(vol, ROOT_INO) && Known(vol, ino)
  {
    var ip := InodeOf(vol, ino);
    IsLink(ip) ==>
      if ip.blocks == 0 then PathOk(vol, ROOT_INO, Components(LinkText(ip)), reliable)
      else PointersOk(vol.fs, ip) && (BlockReadable(vol.fs, ip, 0) ==> BufferOk(vol, ROOT_INO, FileBlock(vol.fs, ip, 0), Some(0), reliable))
  }

  /** What a link leads to. */
  ghost function Target(vol: Volume, ino: nat): (r: Option<nat>)
    requires VolumeOk(vol) && Known(vol, ROOT_INO) && Known(vol, ino)
    ensures r.Some? ==> Known(vol, r.value)
  {
    var ip := InodeOf(vol, ino);
    if ip.blocks == 0 then Resolve(vol, ROOT_INO, Components(LinkText(ip)))
    else if BlockReadable(vol.fs, ip, 0) then ResolveIn(vol, ROOT_INO, FileBlock(vol.fs, ip, 0), Some(0))
    else None
  }

  /** What a link comes to that is stored in a block. */
  lemma LongTarget(vol: Volume, ino: nat, reliable: bool)
    requires VolumeOk(vol) && Known(vol, ROOT_INO) && Known(vol, ino) && InodeOf(vol, ino).blocks != 0
    ensures var ip := InodeOf(vol, ino);
            && (!BlockReadable(vol.fs, ip, 0) ==> Target(vol, ino) == None)
            && (BlockReadable(vol.fs, ip, 0) ==> Target(vol, ino) == ResolveIn(vol, ROOT_INO, FileBlock(vol.fs, ip, 0), Some(0)))
            && (IsLink(ip) && LinkOk(vol, ino, reliable) ==> PointersOk(vol.fs, ip))
            && (IsLink(ip) && LinkOk(vol, ino, reliable) && BlockReadable(vol.fs, ip, 0) ==>
                  BufferOk(vol, ROOT_INO, FileBlock(vol.fs, ip, 0), Some(0), reliable))
  {
  }

  /** The inode that a path names once `n` links have been followed. */
  ghost function Named(vol: Volume, comps: seq<String>, n: nat): (r: Option<nat>)
    requires VolumeOk(vol) && Known(vol, ROOT_INO)
    ensures r.Some? ==> Known(vol, r.value)
    decreases n
  {
    if n == 0 then Resolve(vol, ROOT_INO, comps) else
      var at := Named(vol, comps, n - 1);
      if at.Some? && IsLink(InodeOf(vol, at.value)) then Target(vol, at.value) else None
  }

  lemma NamedIs(vol: Volume, comps: seq<String>, n: nat)
    requires VolumeOk(vol) && Known(vol, ROOT_INO)
    ensures Named(vol, comps, 0) == Resolve(vol, ROOT_INO, comps)
    ensures NamesLink(vol, comps, n) ==> Named(vol, comps, n + 1) == Target(vol, Named(vol, comps, n).value)
    ensures !NamesLink(vol, comps, n) ==> Named(vol, comps, n + 1) == None
  {
  }

  /** After `n` links there is another one. */
  ghost predicate NamesLink(vol: Volume, comps: seq<String>, n: nat)
    requires VolumeOk(vol) && Known(vol, ROOT_INO)
  {
    Named(vol, comps, n).Some? && IsLink(InodeOf(vol, Named(vol, comps, n).value))
  }

  /** After `n` links there is something else. */
  ghost predicate NamesFile(vol: Volume, comps: seq<String>, n: nat)
    requires VolumeOk(vol) && Known(vol, ROOT_INO)
  {
    Named(vol, comps, n).Some? && !IsLink(InodeOf(vol, Named(vol, comps, n).value))
  }

  /** The path and all links that are met from there on can be looked up. */
  ghost predicate ChainOk(vol: Volume, comps: seq<String>, reliable: bool)
    requires VolumeOk(vol) && Known(vol, ROOT_INO)
  {
    && PathOk(vol, ROOT_INO, comps, reliable)
    && forall n: nat {:trigger NamesLink(vol, comps, n)} :: NamesLink(vol, comps, n) ==> LinkOk(vol, Named(vol, comps, n).value, reliable)
  }
}
