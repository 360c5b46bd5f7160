/**
  From bytes of a partition down to the drive: read_bytes, partition_read, the track cache of
  do_disk_read and ide_read. Any transfer may fail; a drive counts those that did.
 */
module DiskStack {
  import opened Ata
  import opened Bytes
  import opened Words

  datatype Mode = Chs(g: Geometry) | Lba | LbaExtended

  /** What ide_read_sector_chs, _lba and _lba48 put in the registers; the first two pass the sector as 32 bits. */
  function CommandFor(mode: Mode, slave: nat, sector: nat): Command
    requires mode.Chs? ==> mode.g.sectorsPerTrack > 0 && mode.g.heads > 0
  {
    match mode
    case Chs(g) => ChsCommand(g, slave, sector % WORD)
    case Lba => Lba28Command(slave, sector % WORD)
    case LbaExtended => Lba48Command(slave, sector)
  }

  /** The number of sectors that the addressing mode can reach. */
  function Reach(mode: Mode): nat {
    match mode
    case Chs(g) => g.sectorsPerTrack * g.heads * 0x1_0000
    case Lba => TWO28
    case LbaExtended => TWO48
  }

  /** The drive is addressed by cylinders only as it divides its sectors itself. */
  predicate ModeOk(mode: Mode, g: Geometry) {
    mode.Chs? ==> mode.g == g && 0 < g.sectorsPerTrack <= 255 && 0 < g.heads <= 16
  }

  lemma ChsReach(g: Geometry, sector: nat)
    requires 0 < g.sectorsPerTrack <= 255 && 0 < g.heads <= 16 && sector < g.sectorsPerTrack * g.heads * 0x1_0000
    ensures sector < WORD
    ensures sector % g.sectorsPerTrack < 255 && sector / g.sectorsPerTrack % g.heads < 16
    ensures sector / g.sectorsPerTrack / g.heads < 0x1_0000
  {
    var spt, h := g.sectorsPerTrack, g.heads;
    DivMod(sector, spt);
    var track := sector / spt;
    DivMod(track, h);
    var cyl := track / h;
    MulMono(spt, 255, h);
    MulMono(h, 16, 255);
    assert 0x1_0000 * h * spt == spt * h * 0x1_0000;
    if cyl >= 0x1_0000 {
      MulMono(0x1_0000, cyl, h);
      MulMono(0x1_0000 * h, track, spt);
    }
  }

  /** Within its reach, every mode makes the selected drive read the one sector asked for. */
  lemma ModeReaches(mode: Mode, g: Geometry, slave: nat, sector: nat)
    requires ModeOk(mode, g) && (slave == 0 || slave == 0x10) && sector < Reach(mode)
    ensures Decoded(g, Loaded(CommandFor(mode, slave, sector))) == Request.Read(slave == 0x10, sector, 1)
  {
    if mode.Chs? {
      ChsReaches(g, slave, sector);
    } else if mode.Lba? {
      Lba28Exact(g, slave, sector);
    } else {
      Lba48Exact(g, slave, sector);
    }
  }

  lemma ChsReaches(g: Geometry, slave: nat, sector: nat)
    requires ModeOk(Chs(g), g) && (slave == 0 || slave == 0x10) && sector < Reach(Chs(g))
    ensures Decoded(g, Loaded(ChsCommand(g, slave, sector % WORD))) == Request.Read(slave == 0x10, sector, 1)
  {
    ChsReach(g, sector);
    SmallWord(sector);
    ChsExact(g, slave, sector);
  }

  lemma JustBeyond(mode: Mode, g: Geometry, slave: nat)
    requires ModeOk(mode, g) && (slave == 0 || slave == 0x10)
    ensures Decoded(g, Loaded(CommandFor(mode, slave, Reach(mode)))) == Request.Read(slave == 0x10, 0, 1)
  {
    match mode
    case Chs(_) => ChsBeyond(g, slave, g.sectorsPerTrack * g.heads * 0x1_0000);
    case Lba => Lba28Beyond(g, slave, TWO28);
    case LbaExtended => Lba48Beyond(g, slave, TWO48);
  }

  lemma Lba28Beyond(g: Geometry, slave: nat, s: nat)
    requires (slave == 0 || slave == 0x10) && s == TWO28
    ensures Decoded(g, Loaded(Lba28Command(slave, s % WORD))) == Request.Read(slave == 0x10, 0, 1)
  {
    Powers();
    SmallWord(s);
    Lba28Is(g, slave, s);
    OneAbove(28, s);
  }

  lemma Lba48Beyond(g: Geometry, slave: nat, s: nat)
    requires (slave == 0 || slave == 0x10) && s == TWO48
    ensures Decoded(g, Loaded(Lba48Command(slave, s))) == Request.Read(slave == 0x10, 0, 1)
  {
    Powers();
    Lba48Is(g, slave, s);
    OneAbove(48, s);
  }

  lemma OneAbove(k: nat, p: nat)
    requires p == Pow2(k)
    ensures ShiftRight(p, k) == 1
  {
    ShiftRightBound(p, k, 1);
    ShiftRightBound(p, k, 2);
  }

  lemma ChsBeyond(g: Geometry, slave: nat, sector: nat)
    requires ModeOk(Chs(g), g) && (slave == 0 || slave == 0x10) && sector == g.sectorsPerTrack * g.heads * 0x1_0000
    ensures Decoded(g, Loaded(ChsCommand(g, slave, sector % WORD))) == Request.Read(slave == 0x10, 0, 1)
  {
    ChsIs(g, slave, sector);
    FullCylinders(g.sectorsPerTrack, g.heads, sector);
    SmallWord(sector);
    ChsFields(g, slave, 0x1_0000, 0, 1, Loaded(ChsCommand(g, slave, sector)));
    Powers();
    OneAbove(16, 0x1_0000);
    FirstSector(g);
  }

  lemma FirstSector(g: Geometry)
    ensures ChsAddress(g, 0, 0, 1) == 0
  {
  }

  lemma FullCylinders(spt: nat, h: nat, sector: nat)
    requires 0 < spt <= 255 && 0 < h <= 16 && sector == spt * h * 0x1_0000
    ensures sector < WORD && sector / spt == h * 0x1_0000 && sector % spt == 0
    ensures h * 0x1_0000 / h == 0x1_0000 && h * 0x1_0000 % h == 0
  {
    MulMono(spt, 255, h);
    assert sector == spt * (h * 0x1_0000);
    DivUnique(sector, spt, h * 0x1_0000, 0);
    DivUnique(h * 0x1_0000, h, 0x1_0000, 0);
  }

  /**
    The capacity test of ide_read lets through the sector behind the last one. A drive answers it, with its
    first sector, exactly when it is as large as its addresses allow.
   */
  lemma BehindTheLast(mode: Mode, g: Geometry, slave: nat, capacity: nat)
    requires ModeOk(mode, g) && (slave == 0 || slave == 0x10) && 0 < capacity <= Reach(mode)
    ensures Decoded(g, Loaded(CommandFor(mode, slave, capacity))) ==
            Request.Read(slave == 0x10, if capacity == Reach(mode) then 0 else capacity, 1)
  {
    if capacity == Reach(mode) {
      JustBeyond(mode, g, slave);
    } else {
      ModeReaches(mode, g, slave, capacity);
    }
  }

  // ----- the start of a track

  /** The sector at which the track cache is filled; the offset is computed from 32 bits of the sector. */
  function BaseSector(sector: nat, perRead: nat): int {
    if perRead > 1 then sector - sector % WORD % perRead else sector
  }

  /** Every sector in the track that was filled for `s` has the same base. */
  ghost predicate OneBase(s: nat, perRead: nat, s': nat) {
    BaseSector(s, perRead) <= s' < BaseSector(s, perRead) + perRead ==> BaseSector(s', perRead) == BaseSector(s, perRead)
  }

  lemma ModOf(s: nat, k: nat, q: nat)
    requires k > 0 && WORD == k * q
    ensures s % WORD % k == s % k
  {
    DivMod(s, WORD);
    var n, r := s / WORD, s % WORD;
    DivMod(r, k);
    assert s == (n * q + r / k) * k + r % k by {
      assert n * WORD == n * q * k;
    }
    DivUnique(s, k, n * q + r / k, r % k);
  }

  lemma SameTrack(s: nat, k: nat, s': nat)
    requires k > 0 && s - s % k <= s' < s - s % k + k
    ensures s' - s' % k == s - s % k
  {
    DivMod(s, k);
    var q := s / k;
    assert s - s % k == k * q;
    DivUnique(s', k, q, s' - k * q);
  }

  lemma AlignedTracks(k: nat, q: nat, s: nat, s': nat)
    requires k > 1 && WORD == k * q
    ensures OneBase(s, k, s')
  {
    ModOf(s, k, q);
    ModOf(s', k, q);
    if BaseSector(s, k) <= s' < BaseSector(s, k) + k {
      SameTrack(s, k, s');
    }
  }

  /** The track that ends beyond sector 2^32 is not found again from there. */
  lemma MisalignedTrack(k: nat)
    requires k > 1 && WORD % k != 0
    ensures !OneBase(WORD - 1, k, WORD)
  {
    var s := WORD - 1;
    DivMod(s, k);
    var m := s / k;
    if k * m + k == WORD {
      NextMultiple(k, m, WORD);
    }
    assert s - s % k == k * m;
  }

  lemma NextMultiple(k: nat, m: nat, n: nat)
    requires k > 0 && n == k * m + k
    ensures n % k == 0
  {
    assert n == k * (m + 1);
    DivUnique(n, k, m + 1, 0);
  }

  /** A track size may be used on a large disk exactly when it divides 2^32. */
  lemma TracksAligned(perRead: nat)
    requires perRead > 1
    ensures (forall s: nat, s': nat :: OneBase(s, perRead, s')) <==> WORD % perRead == 0
  {
    if WORD % perRead == 0 {
      DivMod(WORD, perRead);
      forall s: nat, s': nat ensures OneBase(s, perRead, s') {
        AlignedTracks(perRead, WORD / perRead, s, s');
      }
    } else {
      MisalignedTrack(perRead);
    }
  }

  // ----- one drive and its cache

  class Disk {
    const media: seq<Sector>     // what the drive holds
    const geometry: Geometry     // how it divides them into cylinders and heads
    const mode: Mode
    const slave: nat
    const faulty: nat -> bool    // which of its transfers fail
    var capacity: nat            // what the drive has reported
    var registers: TaskFile
    var sector: nat              // the first sector in the buffer
    var bytes: nat               // how much the buffer holds
    var buffer: Sector
    var transfers: nat           // commands that the drive has taken
    ghost var faults: nat        // transfers of sectors of the drive that failed

    ghost predicate Reliable() {
      forall t: nat :: !faulty(t)
    }

    /** No transfer succeeds any more. */
    ghost predicate Dead()
      reads this
    {
      forall t: nat :: transfers <= t ==> faulty(t)
    }

    /** The cache is empty or holds the sector it claims. */
    ghost predicate Valid()
      reads this
    {
      && ModeOk(mode, geometry) && (slave == 0 || slave == 0x10) && capacity == |media| <= Reach(mode)
      && (bytes == 0 || (bytes == SECTOR_SIZE && sector <= capacity && (sector < |media| ==> buffer == media[sector])))
      && (|media| < Reach(mode) && bytes != 0 ==> sector < |media|)
      && (Reliable() ==> faults == 0)
    }

    /** disk_open and the probe leave the cache empty. */
    constructor (media: seq<Sector>, geometry: Geometry, mode: Mode, slave: nat, faulty: nat -> bool)
      requires ModeOk(mode, geometry) && (slave == 0 || slave == 0x10) && |media| <= Reach(mode)
      ensures Valid() && this.media == media && this.mode == mode && this.slave == slave && this.faulty == faulty
      ensures bytes == 0 && faults == 0
    {
      this.media, this.geometry, this.mode, this.slave, this.faulty := media, geometry, mode, slave, faulty;
      capacity := |media|;
      registers := TaskFile(0, 0, Register(0, 0), Register(0, 0), Register(0, 0), Register(0, 0), 0);
      sector, bytes, buffer := 0, 0, Zeros(SECTOR_SIZE);
      transfers, faults := 0, 0;
    }

    /** The sector that the registers make this drive read; -1 if they ask it for none of its sectors. */
    function Asked(): int
      reads this
    {
      var r := Decoded(geometry, registers);
      if r.Read? && r.second == (slave == 0x10) && r.count == 1 && 0 <= r.sector < |media| then r.sector else -1
    }

    /** The drive answers the command that is in its registers. */
    method Transfer() returns (ok: bool)
      modifies this`buffer, this`transfers, this`faults
      ensures ok <==> Asked() >= 0 && !faulty(old(transfers))
      ensures ok ==> 0 <= Asked() < |media| && buffer == media[Asked()]
      ensures faults == old(faults) + if Asked() >= 0 && faulty(old(transfers)) then 1 else 0
      ensures transfers == old(transfers) + 1
    {
      var a := Asked();
      ok := a >= 0 && !faulty(transfers);
      if ok {
        buffer := media[a];
      } else if a >= 0 {
        faults := faults + 1;
      }
      transfers := transfers + 1;
    }

    /** What the driver's registers make the drive read. */
    lemma AskedFor(s: nat)
      requires ModeOk(mode, geometry) && (slave == 0 || slave == 0x10) && s <= |media| <= Reach(mode)
      requires registers == Loaded(CommandFor(mode, slave, s))
      ensures s < |media| ==> Asked() == s
      ensures s == |media| > 0 ==> Asked() == if |media| == Reach(mode) then 0 else -1
      ensures |media| == 0 ==> Asked() == -1
    {
      if s < |media| {
        ModeReaches(mode, geometry, slave, s);
      } else if s > 0 {
        BehindTheLast(mode, geometry, slave, s);
      }
    }

    /** ide_read: the test lets through the one sector just behind the last, which only a full drive answers. */
    method FillCache(s: nat) returns (ok: bool)
      requires Valid()
      modifies this
      ensures Valid()
      ensures if ok then bytes == SECTOR_SIZE && sector == s else bytes == 0
      ensures s < |media| ==> (ok <==> !faulty(old(transfers))) && faults == old(faults) + if ok then 0 else 1
      ensures s > |media| || (s == |media| && |media| < Reach(mode)) ==> !ok
      ensures s == |media| == Reach(mode) && ok && s > 0 ==> buffer == media[0]
      ensures faults >= old(faults) && (ok ==> faults == old(faults)) && transfers >= old(transfers)
    {
      sector, bytes := 0, 0;
      if s > capacity {
        return false;
      }
      registers := SetRegisters(registers, CommandFor(mode, slave, s));
      AskedFor(s);
      ok := Transfer();
      if ok {
        bytes, sector := SECTOR_SIZE, s;
      }
    }

    /** do_disk_read: every sector of the drive is read as it is, whatever was read before. */
    method Read(s: nat) returns (ok: bool, data: Sector)
      requires Valid()
      modifies this
      ensures Valid()
      ensures ok && s < |media| ==> data == media[s]
      ensures s > |media| || (s == |media| && |media| < Reach(mode)) ==> !ok
      ensures s < |media| ==> faults == old(faults) + if ok then 0 else 1
      ensures old(Dead()) && s < |media| && ok ==> s == sector == old(sector)
      ensures transfers >= old(transfers)
      ensures faults >= old(faults) && (ok ==> faults == old(faults))
    {
      ok := true;
      if s < sector || s >= sector + bytes / SECTOR_SIZE {
        ok := FillCache(s);
      }
      data := buffer;
    }
  }

  // ----- a window on the drive

  class Partition {
    const disk: Disk
    var start: nat
    var size: nat

    ghost predicate Valid()
      reads this, disk
    {
      disk.Valid() && start + size <= |disk.media|
    }

    /** partition_set */
    constructor (disk: Disk, start: nat, size: nat)
      requires disk.Valid() && start + size <= |disk.media|
      ensures Valid() && this.disk == disk && this.start == start && this.size == size
    {
      this.disk, this.start, this.size := disk, start, size;
    }

    /** The sectors of the partition. */
    ghost function Window(): seq<Sector>
      requires start + size <= |disk.media|
      reads this
    {
      disk.media[start..start + size]
    }

    /** The bytes of the partition. */
    ghost function Image(): seq<byte>
      requires start + size <= |disk.media|
      reads this
    {
      Flatten(Window())
    }

    /** One sector of the window. */
    method ReadSector(i: nat) returns (ok: bool, data: Sector)
      requires Valid() && i < size
      modifies disk
      ensures Valid() && (ok ==> data == Window()[i])
      ensures disk.faults == old(disk.faults) + (if ok then 0 else 1) && disk.transfers >= old(disk.transfers)
      ensures old(disk.Dead()) && ok ==> start + i == disk.sector == old(disk.sector)
    {
      ok, data := disk.Read(start + i);
    }

    /** partition_read: the sectors up to the first failure, and none outside the window. */
    method Read(s: nat, n: nat) returns (red: int, data: seq<byte>)
      requires Valid()
      modifies disk
      ensures Valid()
      ensures s + n > size <==> red == -1
      ensures s + n <= size ==> 0 <= red <= n && data == Flatten(Window()[s..s + red])
      ensures disk.faults == old(disk.faults) + if 0 <= red < n then 1 else 0
      ensures old(disk.Dead()) ==> disk.Dead() && red <= 1
    {
      data := [];
      if s + n > size {
        return -1, [];
      }
      red := 0;
      var at: nat := s;
      ghost var w := Window();
      while red < n
        invariant Valid() && Window() == w && 0 <= red <= n && at == s + red
        invariant data == Flatten(w[s..s + red]) && disk.faults == old(disk.faults)
        invariant disk.transfers >= old(disk.transfers)
        invariant old(disk.Dead()) ==> red <= 1 && (red == 1 ==> disk.sector == start + at - 1)
      {
        var ok, one := ReadSector(at);
        if !ok {
          return;
        }
        FlattenNext(w, s, s + red);
        data := data + one;
        red := red + 1;
        at := at + 1;
      }
    }
  }

  lemma FlattenNext(w: seq<Sector>, i: nat, j: nat)
    requires i <= j < |w|
    ensures Flatten(w[i..j + 1]) == Flatten(w[i..j]) + w[j]
  {
    assert w[i..j + 1] == w[i..j] + [w[j]];
    FlattenOne(w[i..j], w[j]);
  }

  lemma FlattenOne(a: seq<Sector>, s: Sector)
    ensures Flatten(a + [s]) == Flatten(a) + s
  {
    assert (a + [s])[..|a + [s]| - 1] == a;
  }

  /** The sectors read_bytes fetches cover what it then copies. */
  predicate Covered(offset: nat, size: nat) {
    offset % SECTOR_SIZE + size <= (size + SECTOR_SIZE - 1) / SECTOR_SIZE * SECTOR_SIZE
  }

  /** The callers: whole blocks and tables start on a sector; inodes lie within one. */
  lemma CallersCovered(offset: nat, size: nat)
    ensures offset % SECTOR_SIZE == 0 ==> Covered(offset, size)
    ensures offset % 128 == 0 && size == 128 ==> Covered(offset, size)
  {
    if offset % 128 == 0 {
      assert offset % SECTOR_SIZE % 128 == 0;
    }
  }

  /** The copy ends at the right place. */
  lemma SliceOfSlice(image: seq<byte>, base: nat, count: nat, offset: nat, size: nat)
    requires SECTOR_SIZE * (base + count) <= |image| && base == offset / SECTOR_SIZE
    requires offset % SECTOR_SIZE + size <= SECTOR_SIZE * count
    ensures offset + size <= |image|
    ensures image[SECTOR_SIZE * base..SECTOR_SIZE * (base + count)][offset % SECTOR_SIZE..offset % SECTOR_SIZE + size]
            == image[offset..offset + size]
  {
    var lo, a := SECTOR_SIZE * base, offset % SECTOR_SIZE;
    assert lo + a == offset;
    SubSlice(image, lo, SECTOR_SIZE * (base + count), a, a + size);
  }

  lemma SubSlice(s: seq<byte>, lo: nat, hi: nat, a: nat, b: nat)
    requires a <= b && lo + b <= hi <= |s|
    ensures s[lo..hi][a..b] == s[lo + a..lo + b]
  {
    var l, r := s[lo..hi][a..b], s[lo + a..lo + b];
    assert |l| == |r|;
    forall i | 0 <= i < |l| ensures l[i] == r[i] {
      assert s[lo..hi][a + i] == s[lo + (a + i)];
    }
  }

  /** read_bytes */
  method ReadBytes(part: Partition, offset: nat, size: nat) returns (ok: bool, data: seq<byte>)
    requires part.Valid() && Covered(offset, size) && size > 0
    modifies part.disk
    ensures part.Valid()
    ensures ok ==> offset + size <= |part.Image()| && data == part.Image()[offset..offset + size]
    ensures ok <==> offset / SECTOR_SIZE + (size + SECTOR_SIZE - 1) / SECTOR_SIZE <= part.size && part.disk.faults == old(part.disk.faults)
    ensures part.disk.faults >= old(part.disk.faults)
    ensures old(part.disk.Dead()) ==> part.disk.Dead() && (ok ==> size <= SECTOR_SIZE)
  {
    var base := offset / SECTOR_SIZE;
    var count := (size + SECTOR_SIZE - 1) / SECTOR_SIZE;
    var red, buffer := part.Read(base, count);
    if red != count {
      return false, [];
    }
    ok := true;
    FlattenSlice(part.Window(), base, base + count);
    SliceOfSlice(part.Image(), base, count, offset, size);
    data := buffer[offset - base * SECTOR_SIZE..offset - base * SECTOR_SIZE + size];
  }
}
