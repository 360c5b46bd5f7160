/**
  The ATA address registers: what the driver writes for a sector in each addressing mode, and
  what a drive makes of it. Every register but the device register is two deep, so that a second
  write moves the first value to the previous position, as 48-bit addressing requires.
 */
module Ata {
  import opened Words

  const TWO28: nat := 0x1000_0000
  const TWO48: nat := 0x1_0000_0000_0000

  const DH_DEFAULT: nat := 0xA0
  const DH_LBA: nat := 0x40
  const READ_SECTORS: nat := 0x20
  const READ_SECTORS_EXT: nat := 0x24

  datatype Command = Command(
    feature: nat, sectorCount: nat, sectorCount2: nat,
    lbaLow: nat, lbaLow2: nat, lbaMid: nat, lbaMid2: nat, lbaHigh: nat, lbaHigh2: nat,
    device: nat, command: nat)

  datatype Register = Register(current: nat, previous: nat)

  datatype TaskFile = TaskFile(
    device: nat, feature: nat, sectorCount: Register,
    lbaLow: Register, lbaMid: Register, lbaHigh: Register, command: nat)

  function Write(r: Register, v: nat): Register {
    Register(v, r.current)
  }

  /** pio_set_registers, write by write. */
  method SetRegisters(tf: TaskFile, cmd: Command) returns (tf': TaskFile)
    ensures tf' == Loaded(cmd)
  {
    tf' := tf.(device := cmd.device);
    tf' := tf'.(feature := cmd.feature);
    tf' := tf'.(sectorCount := Write(tf'.sectorCount, cmd.sectorCount2));
    tf' := tf'.(sectorCount := Write(tf'.sectorCount, cmd.sectorCount));
    tf' := tf'.(lbaLow := Write(tf'.lbaLow, cmd.lbaLow2));
    tf' := tf'.(lbaLow := Write(tf'.lbaLow, cmd.lbaLow));
    tf' := tf'.(lbaMid := Write(tf'.lbaMid, cmd.lbaMid2));
    tf' := tf'.(lbaMid := Write(tf'.lbaMid, cmd.lbaMid));
    tf' := tf'.(lbaHigh := Write(tf'.lbaHigh, cmd.lbaHigh2));
    tf' := tf'.(lbaHigh := Write(tf'.lbaHigh, cmd.lbaHigh));
    tf' := tf'.(command := cmd.command);
  }

  /** The registers once a command has been written, whatever they held before. */
  function Loaded(cmd: Command): TaskFile {
    TaskFile(cmd.device, cmd.feature,
             Register(cmd.sectorCount, cmd.sectorCount2),
             Register(cmd.lbaLow, cmd.lbaLow2),
             Register(cmd.lbaMid, cmd.lbaMid2),
             Register(cmd.lbaHigh, cmd.lbaHigh2), cmd.command)
  }

  /** `(s >> n) & (m - 1)` for a power of two `m`. */
  function Bits(s: nat, n: nat, m: nat): nat
    requires m > 0
    decreases n, s
  {
    if n == 0 then s % m else Bits(s / 2, n - 1, m)
  }

  datatype Geometry = Geometry(sectorsPerTrack: nat, heads: nat)

  /** `slave` is 0 or 0x10; the parts of the device byte are disjoint bits, so that adding them is the same as combining them. */
  function ChsCommand(g: Geometry, slave: nat, sector: nat): Command
    requires g.sectorsPerTrack > 0 && g.heads > 0
  {
    var track := sector / g.sectorsPerTrack;
    var offset := 1 + sector % g.sectorsPerTrack;
    var cylinder := track / g.heads;
    Command(0, 1, 0, Bits(offset, 0, 256), 0, Bits(cylinder, 0, 256), 0, Bits(cylinder, 8, 256), 0,
            DH_DEFAULT + Bits(track % g.heads, 0, 16) + slave, READ_SECTORS)
  }

  /** `s` is the sector as a 32-bit value. */
  function Lba28Command(slave: nat, s: nat): Command {
    Command(0, 1, 0, Bits(s, 0, 256), 0, Bits(s, 8, 256), 0, Bits(s, 16, 256), 0,
            DH_DEFAULT + Bits(s, 24, 16) + slave + DH_LBA, READ_SECTORS)
  }

  function Lba48Command(slave: nat, sector: nat): Command {
    Command(0, 1, 0, Bits(sector, 0, 256), Bits(sector, 24, 256),
            Bits(sector, 8, 256), Bits(sector, 32, 256),
            Bits(sector, 16, 256), Bits(sector, 40, 256), slave + DH_LBA, READ_SECTORS_EXT)
  }

  // ----- what the drive addresses

  function ChsSector(g: Geometry, tf: TaskFile): int {
    ChsAddress(g, tf.lbaMid.current + 0x100 * tf.lbaHigh.current, Bits(tf.device, 0, 16), tf.lbaLow.current)
  }

  function ChsAddress(g: Geometry, cylinder: int, head: nat, offset: nat): int {
    (cylinder * g.heads + head) * g.sectorsPerTrack + offset - 1
  }

  function Lba28Sector(tf: TaskFile): int {
    tf.lbaLow.current + 0x100 * tf.lbaMid.current + 0x1_0000 * tf.lbaHigh.current + 0x100_0000 * (Bits(tf.device, 0, 16))
  }

  function Lba48Sector(tf: TaskFile): int {
    tf.lbaLow.current + 0x100 * tf.lbaMid.current + 0x1_0000 * tf.lbaHigh.current +
    0x100_0000 * tf.lbaLow.previous + 0x1_0000_0000 * tf.lbaMid.previous + 0x100_0000_0000 * tf.lbaHigh.previous
  }

  /** What a drive takes a command for; sectors are counted from 0, and `second` is drive 1. */
  datatype Request = NotARead | Read(second: bool, sector: int, count: nat)

  /** A count of 0 stands for the largest one. */
  function Sectors(count: nat, all: nat): nat {
    if count == 0 then all else count
  }

  /**
    READ SECTOR(S) and READ SECTOR(S) EXT, by the registers alone: bit 4 of the device register selects the drive and
    bit 6 logical block addresses, which the latter command demands. `g` is how the drive divides its sectors.
   */
  function Decoded(g: Geometry, tf: TaskFile): Request {
    var second, lba := Bits(tf.device, 4, 2) == 1, Bits(tf.device, 6, 2) == 1;
    if tf.command == 0x20 then
      Read(second, if lba then Lba28Sector(tf) else ChsSector(g, tf), Sectors(tf.sectorCount.current, 0x100))
    else if tf.command == 0x24 && lba then
      Read(second, Lba48Sector(tf), Sectors(tf.sectorCount.current + 0x100 * tf.sectorCount.previous, 0x1_0000))
    else NotARead
  }

  /** One byte, then the bits above it. */
  lemma {:induction false} ByteStep(s: nat, n: nat)
    ensures Bits(s, n, 256) == ShiftRight(s, n) - 256 * ShiftRight(s, n + 8) < 256
    decreases n
  {
    if n == 0 {
      ShiftRight8(s);
    } else {
      ByteStep(s / 2, n - 1);
    }
  }

  /** One nibble, then the bits above it. */
  lemma {:induction false} NibbleStep(s: nat, n: nat)
    ensures Bits(s, n, 16) == ShiftRight(s, n) - 16 * ShiftRight(s, n + 4) < 16
    decreases n
  {
    if n == 0 {
      ShiftRight4(s);
    } else {
      NibbleStep(s / 2, n - 1);
    }
  }

  /** The head or the top address bits survive in the device register. */
  lemma DeviceNibble(nibble: nat, flags: nat)
    requires nibble < 16 && (flags == 0 || flags == 0x10 || flags == 0x40 || flags == 0x50)
    ensures Bits(DH_DEFAULT + nibble + flags, 0, 16) == nibble
  {
  }

  lemma Bit4(x: nat)
    ensures Bits(x, 4, 2) == x / 2 / 2 / 2 / 2 % 2
  {
    assert Bits(x, 4, 2) == Bits(x / 2, 3, 2) == Bits(x / 2 / 2, 2, 2);
    assert Bits(x / 2 / 2, 2, 2) == Bits(x / 2 / 2 / 2, 1, 2) == Bits(x / 2 / 2 / 2 / 2, 0, 2);
  }

  lemma Bit6(x: nat)
    ensures Bits(x, 6, 2) == x / 2 / 2 / 2 / 2 / 2 / 2 % 2
  {
    Bit4(x / 2 / 2);
    assert Bits(x, 6, 2) == Bits(x / 2, 5, 2) == Bits(x / 2 / 2, 4, 2);
  }

  /** The drive and the kind of address that the device register selects. */
  lemma DeviceBits(device: nat, nibble: nat, slave: nat, lba: nat, base: nat)
    requires device == base + nibble + slave + lba && (base == DH_DEFAULT || base == 0) && nibble < 16
    requires (slave == 0 || slave == 0x10) && (lba == 0 || lba == 0x40)
    ensures Bits(device, 4, 2) == 1 <==> slave == 0x10
    ensures Bits(device, 6, 2) == 1 <==> lba == 0x40
  {
    Bit4(device);
    Bit6(device);
  }

  lemma Powers()
    ensures Pow2(16) == 0x1_0000 && Pow2(28) == TWO28 && Pow2(48) == TWO48
  {
    Pow2Add(8, 8);
    Pow2Add(12, 16);
    Pow2Add(28, 20);
    Pow2Add(10, 10);
    assert Pow2(8) == 256 && Pow2(12) == 4096 && Pow2(10) == 1024;
  }

  lemma Sum28(x0: int, x1: int, x2: int, x3: int, x4: int, b0: int, b1: int, b2: int, b3: int)
    requires b0 == x0 - 256 * x1 && b1 == x1 - 256 * x2 && b2 == x2 - 256 * x3 && b3 == x3 - 16 * x4
    ensures b0 + 0x100 * b1 + 0x1_0000 * b2 + 0x100_0000 * b3 == x0 - TWO28 * x4
  {
  }

  lemma Lba28Is(g: Geometry, slave: nat, s: nat)
    requires slave == 0 || slave == 0x10
    ensures Decoded(g, Loaded(Lba28Command(slave, s))) == Read(slave == 0x10, s - TWO28 * ShiftRight(s, 28), 1)
  {
    Lba28Address(slave, s);
    DeviceBits(Lba28Command(slave, s).device, Bits(s, 24, 16), slave, DH_LBA, DH_DEFAULT);
  }

  lemma Lba28Address(slave: nat, s: nat)
    requires slave == 0 || slave == 0x10
    ensures Lba28Sector(Loaded(Lba28Command(slave, s))) == s - TWO28 * ShiftRight(s, 28) && Bits(s, 24, 16) < 16
  {
    NibbleStep(s, 24);
    DeviceNibble(Bits(s, 24, 16), slave + DH_LBA);
    ByteStep(s, 0);
    ByteStep(s, 8);
    ByteStep(s, 16);
    Sum28(s, ShiftRight(s, 8), ShiftRight(s, 16), ShiftRight(s, 24), ShiftRight(s, 28),
          Bits(s, 0, 256), Bits(s, 8, 256), Bits(s, 16, 256), Bits(s, 24, 16));
  }

  lemma Lba28Range(s: nat)
    ensures s - TWO28 * ShiftRight(s, 28) == s <==> s < TWO28
  {
    Powers();
    ShiftRightBound(s, 28, 1);
  }

  /** 28-bit addressing reaches the sector exactly when it has no more than 28 bits. */
  lemma Lba28Exact(g: Geometry, slave: nat, sector: nat)
    requires slave == 0 || slave == 0x10
    ensures Decoded(g, Loaded(Lba28Command(slave, sector % WORD))) == Read(slave == 0x10, sector, 1) <==> sector < TWO28
  {
    var s := sector % WORD;
    Lba28Is(g, slave, s);
    Lba28Range(s);
    Lba28Whole(Decoded(g, Loaded(Lba28Command(slave, s))), slave == 0x10, s, sector);
  }

  lemma Lba28Whole(r: Request, second: bool, s: nat, sector: nat)
    requires s == sector % WORD && r == Read(second, s - TWO28 * ShiftRight(s, 28), 1)
    requires s - TWO28 * ShiftRight(s, 28) == s <==> s < TWO28
    ensures r == Read(second, sector, 1) <==> sector < TWO28
  {
  }

  lemma Lba48Is(g: Geometry, slave: nat, sector: nat)
    requires slave == 0 || slave == 0x10
    ensures Decoded(g, Loaded(Lba48Command(slave, sector))) == Read(slave == 0x10, sector - TWO48 * ShiftRight(sector, 48), 1)
  {
    Lba48Address(slave, sector);
    DeviceBits(Lba48Command(slave, sector).device, 0, slave, DH_LBA, 0);
  }

  lemma Lba48Address(slave: nat, sector: nat)
    ensures Lba48Sector(Loaded(Lba48Command(slave, sector))) == sector - TWO48 * ShiftRight(sector, 48)
  {
    ByteStep(sector, 0);
    ByteStep(sector, 8);
    ByteStep(sector, 16);
    ByteStep(sector, 24);
    ByteStep(sector, 32);
    ByteStep(sector, 40);
  }

  /** 48-bit addressing reaches the sector exactly when it has no more than 48 bits. */
  lemma Lba48Exact(g: Geometry, slave: nat, sector: nat)
    requires slave == 0 || slave == 0x10
    ensures Decoded(g, Loaded(Lba48Command(slave, sector))) == Read(slave == 0x10, sector, 1) <==> sector < TWO48
  {
    Lba48Is(g, slave, sector);
    Powers();
    ShiftRightBound(sector, 48, 1);
  }

  /** CHS addressing reaches the sector exactly when sector, head and cylinder fit their fields. */
  lemma ChsExact(g: Geometry, slave: nat, sector: nat)
    requires g.sectorsPerTrack > 0 && g.heads > 0 && (slave == 0 || slave == 0x10)
    ensures Decoded(g, Loaded(ChsCommand(g, slave, sector))) == Read(slave == 0x10, sector, 1) <==>
            && sector % g.sectorsPerTrack < 255 && sector / g.sectorsPerTrack % g.heads < 16
            && sector / g.sectorsPerTrack / g.heads < 0x1_0000
  {
    ChsIs(g, slave, sector);
    ChsAddressExact(g, slave, sector);
  }

  lemma ChsIs(g: Geometry, slave: nat, sector: nat)
    requires g.sectorsPerTrack > 0 && g.heads > 0 && (slave == 0 || slave == 0x10)
    ensures var tf := Loaded(ChsCommand(g, slave, sector)); Decoded(g, tf) == Read(slave == 0x10, ChsSector(g, tf), 1)
  {
    var head := sector / g.sectorsPerTrack % g.heads;
    NibbleStep(head, 0);
    DeviceBits(ChsCommand(g, slave, sector).device, Bits(head, 0, 16), slave, 0, DH_DEFAULT);
  }

  lemma ChsAddressExact(g: Geometry, slave: nat, sector: nat)
    requires g.sectorsPerTrack > 0 && g.heads > 0 && (slave == 0 || slave == 0x10)
    ensures ChsSector(g, Loaded(ChsCommand(g, slave, sector))) == sector <==>
            && sector % g.sectorsPerTrack < 255 && sector / g.sectorsPerTrack % g.heads < 16
            && sector / g.sectorsPerTrack / g.heads < 0x1_0000
  {
    var spt, h := g.sectorsPerTrack, g.heads;
    DivMod(sector, spt);
    var track := sector / spt;
    DivMod(track, h);
    var cyl, head, o := track / h, track % h, sector % spt;
    ChsFields(g, slave, cyl, head, 1 + o, Loaded(ChsCommand(g, slave, sector)));
    ChsCompare(cyl, head, o, h, spt);
  }

  lemma ChsFields(g: Geometry, slave: nat, cyl: nat, head: nat, offset: nat, tf: TaskFile)
    requires slave == 0 || slave == 0x10
    requires tf.lbaLow.current == Bits(offset, 0, 256) && tf.lbaMid.current == Bits(cyl, 0, 256)
    requires tf.lbaHigh.current == Bits(cyl, 8, 256) && tf.device == DH_DEFAULT + Bits(head, 0, 16) + slave
    ensures ChsSector(g, tf) == ChsAddress(g, Low16(cyl), head % 16, offset % 256)
  {
    CylinderBytes(cyl);
    DeviceNibble(Bits(head, 0, 16), slave);
    assert tf.lbaMid.current + 0x100 * tf.lbaHigh.current == Low16(cyl);
  }

  lemma CylinderBytes(cyl: nat)
    ensures Bits(cyl, 0, 256) + 0x100 * Bits(cyl, 8, 256) == Low16(cyl)
  {
    ByteStep(cyl, 0);
    ByteStep(cyl, 8);
  }

  /** The cylinder that two registers can hold. */
  function Low16(c: nat): int {
    c - 0x1_0000 * ShiftRight(c, 16)
  }

  lemma Low16Range(c: nat)
    ensures 0 <= Low16(c) <= c && (Low16(c) == c <==> c < 0x1_0000)
  {
    Powers();
    ShiftRightBound(c, 16, ShiftRight(c, 16));
    ShiftRightBound(c, 16, 1);
  }

  lemma ChsCompare(cyl: nat, head: nat, o: nat, h: nat, spt: nat)
    requires h > 0 && spt > 0
    ensures (Low16(cyl) * h + head % 16) * spt + (o + 1) % 256 - 1 == (cyl * h + head) * spt + o <==>
            o < 255 && head < 16 && cyl < 0x1_0000
  {
    Low16Range(cyl);
    Below(Low16(cyl), cyl, head % 16, head, h, spt);
  }

  lemma Below(c: nat, cyl: nat, hd: nat, head: nat, h: nat, spt: nat)
    requires c <= cyl && hd <= head && h > 0 && spt > 0
    ensures (c * h + hd) * spt <= (cyl * h + head) * spt
    ensures c < cyl || hd < head ==> (c * h + hd) * spt < (cyl * h + head) * spt
  {
    MulMono(c, cyl, h);
    if c < cyl {
      MulMono(c + 1, cyl, h);
    }
    var x, y := c * h + hd, cyl * h + head;
    MulMono(x, y, spt);
    if x < y {
      MulMono(x + 1, y, spt);
    }
  }
}
