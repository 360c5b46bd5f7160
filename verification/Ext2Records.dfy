/**
  Inodes and directory records as they are written: field after field, each a little-endian number of its width.
  Where a field lies follows from the widths of those before it. Parsing gives back what was written.
 */
module Ext2Records {
  import opened Bytes
  import opened Ext2Layout
  import opened Ext2Names
  import opened Words

  /** The first `n` fields of a record. */
  function Written(values: seq<nat>, widths: seq<nat>, n: nat): (r: seq<byte>)
    requires n <= |values| && n <= |widths|
    ensures |r| == Place(widths, n)
  {
    if n == 0 then [] else Written(values, widths, n - 1) + Little(values[n - 1], widths[n - 1])
  }

  /** Where field `n` starts. */
  function Place(widths: seq<nat>, n: nat): nat
    requires n <= |widths|
  {
    if n == 0 then 0 else Place(widths, n - 1) + widths[n - 1]
  }

  lemma {:induction false} FieldAt(values: seq<nat>, widths: seq<nat>, n: nat, k: nat, rest: seq<byte>)
    requires k < n <= |values| && n <= |widths|
    ensures Place(widths, k) + widths[k] <= Place(widths, n)
    ensures (Written(values, widths, n) + rest)[Place(widths, k)..Place(widths, k) + widths[k]] == Little(values[k], widths[k])
    decreases n
  {
    if k < n - 1 {
      var last := Little(values[n - 1], widths[n - 1]);
      FieldAt(values, widths, n - 1, k, last + rest);
      assert Written(values, widths, n) + rest == Written(values, widths, n - 1) + (last + rest);
    }
  }

  lemma LittleBytes(n: nat)
    ensures Little(n, 1) == [n % 256]
    ensures Little(n, 2) == [n % 256, n / 256 % 256]
    ensures Little(n, 4) == [n % 256, n / 256 % 256, n / 256 / 256 % 256, n / 256 / 256 / 256 % 256]
  {
    assert Little(n / 256 / 256 / 256, 1) == [n / 256 / 256 / 256 % 256];
    assert Little(n / 256 / 256, 2) == [n / 256 / 256 % 256] + Little(n / 256 / 256 / 256, 1);
    assert Little(n / 256, 3) == [n / 256 % 256] + Little(n / 256 / 256, 2);
  }

  lemma Le16Of(s: seq<byte>, i: nat, n: nat)
    requires i + 2 <= |s| && s[i..i + 2] == Little(n, 2) && n < 0x1_0000
    ensures Le16(s, i) == n
  {
    LittleBytes(n);
    assert s[i] == s[i..i + 2][0] && s[i + 1] == s[i..i + 2][1];
  }

  lemma Le32Of(s: seq<byte>, i: nat, n: nat)
    requires i + 4 <= |s| && s[i..i + 4] == Little(n, 4) && n < WORD
    ensures Le32(s, i) == n
  {
    LittleBytes(n);
    var t := s[i..i + 4];
    assert s[i] == t[0] && s[i + 1] == t[1] && s[i + 2] == t[2] && s[i + 3] == t[3];
  }

  // ----- inodes

  datatype DiskInode = DiskInode(
    mode: nat, uid: nat, size: nat, atime: nat, ctime: nat, mtime: nat, dtime: nat,
    gid: nat, links: nat, blocks: nat, flags: nat, osd1: nat, block: seq<nat>, rest: seq<byte>)

  function InodeWidths(): (w: seq<nat>)
    ensures |w| == 27 && forall i :: 12 <= i < 27 ==> w[i] == 4
  {
    [2, 2, 4, 4, 4, 4, 4, 2, 2, 4, 4, 4, 4, 4, 4, 4, 4, 4, 4, 4, 4, 4, 4, 4, 4, 4, 4]
  }

  predicate Fits(d: DiskInode) {
    && d.mode < 0x1_0000 && d.size < WORD && d.blocks < WORD && |d.block| == N_BLOCKS && |d.rest| == 28
    && forall i :: 0 <= i < N_BLOCKS ==> d.block[i] < WORD
  }

  function InodeValues(d: DiskInode): seq<nat> {
    [d.mode, d.uid, d.size, d.atime, d.ctime, d.mtime, d.dtime, d.gid, d.links, d.blocks, d.flags, d.osd1] + d.block
  }

  function InodeBytes(d: DiskInode): seq<byte>
    requires Fits(d)
  {
    Written(InodeValues(d), InodeWidths(), 27) + d.rest
  }

  /** The places of the fields that the reader looks at. */
  predicate Places(w: seq<nat>) {
    && |w| == 27 && Place(w, 0) == 0 && w[0] == 2 && Place(w, 2) == 4 && w[2] == 4 && Place(w, 9) == 28 && w[9] == 4
    && forall k :: 12 <= k < 27 ==> Place(w, k) == 4 * k - 8 && w[k] == 4
  }

  lemma InodePlaces(w: seq<nat>)
    requires w == InodeWidths()
    ensures Places(w)
  {
    assert w[..12] == [2, 2, 4, 4, 4, 4, 4, 2, 2, 4, 4, 4];
    assert w[0] == w[1] == w[7] == w[8] == 2 && w[2] == w[3] == w[4] == w[5] == w[6] == w[9] == w[10] == w[11] == 4;
    ScalarPlaces(w);
    PointerPlaces(w, 26);
  }

  lemma ScalarPlaces(w: seq<nat>)
    requires |w| >= 12 && w[0] == w[1] == w[7] == w[8] == 2
    requires w[2] == w[3] == w[4] == w[5] == w[6] == w[9] == w[10] == w[11] == 4
    ensures Place(w, 2) == 4 && Place(w, 9) == 28 && Place(w, 12) == 40
  {
    assert Place(w, 1) == 2;
    assert Place(w, 3) == 8;
    assert Place(w, 4) == 12;
    assert Place(w, 5) == 16;
    assert Place(w, 6) == 20;
    assert Place(w, 7) == 24;
    assert Place(w, 8) == 26;
    assert Place(w, 10) == 32;
    assert Place(w, 11) == 36;
  }

  lemma {:induction false} PointerPlaces(w: seq<nat>, n: nat)
    requires 12 <= n < 27 && |w| == 27 && Place(w, 12) == 40 && forall k :: 12 <= k < 27 ==> w[k] == 4
    ensures forall k :: 12 <= k <= n ==> Place(w, k) == 4 * k - 8
  {
    if n > 12 {
      PointerPlaces(w, n - 1);
      assert Place(w, n) == Place(w, n - 1) + w[n - 1];
    }
  }

  /** Field `k` of a record whose fields have been written one after the other. */
  lemma Field32(values: seq<nat>, w: seq<nat>, n: nat, k: nat, rest: seq<byte>, raw: seq<byte>)
    requires k < n <= |values| && n <= |w| && w[k] == 4 && values[k] < WORD && raw == Written(values, w, n) + rest
    ensures Place(w, k) + 4 <= |raw| && Le32(raw, Place(w, k)) == values[k]
  {
    FieldAt(values, w, n, k, rest);
    Le32Of(raw, Place(w, k), values[k]);
  }

  lemma Field16(values: seq<nat>, w: seq<nat>, n: nat, k: nat, rest: seq<byte>, raw: seq<byte>)
    requires k < n <= |values| && n <= |w| && w[k] == 2 && values[k] < 0x1_0000 && raw == Written(values, w, n) + rest
    ensures Place(w, k) + 2 <= |raw| && Le16(raw, Place(w, k)) == values[k]
  {
    FieldAt(values, w, n, k, rest);
    Le16Of(raw, Place(w, k), values[k]);
  }

  lemma Field8(values: seq<nat>, w: seq<nat>, n: nat, k: nat, rest: seq<byte>, raw: seq<byte>)
    requires k < n <= |values| && n <= |w| && w[k] == 1 && values[k] < 256 && raw == Written(values, w, n) + rest
    ensures Place(w, k) < |raw| && raw[Place(w, k)] as int == values[k]
  {
    var at := Place(w, k);
    FieldAt(values, w, n, k, rest);
    LittleBytes(values[k]);
    assert raw[at] == raw[at..at + 1][0];
  }

  lemma InodeFields(values: seq<nat>, w: seq<nat>, rest: seq<byte>, raw: seq<byte>)
    requires Places(w) && |values| == 27 && values[0] < 0x1_0000 && values[2] < WORD && values[9] < WORD
    requires (forall k :: 12 <= k < 27 ==> values[k] < WORD) && raw == Written(values, w, 27) + rest && |raw| == 128
    ensures Le16(raw, 0) == values[0] && Le32(raw, 4) == values[2] && Le32(raw, 28) == values[9]
    ensures forall k: nat {:trigger values[k]} :: 12 <= k < 27 ==> Le32(raw, 4 * k - 8) == values[k]
  {
    Field16(values, w, 27, 0, rest, raw);
    Field32(values, w, 27, 2, rest, raw);
    Field32(values, w, 27, 9, rest, raw);
    forall k: nat {:trigger values[k]} | 12 <= k < 27 ensures Le32(raw, 4 * k - 8) == values[k] {
      Field32(values, w, 27, k, rest, raw);
    }
  }

  lemma InodeLength(w: seq<nat>)
    requires Places(w)
    ensures Place(w, 27) == 100
  {
    assert Place(w, 26) == 96 && w[26] == 4;
  }

  /** An inode is read as it was written. */
  lemma InodeReadBack(d: DiskInode)
    requires Fits(d)
    ensures |InodeBytes(d)| == 128 && ParseInode(InodeBytes(d)) == Inode(d.mode, d.size, d.blocks, d.block)
  {
    var w, raw := InodeWidths(), InodeBytes(d);
    InodePlaces(w);
    InodeLength(w);
    var values := InodeValues(d);
    forall k | 12 <= k < 27 ensures values[k] < WORD {
      assert values[k] == d.block[k - 12];
    }
    InodeFields(values, w, d.rest, raw);
    var ip := ParseInode(raw);
    forall i: nat | i < N_BLOCKS ensures ip.block[i] == d.block[i] {
      assert values[12 + i] == d.block[i] && 4 * (12 + i) - 8 == 40 + 4 * i;
    }
    assert ip.block == d.block;
  }

  /** The inodes of a group stand in its table in the order of their numbers, which start at 1 and run on from group to group. */
  lemma InodeInTable(vol: Volume, g: nat, j: nat, d: DiskInode)
    requires vol.perGroup > 0 && g < |vol.tables| && j < vol.perGroup && g * vol.perGroup + j + 1 < 0x8000_0000 && Fits(d)
    requires var at := vol.tables[g] * vol.fs.bs + j * vol.inodeSize;
             at + 128 <= |vol.fs.image| && vol.fs.image[at..at + 128] == InodeBytes(d)
    ensures Known(vol, g * vol.perGroup + j + 1)
    ensures InodeOf(vol, g * vol.perGroup + j + 1) == Inode(d.mode, d.size, d.blocks, d.block)
  {
    DivUnique(g * vol.perGroup + j, vol.perGroup, g, j);
    InodeReadBack(d);
  }

  // ----- the text of a link in its inode

  lemma WordReadBack(raw: seq<byte>, o: nat)
    requires o + 4 <= |raw|
    ensures WordBytes(Le32(raw, o)) == raw[o..o + 4]
  {
    Digits(raw[o] as int, raw[o + 1] as int, raw[o + 2] as int, raw[o + 3] as int);
  }

  lemma Digits(a: nat, b: nat, c: nat, d: nat)
    requires a < 256 && b < 256 && c < 256 && d < 256
    ensures var w := a + 0x100 * b + 0x1_0000 * c + 0x100_0000 * d;
            w % 256 == a && w / 0x100 % 256 == b && w / 0x1_0000 % 256 == c && w / 0x100_0000 % 256 == d
  {
    var w := a + 0x100 * b + 0x1_0000 * c + 0x100_0000 * d;
    DivUnique(w, 0x100, b + 0x100 * c + 0x1_0000 * d, a);
    DivUnique(w, 0x1_0000, c + 0x100 * d, a + 0x100 * b);
    DivUnique(w, 0x100_0000, d, a + 0x100 * b + 0x1_0000 * c);
    DivUnique(b + 0x100 * c + 0x1_0000 * d, 256, c + 0x100 * d, b);
    DivUnique(c + 0x100 * d, 256, d, c);
  }

  lemma {:induction false} TextFrom(raw: seq<byte>, i: nat)
    requires |raw| == 128 && i <= N_BLOCKS
    ensures AllBytes(ParseInode(raw).block[i..]) == raw[40 + 4 * i..100]
    decreases N_BLOCKS - i
  {
    var ws := ParseInode(raw).block;
    if i < N_BLOCKS {
      TextFrom(raw, i + 1);
      WordReadBack(raw, 40 + 4 * i);
      assert ws[i..][0] == Le32(raw, 40 + 4 * i) && ws[i..][1..] == ws[i + 1..];
    }
  }

  /** The pointer fields of a fast link are its text as it lies on the disk. */
  lemma TextReadBack(raw: seq<byte>)
    requires |raw| == 128
    ensures AllBytes(ParseInode(raw).block) == raw[40..100]
  {
    TextFrom(raw, 0);
    assert ParseInode(raw).block[0..] == ParseInode(raw).block;
  }

  lemma {:induction false} CStringIs(s: seq<byte>, text: String, tail: seq<byte>)
    requires s == text + [0] + tail && 0 !in text
    ensures CString(s) == text
  {
    if text == [] {
      assert s[0] == 0;
    } else {
      assert s[0] == text[0] && s[1..] == text[1..] + [0] + tail;
      CStringIs(s[1..], text[1..], tail);
    }
  }

  /** A link of fewer than 60 bytes, without a zero in it, that is stored in its inode is read as it was written. */
  lemma LinkReadBack(raw: seq<byte>, text: String, tail: seq<byte>)
    requires |raw| == 128 && 0 !in text && raw[40..100] == text + [0] + tail
    ensures LinkText(ParseInode(raw)) == text
  {
    TextReadBack(raw);
    CStringIs(raw[40..100], text, tail);
  }

  // ----- directories

  datatype DiskRecord = DiskRecord(ino: nat, kind: nat, name: String, padding: seq<byte>)

  const RECORD_WIDTHS: seq<nat> := [4, 2, 1, 1]

  predicate RecordFits(vol: Volume, d: DiskRecord)
    requires vol.perGroup > 0
  {
    Numbered(vol, d.ino) && |d.name| < 256 && 8 + |d.name| + |d.padding| < 0x1_0000
  }

  function RecordValues(d: DiskRecord): seq<nat> {
    [d.ino, 8 + |d.name| + |d.padding|, |d.name|, d.kind]
  }

  function RecordBytes(d: DiskRecord): seq<byte> {
    Written(RecordValues(d), RECORD_WIDTHS, 4) + d.name + d.padding
  }

  function Directory(ds: seq<DiskRecord>): seq<byte> {
    if ds == [] then [] else RecordBytes(ds[0]) + Directory(ds[1..])
  }

  /** The inode of the first record with the name. */
  function FirstNamed(ds: seq<DiskRecord>, name: String): Option<nat> {
    if ds == [] then None else if ds[0].name == name then Some(ds[0].ino) else FirstNamed(ds[1..], name)
  }

  lemma RecordFields(values: seq<nat>, w: seq<nat>, rest: seq<byte>, raw: seq<byte>)
    requires |values| == |w| == 4 && w[0] == 4 && w[1] == 2 && w[2] == w[3] == 1 && raw == Written(values, w, 4) + rest
    requires values[0] < WORD && values[1] < 0x1_0000 && values[2] < 256
    ensures |raw| == 8 + |rest| && Le32(raw, 0) == values[0] && Le16(raw, 4) == values[1] && raw[6] as int == values[2]
    ensures raw[8..] == rest
  {
    assert Place(w, 1) == 4 && Place(w, 2) == 6 && Place(w, 4) == 8;
    Field32(values, w, 4, 0, rest, raw);
    Field16(values, w, 4, 1, rest, raw);
    Field8(values, w, 4, 2, rest, raw);
  }

  /** What the fields at the start of a record are. */
  lemma HeadReadBack(d: DiskRecord, vol: Volume, rest: seq<byte>)
    requires vol.perGroup > 0 && RecordFits(vol, d)
    ensures var r := RecordBytes(d) + rest;
            && |r| == 8 + |d.name| + |d.padding| + |rest| && Le32(r, 0) == d.ino && Le16(r, 4) == 8 + |d.name| + |d.padding|
            && r[6] as int == |d.name| && r[8..8 + |d.name|] == d.name
  {
    var r, tail := RecordBytes(d) + rest, d.name + d.padding + rest;
    assert r == Written(RecordValues(d), RECORD_WIDTHS, 4) + tail;
    RecordFields(RecordValues(d), RECORD_WIDTHS, tail, r);
    assert r[8..8 + |d.name|] == tail[..|d.name|] == d.name;
  }

  lemma RecordReadBack(d: DiskRecord, vol: Volume, before: seq<byte>, rest: seq<byte>, blk: seq<byte>)
    requires vol.perGroup > 0 && RecordFits(vol, d) && blk == before + RecordBytes(d) + rest
    ensures RecordOk(vol, blk, |before|) && Le32(blk, |before|) == d.ino && RecLen(blk, |before|) == |RecordBytes(d)|
    ensures forall name :: Matches(blk, |before|, Name(name)) <==> name == d.name
  {
    HeadReadBack(d, vol, rest);
    var r := RecordBytes(d) + rest;
    assert blk == before + r;
    forall i | 0 <= i < |r| ensures blk[|before| + i] == r[i] {
    }
    assert blk[|before| + 8..|before| + 8 + |d.name|] == r[8..8 + |d.name|];
  }

  /** A search in a directory block finds what was written there: the first record of that name. */
  lemma {:induction false} DirectoryReadBack(ds: seq<DiskRecord>, vol: Volume, before: seq<byte>, blk: seq<byte>, name: String)
    requires vol.perGroup > 0 && (forall d :: d in ds ==> RecordFits(vol, d)) && blk == before + Directory(ds)
    ensures RecordsOk(vol, blk, |before|) && FindIn(vol, blk, |before|, Name(name)) == FirstNamed(ds, name)
  {
    if ds != [] {
      var d, rest := ds[0], Directory(ds[1..]);
      assert blk == before + RecordBytes(d) + rest;
      RecordReadBack(d, vol, before, rest, blk);
      DirectoryReadBack(ds[1..], vol, before + RecordBytes(d), blk, name);
    }
  }

  // ----- paths

  /** Names with a separator between each two of them. */
  function Joined(names: seq<String>): String
    requires |names| > 0
  {
    if |names| == 1 then names[0] else names[0] + [SLASH] + Joined(names[1..])
  }

  ghost predicate ProperNames(names: seq<String>) {
    |names| > 0 && forall n :: n in names ==> n != [] && SLASH !in n
  }

  lemma {:induction false} SlashAt(name: String, rest: String)
    requires SLASH !in name
    ensures Slash(name) == |name| && Slash(name + [SLASH] + rest) == |name|
  {
    if name != [] {
      assert (name + [SLASH] + rest)[1..] == name[1..] + [SLASH] + rest;
      SlashAt(name[1..], rest);
    }
  }

  lemma {:induction false} JoinedReadBack(names: seq<String>)
    requires ProperNames(names)
    ensures Components(Joined(names)) == names && SkipSlash(Joined(names)) == Joined(names)
  {
    var name := names[0];
    assert name in names && name[0] in name;
    if |names| == 1 {
      SlashAt(name, []);
      assert name[..|name|] == name && names == [name];
    } else {
      var rest := names[1..];
      assert forall n :: n in rest ==> n in names;
      JoinedReadBack(rest);
      SlashAt(name, Joined(rest));
      var s := Joined(names);
      assert s == name + [SLASH] + Joined(rest);
      assert s[..|name|] == name && s[|name| + 1..] == Joined(rest);
    }
  }

  /** The tokeniser gives back the names that a path has been put together from, with or without a separator in front. */
  lemma PathReadBack(names: seq<String>)
    requires ProperNames(names)
    ensures Components(Joined(names)) == names && Components([SLASH] + Joined(names)) == names
  {
    JoinedReadBack(names);
    var s := Joined(names);
    assert ([SLASH] + s)[1..] == s;
    assert Component([SLASH] + s) == Component(s) && Remainder([SLASH] + s) == Remainder(s);
  }

  /** The upper four of the sixteen mode bits make a link. */
  lemma LinkMode(ip: Inode)
    requires ip.mode < 0x1_0000
    ensures IsLink(ip) <==> 0xA000 <= ip.mode < 0xB000
  {
  }
}
