/**
  The Secure Hash Algorithm of FIPS PUB 180-1 as a function of the message, and the streaming
  implementation that takes the message in pieces.
 */
module Sha1 {
  import opened Words

  const TWO61: nat := 0x2000_0000_0000_0000

  type Octet = bv8
  type Word = bv32

  // ----- the standard

  /** SHA1CircularShift */
  function Rotl(x: Word, n: bv6): Word
    requires 0 < n < 32
  {
    (x << n) | (x >> (32 - n))
  }

  /** The functions and constants of section 5. */
  function F(t: nat, b: Word, c: Word, d: Word): Word {
    if t < 20 then (b & c) | (!b & d)
    else if t < 40 then b ^ c ^ d
    else if t < 60 then (b & c) | (b & d) | (c & d)
    else b ^ c ^ d
  }

  function K(t: nat): Word {
    if t < 20 then 0x5A827999 else if t < 40 then 0x6ED9EBA1 else if t < 60 then 0x8F1BBCDC else 0xCA62C1D6
  }

  function BigEndian(b: seq<Octet>, i: nat): Word
    requires i + 4 <= |b|
  {
    (b[i] as Word << 24) | (b[i + 1] as Word << 16) | (b[i + 2] as Word << 8) | b[i + 3] as Word
  }

  /** The next word of section 7, steps a and b. */
  function NextWord(block: seq<Octet>, w: seq<Word>): Word
    requires |block| == 64
  {
    var t := |w|;
    if t < 16 then BigEndian(block, 4 * t)
    else Rotl(w[t - 3] ^ w[t - 8] ^ w[t - 14] ^ w[t - 16], 1)
  }

  function Schedule(block: seq<Octet>, n: nat): (w: seq<Word>)
    requires |block| == 64
    ensures |w| == n
    decreases n, |block|
  {
    if n == 0 then [] else Schedule(block, n - 1) + [NextWord(block, Schedule(block, n - 1))]
  }

  datatype Five = Five(a: Word, b: Word, c: Word, d: Word, e: Word)

  /** The sum of section 3, part c, of five words. */
  function Total(v: Word, w: Word, x: Word, y: Word, z: Word): Word {
    v + w + x + y + z
  }

  /** One step of section 7, step d. */
  function Step(s: Five, f: Word, w: Word, k: Word): Five {
    Five(Total(Rotl(s.a, 5), f, s.e, w, k), s.a, Rotl(s.b, 30), s.c, s.d)
  }

  function Round(t: nat, s: Five, w: Word): Five {
    Step(s, F(t, s.b, s.c, s.d), w, K(t))
  }

  function Rounds(s: Five, w: seq<Word>, t: nat): Five
    requires t <= |w|
    decreases t, |w|, 1
  {
    if t == 0 then s else AfterRound(s, w, t)
  }

  function AfterRound(s: Five, w: seq<Word>, t: nat): Five
    requires 0 < t <= |w|
    decreases t, |w|, 0
  {
    Round(t - 1, Rounds(s, w, t - 1), w[t - 1])
  }

  function Sum(h: Five, s: Five): Five {
    Five(h.a + s.a, h.b + s.b, h.c + s.c, h.d + s.d, h.e + s.e)
  }

  function Compress(h: Five, block: seq<Octet>): Five
    requires |block| == 64
  {
    Sum(h, Rounds(h, Schedule(block, 80), 80))
  }

  const INITIAL: Five := Five(0x67452301, 0xEFCDAB89, 0x98BADCFE, 0x10325476, 0xC3D2E1F0)

  /** The `n` blocks of a padded message, one after the other. */
  function Blocks(s: seq<Octet>, n: nat): Five
    requires |s| == 64 * n
    decreases n, |s|
  {
    if n == 0 then INITIAL else Compress(Blocks(s[..64 * (n - 1)], n - 1), s[64 * (n - 1)..])
  }

  /** Octet `k` of a word, from the top. */
  function OctetOf(w: Word, k: nat): Octet
    requires k < 4
  {
    var v := if k == 0 then w >> 24 else if k == 1 then w >> 16 else if k == 2 then w >> 8 else w;
    (v & 0xFF) as Octet
  }

  function WordBytes(w: Word): (r: seq<Octet>)
    ensures |r| == 4
  {
    [OctetOf(w, 0), OctetOf(w, 1), OctetOf(w, 2), OctetOf(w, 3)]
  }

  function Low8(n: nat): Octet {
    (n % 256) as Octet
  }

  /** One word of the length. */
  function LengthBytes(n: nat): (r: seq<Octet>)
    ensures |r| == 4
  {
    [Low8(n / 0x100_0000), Low8(n / 0x1_0000), Low8(n / 0x100), Low8(n)]
  }

  function Zeros(n: nat): (r: seq<Octet>)
    ensures |r| == n
  {
    seq(n, i => 0)
  }

  /** The number of zero bytes in the padding: as few as fill the last block. */
  function ZeroCount(n: nat): nat {
    if n % 64 <= 55 then 55 - n % 64 else 119 - n % 64
  }

  /** The number of blocks of the padded message. */
  function BlockCount(n: nat): nat {
    n / 64 + if n % 64 <= 55 then 1 else 2
  }

  lemma PaddingFits(n: nat)
    requires n < TWO61
    ensures n + 1 + ZeroCount(n) + 8 == 64 * BlockCount(n)
    ensures 8 * n / WORD < WORD
  {
  }

  /** The padding of section 4: a one bit, zeros, and the length in bits as two words. */
  function Padding(n: nat): (r: seq<Octet>)
    requires n < TWO61
    ensures n + |r| == 64 * BlockCount(n)
  {
    PaddingFits(n);
    [0x80] + Zeros(ZeroCount(n)) + LengthBytes(8 * n / WORD) + LengthBytes(8 * n % WORD)
  }

  function HashBytes(h: Five): (r: seq<Octet>)
    ensures |r| == 20
  {
    WordBytes(h.a) + WordBytes(h.b) + WordBytes(h.c) + WordBytes(h.d) + WordBytes(h.e)
  }

  /** The hash state at the end of a message. */
  function Final(message: seq<Octet>): Five
    requires |message| < TWO61
  {
    Blocks(message + Padding(|message|), BlockCount(|message|))
  }

  function Digest(message: seq<Octet>): (r: seq<Octet>)
    requires |message| < TWO61
    ensures |r| == 20
  {
    HashBytes(Final(message))
  }

  // ----- the implementation

  const SUCCESS: nat := 0
  const STATE_ERROR: nat := 3

  class Context {
    var hash: Five
    var lengthLow: nat
    var lengthHigh: nat
    var index: nat
    const block: array<Octet>
    var computed: bool
    var corrupted: nat

    ghost var message: seq<Octet>   // what has been accepted so far
    ghost var count: nat           // how many blocks of it have been compressed

    /** What the buffer holds. */
    ghost function Buffered(): seq<Octet>
      requires index <= block.Length
      reads this, block
    {
      block[..index]
    }

    ghost predicate Valid()
      reads this, block
    {
      && block.Length == 64 && index < 64
      && (corrupted == 0 && !computed ==>
            && Filling(hash, Buffered(), message, count) && |message| < TWO61
            && lengthHigh * WORD + lengthLow == 8 * |message| && lengthLow < WORD)
      && (corrupted == 0 && computed ==> |message| < TWO61 && hash == Final(message))
    }

    /** SHA1Reset */
    constructor ()
      ensures Valid() && corrupted == 0 && !computed && message == [] && fresh(block)
    {
      hash := INITIAL;
      lengthLow, lengthHigh, index := 0, 0, 0;
      block := new Octet[64];
      computed, corrupted := false, 0;
      message, count := [], 0;
    }

    /** SHA1ProcessMessageBlock: one compression. */
    method ProcessBlock()
      requires block.Length == 64
      modifies this`hash, this`index
      ensures hash == Compress(old(hash), block[..]) && index == 0
    {
      var w := ExpandBlock();
      var s := Mix(hash, w);
      hash := Sum(hash, s);
      index := 0;
    }

    /** The words of the message schedule. */
    method ExpandBlock() returns (w: array<Word>)
      requires block.Length == 64
      ensures fresh(w) && w[..] == Schedule(block[..], 80)
    {
      w := new Word[80];
      ghost var m := block[..];
      for t := 0 to 16
        invariant w[..t] == Schedule(m, t) && block[..] == m
      {
        w[t] := (block[t * 4] as Word << 24) | (block[t * 4 + 1] as Word << 16) | (block[t * 4 + 2] as Word << 8) | block[t * 4 + 3] as Word;
        assert w[t] == BigEndian(m, 4 * t);
        assert w[..t + 1] == w[..t] + [w[t]];
      }
      for t := 16 to 80
        invariant w[..t] == Schedule(m, t) && block[..] == m
      {
        w[t] := Rotl(w[t - 3] ^ w[t - 8] ^ w[t - 14] ^ w[t - 16], 1);
        assert w[..t + 1] == w[..t] + [w[t]];
      }
    }

    // ----- the stream of bytes that goes into the blocks

    /** One more byte in the buffer. */
    method Put(x: Octet)
      requires block.Length == 64 && index < 64
      modifies this`index, block
      ensures index == old(index) + 1 && Buffered() == old(Buffered()) + [x]
    {
      block[index] := x;
      index := index + 1;
    }

    /** Zeros up to index `stop`. */
    method PutZeros(stop: nat)
      requires block.Length == 64 && index <= stop <= 64
      modifies this`index, block
      ensures index == stop && Buffered() == old(Buffered()) + Zeros(stop - old(index))
    {
      ghost var was, from := Buffered(), index;
      while index < stop
        invariant from <= index <= stop && Buffered() == was + Zeros(index - from)
      {
        OneMoreZero(was, index - from);
        Put(0);
      }
    }

    /** A full buffer is compressed. */
    method Flush()
      requires block.Length == 64 && index == 64
      modifies this`hash, this`index
      ensures hash == Compress(old(hash), old(Buffered())) && index == 0
    {
      assert block[..] == Buffered();
      ProcessBlock();
    }

    /** One more byte of a stream `s`; a block that it fills is compressed. */
    method Accept(x: Octet, ghost s: seq<Octet>, ghost n: nat) returns (ghost n': nat)
      requires block.Length == 64 && index < 64 && Filling(hash, Buffered(), s, n)
      modifies this`hash, this`index, block
      ensures index < 64 && Filling(hash, Buffered(), s + [x], n')
    {
      FillsOn(hash, Buffered(), s, n, [x]);
      Put(x);
      n' := n;
      if index == 64 {
        Compresses(hash, Buffered(), s + [x], n);
        Flush();
        n' := n + 1;
      }
    }

    /** A stream goes on with zeros up to index `stop`. */
    method Extend(stop: nat, ghost s: seq<Octet>, ghost n: nat)
      requires block.Length == 64 && index <= stop <= 64 && Filling(hash, Buffered(), s, n)
      modifies this`index, block
      ensures index == stop && Filling(hash, Buffered(), s + Zeros(stop - old(index)), n)
    {
      FillsOn(hash, Buffered(), s, n, Zeros(stop - index));
      PutZeros(stop);
    }

    /** The first part of SHA1PadMessage: everything but the length. The stream is `s`, in `n` full blocks and the buffer. */
    method PadToLength() returns (ghost s: seq<Octet>, ghost n: nat)
      requires block.Length == 64 && index < 64 && Filling(hash, Buffered(), message, count)
      modifies this`hash, this`index, block
      ensures index == 56 && Filling(hash, Buffered(), s, n) && s == message + ([0x80] + Zeros(ZeroCount(|message|)))
    {
      ghost var i := index;
      IndexIs(|message|, count, i);
      PaddedSoFar(message, i);
      FillsOn(hash, Buffered(), message, count, [0x80]);
      if index > 55 {
        Put(0x80);
        s, n := PadOver(message + [0x80], count);
      } else {
        Put(0x80);
        Extend(56, message + [0x80], count);
        s, n := message + [0x80] + Zeros(55 - i), count;
      }
    }

    /** The zeros go over the end of a block. */
    method PadOver(ghost s: seq<Octet>, ghost n: nat) returns (ghost s': seq<Octet>, ghost n': nat)
      requires block.Length == 64 && index <= 64 && Filling(hash, Buffered(), s, n)
      modifies this`hash, this`index, block
      ensures index == 56 && Filling(hash, Buffered(), s', n') && s' == s + Zeros(64 - old(index)) + Zeros(56)
    {
      s', n' := s + Zeros(64 - index), n + 1;
      Extend(64, s, n);
      Compresses(hash, Buffered(), s', n);
      Flush();
      assert Buffered() == [];
      Extend(56, s', n');
      s' := s' + Zeros(56);
    }

    /** SHA1PadMessage: the last block or two. */
    method Pad()
      requires Valid() && corrupted == 0 && !computed
      modifies this`hash, this`index, block
      ensures hash == Final(message) && index == 0
    {
      LengthIs(|message|, lengthHigh, lengthLow);
      ghost var s, n := PadToLength();
      ghost var was := Buffered();
      StoreLength();
      PaddedStream(message, hash, was, s, n);
      ProcessBlock();
    }

    /** The length in the last eight bytes of the buffer. */
    method StoreLength()
      requires block.Length == 64 && index == 56 && lengthHigh < WORD && lengthLow < WORD
      modifies block
      ensures block[..] == old(Buffered()) + (LengthBytes(lengthHigh) + LengthBytes(lengthLow))
    {
      block[56] := Low8(lengthHigh / 0x100_0000);
      block[57] := Low8(lengthHigh / 0x1_0000);
      block[58] := Low8(lengthHigh / 0x100);
      block[59] := Low8(lengthHigh);
      block[60] := Low8(lengthLow / 0x100_0000);
      block[61] := Low8(lengthLow / 0x1_0000);
      block[62] := Low8(lengthLow / 0x100);
      block[63] := Low8(lengthLow);
    }

    // ----- the interface

    /** One byte of SHA1Input. */
    method Absorb(x: Octet)
      requires Valid() && corrupted == 0 && !computed
      modifies this`hash, this`index, this`lengthLow, this`lengthHigh, this`corrupted, this`message, this`count, block
      ensures Valid() && (corrupted == 0 || corrupted == 1)
      ensures corrupted == 0 <==> |old(message)| + 1 < TWO61
      ensures message == old(message) + [x]
    {
      CountByte(|message|);
      count := Accept(x, message, count);
      message := message + [x];
    }

    /** The length in bits, of `n` bytes so far, goes up by eight. */
    method CountByte(ghost n: nat)
      requires n < TWO61 && lengthHigh * WORD + lengthLow == 8 * n && lengthLow < WORD && corrupted == 0
      modifies this`lengthLow, this`lengthHigh, this`corrupted
      ensures (corrupted == 0 || corrupted == 1) && (corrupted == 0 <==> n + 1 < TWO61) && lengthLow < WORD
      ensures n + 1 < TWO61 ==> lengthHigh * WORD + lengthLow == 8 * (n + 1)
      ensures lengthLow == Wrapped(old(lengthLow) + 8)
      ensures lengthHigh == if lengthLow == 0 then Wrapped(old(lengthHigh) + 1) else old(lengthHigh)
      ensures corrupted == if lengthLow == 0 && lengthHigh == 0 then 1 else old(corrupted)
    {
      LengthStep(n, lengthHigh, lengthLow);
      lengthLow := Wrapped(lengthLow + 8);
      if lengthLow == 0 {
        lengthHigh := Wrapped(lengthHigh + 1);
        if lengthHigh == 0 {
          corrupted := 1;
        }
      }
    }

    /** SHA1Input: any piece of the message, in order. */
    method Input(data: seq<Octet>) returns (code: nat)
      requires Valid()
      modifies this, block
      ensures Valid() && computed == old(computed)
      ensures data == [] ==> code == SUCCESS && message == old(message) && corrupted == old(corrupted)
      ensures data != [] && old(computed) ==> code == corrupted == STATE_ERROR
      ensures data != [] && !old(computed) && old(corrupted) != 0 ==> code == corrupted == old(corrupted)
      ensures data != [] && !old(computed) && old(corrupted) == 0 ==>
                && code == SUCCESS
                && (corrupted == 0 <==> |old(message)| + |data| < TWO61)
                && (corrupted == 0 ==> message == old(message) + data)
    {
      if |data| == 0 {
        return SUCCESS;
      }
      if computed {
        corrupted := STATE_ERROR;
        return STATE_ERROR;
      }
      if corrupted != 0 {
        return corrupted;
      }
      var i := 0;
      while i < |data| && corrupted == 0
        invariant 0 <= i <= |data| && Valid() && !computed
        invariant if corrupted == 0 then |old(message)| + i < TWO61 else |old(message)| + i >= TWO61
        invariant corrupted == 0 ==> message == old(message) + data[..i]
      {
        Absorb(data[i]);
        assert data[..i + 1] == data[..i] + [data[i]];
        i := i + 1;
      }
      assert data[..|data|] == data;
      code := SUCCESS;
    }

    /** SHA1Result: the digest of everything put in, as often as it is asked for; nothing after an error. */
    method Result() returns (code: nat, digest: seq<Octet>)
      requires Valid()
      modifies this, block
      ensures Valid() && corrupted == old(corrupted) && message == old(message)
      ensures corrupted != 0 ==> code == corrupted && digest == [] && computed == old(computed)
      ensures corrupted == 0 ==> code == SUCCESS && computed && |message| < TWO61 && digest == Digest(message)
    {
      if corrupted != 0 {
        return corrupted, [];
      }
      if !computed {
        Pad();
        ClearBlock();
        lengthLow, lengthHigh, computed := 0, 0, true;
      }
      digest := Serialise(hash);
      code := SUCCESS;
    }

    method ClearBlock()
      requires block.Length == 64
      modifies block
    {
      for i := 0 to 64 {
        block[i] := 0;
      }
    }
  }

  /** The four loops of twenty rounds each. */
  method Mix(h: Five, w: array<Word>) returns (s: Five)
    requires w.Length == 80
    ensures s == Rounds(h, w[..], 80)
  {
    s := MixChoice(h, w);
    s := MixParity(h, w, s, 20, 0x6ED9EBA1);
    s := MixMajority(h, w, s);
    s := MixParity(h, w, s, 60, 0xCA62C1D6);
  }

  lemma RoundOn(h: Five, w: seq<Word>, t: nat, s: Five, f: Word, k: Word)
    requires t < |w| && s == Rounds(h, w, t) && f == F(t, s.b, s.c, s.d) && k == K(t)
    ensures Rounds(h, w, t + 1) == Step(s, f, w[t], k)
  {
    assert Rounds(h, w, t + 1) == AfterRound(h, w, t + 1);
  }

  method MixChoice(h: Five, w: array<Word>) returns (s: Five)
    requires w.Length == 80
    ensures s == Rounds(h, w[..], 20)
  {
    var a, b, c, d, e := h.a, h.b, h.c, h.d, h.e;
    for t := 0 to 20
      invariant Five(a, b, c, d, e) == Rounds(h, w[..], t)
    {
      RoundOn(h, w[..], t, Five(a, b, c, d, e), (b & c) | (!b & d), 0x5A827999);
      var temp := Total(Rotl(a, 5), (b & c) | (!b & d), e, w[t], 0x5A827999);
      e, d, c, b, a := d, c, Rotl(b, 30), a, temp;
    }
    s := Five(a, b, c, d, e);
  }

  method MixMajority(h: Five, w: array<Word>, s0: Five) returns (s: Five)
    requires w.Length == 80 && s0 == Rounds(h, w[..], 40)
    ensures s == Rounds(h, w[..], 60)
  {
    var a, b, c, d, e := s0.a, s0.b, s0.c, s0.d, s0.e;
    for t := 40 to 60
      invariant Five(a, b, c, d, e) == Rounds(h, w[..], t)
    {
      RoundOn(h, w[..], t, Five(a, b, c, d, e), (b & c) | (b & d) | (c & d), 0x8F1BBCDC);
      var temp := Total(Rotl(a, 5), (b & c) | (b & d) | (c & d), e, w[t], 0x8F1BBCDC);
      e, d, c, b, a := d, c, Rotl(b, 30), a, temp;
    }
    s := Five(a, b, c, d, e);
  }

  method MixParity(h: Five, w: array<Word>, s0: Five, from: nat, k: Word) returns (s: Five)
    requires w.Length == 80 && from <= 60 && s0 == Rounds(h, w[..], from) && ((from == 20 && k == 0x6ED9EBA1) || (from == 60 && k == 0xCA62C1D6))
    ensures s == Rounds(h, w[..], from + 20)
  {
    var a, b, c, d, e := s0.a, s0.b, s0.c, s0.d, s0.e;
    for t := from to from + 20
      invariant Five(a, b, c, d, e) == Rounds(h, w[..], t)
    {
      RoundOn(h, w[..], t, Five(a, b, c, d, e), b ^ c ^ d, k);
      var temp := Total(Rotl(a, 5), b ^ c ^ d, e, w[t], k);
      e, d, c, b, a := d, c, Rotl(b, 30), a, temp;
    }
    s := Five(a, b, c, d, e);
  }

  // ----- the digest in bytes

  function HashWord(h: Five, k: nat): Word {
    if k == 0 then h.a else if k == 1 then h.b else if k == 2 then h.c else if k == 3 then h.d else h.e
  }

  /** The loop at the end of SHA1Result. */
  method Serialise(h: Five) returns (digest: seq<Octet>)
    ensures digest == HashBytes(h)
  {
    digest := [];
    for i := 0 to 20
      invariant |digest| == i && digest == HashBytes(h)[..i]
    {
      HashByteAt(h, i);
      digest := digest + [OctetOf(HashWord(h, i / 4), i % 4)];
    }
  }

  lemma HashByteAt(h: Five, i: nat)
    requires i < 20
    ensures HashBytes(h)[i] == OctetOf(HashWord(h, i / 4), i % 4)
  {
    var k := i / 4;
    Fifth(WordBytes(h.a), WordBytes(h.b), WordBytes(h.c), WordBytes(h.d), WordBytes(h.e), i, WordBytes(HashWord(h, k)));
    Fourth(HashWord(h, k), i % 4);
  }

  lemma Fourth(w: Word, k: nat)
    requires k < 4
    ensures WordBytes(w)[k] == OctetOf(w, k)
  {
  }

  lemma Fifth(a: seq<Octet>, b: seq<Octet>, c: seq<Octet>, d: seq<Octet>, e: seq<Octet>, i: nat, part: seq<Octet>)
    requires |a| == |b| == |c| == |d| == |e| == 4 && i < 20
    requires part == if i / 4 == 0 then a else if i / 4 == 1 then b else if i / 4 == 2 then c else if i / 4 == 3 then d else e
    ensures (a + b + c + d + e)[i] == part[i % 4]
  {
  }

  // ----- lengths and blocks

  /** The stream `s` has been taken in up to the buffer: `n` blocks are compressed, the rest is `buffer`. */
  ghost predicate Filling(hash: Five, buffer: seq<Octet>, s: seq<Octet>, n: nat) {
    |s| == 64 * n + |buffer| && buffer == s[64 * n..] && hash == Blocks(s[..64 * n], n)
  }

  lemma FillsOn(hash: Five, buffer: seq<Octet>, s: seq<Octet>, n: nat, more: seq<Octet>)
    requires Filling(hash, buffer, s, n)
    ensures Filling(hash, buffer + more, s + more, n)
  {
    assert (s + more)[..64 * n] == s[..64 * n];
    assert (s + more)[64 * n..] == s[64 * n..] + more;
  }

  lemma Compresses(hash: Five, buffer: seq<Octet>, s: seq<Octet>, n: nat)
    requires Filling(hash, buffer, s, n) && |buffer| == 64
    ensures Filling(Compress(hash, buffer), [], s, n + 1)
  {
    assert s[..64 * (n + 1)] == s;
    assert s[64 * (n + 1)..] == [];
  }

  lemma OneMoreZero(s: seq<Octet>, k: nat)
    ensures s + Zeros(k) + [0] == s + Zeros(k + 1)
  {
  }

  lemma IndexIs(n: nat, count: nat, i: nat)
    requires i < 64 && n == 64 * count + i
    ensures n % 64 == i && ZeroCount(n) == if i > 55 then 119 - i else 55 - i
  {
  }

  /** Both ways of filling up with zeros give the padding without the length. */
  lemma PaddedSoFar(message: seq<Octet>, i: nat)
    requires i < 64 && ZeroCount(|message|) == if i > 55 then 119 - i else 55 - i
    ensures var p := message + ([0x80] + Zeros(ZeroCount(|message|)));
            if i > 55 then message + [0x80] + Zeros(63 - i) + Zeros(56) == p else message + [0x80] + Zeros(55 - i) == p
  {
  }

  /** The sum of two words that is less than twice 2^32, as a word. */
  function Wrapped(x: nat): nat {
    if x >= WORD then x - WORD else x
  }

  lemma LengthIs(n: nat, high: nat, low: nat)
    requires n < TWO61 && high * WORD + low == 8 * n && low < WORD
    ensures high == 8 * n / WORD && low == 8 * n % WORD && high < WORD
  {
    DivUnique(8 * n, WORD, high, low);
  }

  /** Counting one more byte; the counter wraps at 2^64 bits. */
  lemma LengthStep(n: nat, high: nat, low: nat)
    requires n < TWO61 && high * WORD + low == 8 * n && low < WORD
    ensures var low' := Wrapped(low + 8);
            var high' := if low' == 0 then Wrapped(high + 1) else high;
            && (low' == 0 && high' == 0 <==> n + 1 == TWO61)
            && (n + 1 < TWO61 ==> high' * WORD + low' == 8 * (n + 1)) && low' < WORD
  {
    var k := n - high * 0x2000_0000;
    assert low == 8 * k;
    assert low + 8 <= WORD;
  }

  /** The padded message ends in the block that is left in the buffer. */
  lemma PaddedStream(message: seq<Octet>, hash: Five, buffer: seq<Octet>, s: seq<Octet>, n: nat)
    requires |message| < TWO61 && s == message + ([0x80] + Zeros(ZeroCount(|message|)))
    requires Filling(hash, buffer, s, n) && |buffer| == 56
    ensures 8 * |message| / WORD < WORD
    ensures Final(message) == Compress(hash, buffer + (LengthBytes(8 * |message| / WORD) + LengthBytes(8 * |message| % WORD)))
  {
    PaddingFits(|message|);
    var tail := LengthBytes(8 * |message| / WORD) + LengthBytes(8 * |message| % WORD);
    var padded := message + Padding(|message|);
    assert padded == s + tail;
    FillsOn(hash, buffer, s, n, tail);
    Compresses(hash, buffer + tail, padded, n);
    assert padded[..64 * (n + 1)] == padded;
  }

  // ----- a whole run

  function Joined(pieces: seq<seq<Octet>>): seq<Octet> {
    if pieces == [] then [] else Joined(pieces[..|pieces| - 1]) + pieces[|pieces| - 1]
  }

  lemma {:induction false} JoinedLength(pieces: seq<seq<Octet>>, n: nat)
    requires n <= |pieces|
    ensures |Joined(pieces[..n])| <= |Joined(pieces)|
    decreases |pieces|
  {
    if n < |pieces| {
      var front := pieces[..|pieces| - 1];
      JoinedLength(front, n);
      assert front[..n] == pieces[..n];
    } else {
      assert pieces[..n] == pieces;
    }
  }

  /** However a message is cut into pieces, the digest is that of the whole; asking twice makes no difference. */
  method HashPieces(pieces: seq<seq<Octet>>) returns (digest: seq<Octet>)
    requires |Joined(pieces)| < TWO61
    ensures digest == Digest(Joined(pieces))
  {
    var c := new Context();
    for i := 0 to |pieces|
      invariant c.Valid() && fresh(c) && fresh(c.block) && c.corrupted == 0 && !c.computed && c.message == Joined(pieces[..i])
    {
      JoinedLength(pieces, i + 1);
      assert pieces[..i + 1][..i] == pieces[..i];
      var _ := c.Input(pieces[i]);
    }
    assert pieces[..|pieces|] == pieces;
    var code;
    code, digest := c.Result();
    ghost var once := digest;
    code, digest := c.Result();
    assert digest == once;
  }
}
