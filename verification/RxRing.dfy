/**
  The receive ring of the RTL8139: the chip puts frames into it, wrapping at its end and never
  overrunning the driver; rtl_poll takes them out.
 */
module RxRing {
  import opened Bytes
  import opened Words

  const RX_BUF_LEN: nat := 8192
  const ETH_ZLEN: nat := 60
  const ETH_FRAME_LEN: nat := 1514

  /** A frame as the chip stores it: its status word and its bytes, check sequence included. */
  datatype Frame = Frame(status: nat, data: seq<byte>)

  predicate FrameOk(f: Frame) {
    f.status < 0x1_0000 && |f.data| < 0x1_0000
  }

  /** RxBadSymbol, RxRunt, RxTooLong, RxCRCErr and RxBadAlign are bits 5 to 1. */
  predicate HasError(status: nat) {
    status / 2 % 32 != 0
  }

  /** Each of the five status bits that the driver names makes a frame bad, and nothing else does. */
  lemma ErrorBits(status: nat)
    ensures HasError(status) <==>
            Marked(status, 5) || Marked(status, 4) || Marked(status, 3) || Marked(status, 2) || Marked(status, 1)
  {
    var a := status / 2;
    var b, c, d, e := a / 2, a / 2 / 2, a / 2 / 2 / 2, a / 2 / 2 / 2 / 2;
    MarkedOn(status);
    FiveBits(a, b, c, d, e);
  }

  lemma MarkedOn(s: nat)
    ensures Marked(s, 1) == (s / 2 % 2 == 1) && Marked(s, 2) == (s / 2 / 2 % 2 == 1)
    ensures Marked(s, 3) == (s / 2 / 2 / 2 % 2 == 1) && Marked(s, 4) == (s / 2 / 2 / 2 / 2 % 2 == 1)
    ensures Marked(s, 5) == (s / 2 / 2 / 2 / 2 / 2 % 2 == 1)
  {
    assert Marked(s / 2 / 2 / 2, 2) == Marked(s / 2 / 2 / 2 / 2, 1);
    assert Marked(s, 3) == Marked(s / 2, 2);
    assert Marked(s, 4) == Marked(s / 2, 3) == Marked(s / 2 / 2, 2);
    assert Marked(s, 5) == Marked(s / 2, 4) == Marked(s / 2 / 2, 3) == Marked(s / 2 / 2 / 2, 2);
  }

  lemma FiveBits(a: nat, b: nat, c: nat, d: nat, e: nat)
    requires b == a / 2 && c == b / 2 && d == c / 2 && e == d / 2
    ensures a % 32 == a % 2 + 2 * (b % 2) + 4 * (c % 2) + 8 * (d % 2) + 16 * (e % 2)
  {
    LastBit(d, e, 2, 4);
    LastBit(c, d, 4, 8);
    LastBit(b, c, 8, 16);
    LastBit(a, b, 16, 32);
  }

  lemma LastBit(a: nat, h: nat, m: nat, n: nat)
    requires h == a / 2 && m > 0 && n == 2 * m
    ensures a % n == a % 2 + 2 * (h % m)
  {
    var q, r := h / m, h % m;
    DivMod(h, m);
    assert a == 2 * (q * m) + (2 * r + a % 2);
    DivUnique(a, n, q, 2 * r + a % 2);
  }

  /** What rtl_poll accepts. */
  predicate Acceptable(f: Frame) {
    !HasError(f.status) && ETH_ZLEN <= |f.data| <= ETH_FRAME_LEN + 4
  }

  function Header(f: Frame): (r: seq<byte>)
    requires FrameOk(f)
    ensures |r| == 4
  {
    [f.status % 256, f.status / 256, |f.data| % 256, |f.data| / 256]
  }

  /** The ring space of a frame: header and bytes, up to the next multiple of four. */
  function Span(f: Frame): nat {
    (|f.data| + 4 + 3) / 4 * 4
  }

  function Total(fs: seq<Frame>): nat {
    if fs == [] then 0 else Total(fs[..|fs| - 1]) + Span(fs[|fs| - 1])
  }

  /** The packet that is handed on: the frame without its check sequence. */
  function Packet(f: Frame): seq<byte> {
    if |f.data| >= 4 then f.data[..|f.data| - 4] else []
  }

  /** From absolute offset `at` on, the ring holds `bytes`. */
  ghost predicate InRing(ring: seq<byte>, at: nat, bytes: seq<byte>)
    requires |ring| == RX_BUF_LEN
  {
    forall i {:trigger bytes[i]} :: 0 <= i < |bytes| ==> ring[(at + i) % RX_BUF_LEN] == bytes[i]
  }

  /** The pending frames lie in the ring one after the other. */
  ghost predicate Holds(ring: seq<byte>, at: nat, fs: seq<Frame>)
    requires |ring| == RX_BUF_LEN
  {
    fs != [] ==>
      && FrameOk(fs[|fs| - 1])
      && InRing(ring, at + Total(fs[..|fs| - 1]), Header(fs[|fs| - 1]) + fs[|fs| - 1].data)
      && Holds(ring, at, fs[..|fs| - 1])
  }

  // ----- arithmetic of the ring

  lemma ModShift(x: nat, k: nat, m: nat)
    requires m > 0
    ensures (x + m * k) % m == x % m
  {
    DivUnique(x + m * k, m, x / m + k, x % m);
  }

  /** Offsets less than one ring length apart do not meet. */
  lemma PlacesDiffer(x: nat, y: nat)
    requires x < y < x + RX_BUF_LEN
    ensures x % RX_BUF_LEN != y % RX_BUF_LEN
  {
  }

  lemma SpanFacts(f: Frame)
    ensures Span(f) % 4 == 0 && |f.data| + 4 <= Span(f) < |f.data| + 8
  {
  }

  /** What is in front of frame `k`. */
  lemma {:induction false} TotalFirst(fs: seq<Frame>)
    requires fs != []
    ensures Total(fs) == Span(fs[0]) + Total(fs[1..])
    decreases |fs|
  {
    var n := |fs| - 1;
    if n == 0 {
      assert fs[..0] == [] && fs[1..] == [];
    } else {
      TotalFirst(fs[..n]);
      assert fs[..n][1..] == fs[1..][..n - 1];
      assert fs[1..][n - 1] == fs[n];
    }
  }

  // ----- the chip

  /** `bytes` written from absolute offset `at` on. */
  function Written(ring: seq<byte>, at: nat, bytes: seq<byte>): (r: seq<byte>)
    requires |ring| == RX_BUF_LEN
    ensures |r| == RX_BUF_LEN
  {
    if bytes == [] then ring
    else Written(ring, at, bytes[..|bytes| - 1])[(at + |bytes| - 1) % RX_BUF_LEN := bytes[|bytes| - 1]]
  }

  lemma {:induction false} WrittenIn(ring: seq<byte>, at: nat, bytes: seq<byte>)
    requires |ring| == RX_BUF_LEN && |bytes| <= RX_BUF_LEN
    ensures InRing(Written(ring, at, bytes), at, bytes)
    decreases |bytes|
  {
    if bytes != [] {
      var n := |bytes| - 1;
      var front := bytes[..n];
      WrittenIn(ring, at, front);
      forall i | 0 <= i < |bytes| ensures Written(ring, at, bytes)[(at + i) % RX_BUF_LEN] == bytes[i] {
        if i < n {
          PlacesDiffer(at + i, at + n);
          assert front[i] == bytes[i];
        }
      }
    }
  }

  lemma {:induction false} WrittenElsewhere(ring: seq<byte>, at: nat, bytes: seq<byte>, x: nat)
    requires |ring| == RX_BUF_LEN && x < at && at + |bytes| <= x + RX_BUF_LEN
    ensures Written(ring, at, bytes)[x % RX_BUF_LEN] == ring[x % RX_BUF_LEN]
    decreases |bytes|
  {
    if bytes != [] {
      WrittenElsewhere(ring, at, bytes[..|bytes| - 1], x);
      PlacesDiffer(x, at + |bytes| - 1);
    }
  }

  /** Frames that are pending are not touched. */
  lemma {:induction false} HoldsFrame(ring: seq<byte>, at: nat, fs: seq<Frame>, to: nat, bytes: seq<byte>)
    requires |ring| == RX_BUF_LEN && Holds(ring, at, fs)
    requires at + Total(fs) <= to && to + |bytes| <= at + RX_BUF_LEN
    ensures Holds(Written(ring, to, bytes), at, fs)
    decreases |fs|
  {
    if fs != [] {
      var n := |fs| - 1;
      var f := fs[n];
      SpanFacts(f);
      HoldsFrame(ring, at, fs[..n], to, bytes);
      var start, all := at + Total(fs[..n]), Header(f) + f.data;
      forall i | 0 <= i < |all| ensures Written(ring, to, bytes)[(start + i) % RX_BUF_LEN] == all[i] {
        WrittenElsewhere(ring, to, bytes, start + i);
      }
    }
  }

  /** Without its first frame, the rest lies behind it. */
  lemma {:induction false} HoldsRest(ring: seq<byte>, at: nat, fs: seq<Frame>)
    requires |ring| == RX_BUF_LEN && fs != [] && Holds(ring, at, fs)
    ensures FrameOk(fs[0]) && InRing(ring, at, Header(fs[0]) + fs[0].data)
    ensures Holds(ring, at + Span(fs[0]), fs[1..])
    decreases |fs|
  {
    var n := |fs| - 1;
    if n == 0 {
      assert fs[..0] == [] && fs[1..] == [];
      assert Total([]) == 0;
    } else {
      var front := fs[..n];
      HoldsRest(ring, at, front);
      assert front[1..] == fs[1..][..n - 1] && fs[1..][n - 1] == fs[n];
      TotalFirst(front);
    }
  }

  // ----- what rtl_poll reads

  /** The position in the ring is the same whether computed from the wrapped or the absolute offset. */
  lemma SamePlace(rd: nat, cur: nat)
    requires cur == rd % WORD && rd % 4 == 0
    ensures cur % RX_BUF_LEN == rd % RX_BUF_LEN && rd % RX_BUF_LEN % 4 == 0 && rd % RX_BUF_LEN <= RX_BUF_LEN - 4
    ensures cur % 4 == 0
  {
    var k, m := rd / WORD, rd / 4;
    assert rd == cur + WORD * k && rd == 4 * m;
    ModShift(cur, 0x8_0000 * k, RX_BUF_LEN);
    var q := rd / RX_BUF_LEN;
    Multiple4(rd % RX_BUF_LEN, m - 2048 * q);
    Multiple4(cur, m - 0x4000_0000 * k);
  }

  lemma Multiple4(x: nat, k: int)
    requires x == 4 * k
    ensures x % 4 == 0
  {
  }

  lemma PlaceOf(rd: nat, i: nat)
    requires i < RX_BUF_LEN
    ensures var ro := rd % RX_BUF_LEN;
            (rd + i) % RX_BUF_LEN == if ro + i < RX_BUF_LEN then ro + i else ro + i - RX_BUF_LEN
  {
    var q, ro := rd / RX_BUF_LEN, rd % RX_BUF_LEN;
    assert rd + i == RX_BUF_LEN * q + (ro + i);
    if ro + i < RX_BUF_LEN {
      DivUnique(rd + i, RX_BUF_LEN, q, ro + i);
    } else {
      DivUnique(rd + i, RX_BUF_LEN, q + 1, ro + i - RX_BUF_LEN);
    }
  }

  lemma HeaderRead(ring: seq<byte>, rd: nat, f: Frame)
    requires |ring| == RX_BUF_LEN && FrameOk(f) && InRing(ring, rd, Header(f) + f.data)
    requires rd % RX_BUF_LEN <= RX_BUF_LEN - 4
    ensures Le16(ring, rd % RX_BUF_LEN) == f.status && Le16(ring, rd % RX_BUF_LEN + 2) == |f.data|
  {
    var ro, all := rd % RX_BUF_LEN, Header(f) + f.data;
    forall i | 0 <= i < 4 ensures ring[ro + i] == all[i] {
      PlaceOf(rd, i);
    }
    assert ring[ro] == all[0] && ring[ro + 1] == all[1] && ring[ro + 2] == all[2] && ring[ro + 3] == all[3];
  }

  /** The bytes behind the header, in one piece or in two. */
  function CopyOut(ring: seq<byte>, ro: nat, size: nat): seq<byte>
    requires |ring| == RX_BUF_LEN && ro <= RX_BUF_LEN - 4 && 4 <= size <= ETH_FRAME_LEN + 4
  {
    if ro + 4 + size - 4 > RX_BUF_LEN then
      var semi := RX_BUF_LEN - ro - 4;
      ring[ro + 4..RX_BUF_LEN] + ring[..size - 4 - semi]
    else ring[ro + 4..ro + 4 + (size - 4)]
  }

  lemma CopyIsPacket(ring: seq<byte>, rd: nat, f: Frame)
    requires |ring| == RX_BUF_LEN && FrameOk(f) && InRing(ring, rd, Header(f) + f.data)
    requires rd % RX_BUF_LEN <= RX_BUF_LEN - 4 && 4 <= |f.data| <= ETH_FRAME_LEN + 4
    ensures CopyOut(ring, rd % RX_BUF_LEN, |f.data|) == Packet(f)
  {
    var ro, all := rd % RX_BUF_LEN, Header(f) + f.data;
    var copy, packet := CopyOut(ring, ro, |f.data|), Packet(f);
    assert |copy| == |packet|;
    forall i | 0 <= i < |packet| ensures copy[i] == packet[i] {
      PlaceOf(rd, 4 + i);
      assert all[4 + i] == packet[i];
    }
  }

  function Packets(fs: seq<Frame>): seq<seq<byte>> {
    if fs == [] then [] else Packets(fs[..|fs| - 1]) + [Packet(fs[|fs| - 1])]
  }

  lemma {:induction false} PacketsFirst(fs: seq<Frame>)
    requires fs != []
    ensures Packets(fs) == [Packet(fs[0])] + Packets(fs[1..])
    decreases |fs|
  {
    var n := |fs| - 1;
    if n == 0 {
      assert fs[..0] == [] && fs[1..] == [];
    } else {
      PacketsFirst(fs[..n]);
      assert fs[..n][1..] == fs[1..][..n - 1] && fs[1..][n - 1] == fs[n];
    }
  }

  lemma PacketsSnoc(fs: seq<Frame>, f: Frame)
    ensures Packets(fs + [f]) == Packets(fs) + [Packet(f)]
  {
    assert (fs + [f])[..|fs|] == fs;
  }

  lemma HoldsSnoc(ring: seq<byte>, at: nat, fs: seq<Frame>, f: Frame)
    requires |ring| == RX_BUF_LEN && Holds(ring, at, fs) && FrameOk(f) && InRing(ring, at + Total(fs), Header(f) + f.data)
    ensures Holds(ring, at, fs + [f]) && Total(fs + [f]) == Total(fs) + Span(f)
  {
    assert (fs + [f])[..|fs|] == fs;
  }

  lemma Stored(ring: seq<byte>, rd: nat, pending: seq<Frame>, f: Frame)
    requires |ring| == RX_BUF_LEN && Holds(ring, rd, pending) && FrameOk(f) && Total(pending) + Span(f) <= RX_BUF_LEN
    ensures Holds(Written(ring, rd + Total(pending), Header(f) + f.data), rd, pending + [f])
    ensures Total(pending + [f]) == Total(pending) + Span(f)
  {
    var to, all := rd + Total(pending), Header(f) + f.data;
    SpanFacts(f);
    HoldsFrame(ring, rd, pending, to, all);
    WrittenIn(ring, to, all);
    HoldsSnoc(Written(ring, to, all), rd, pending, f);
  }

  lemma Logged(delivered: seq<seq<byte>>, pending: seq<Frame>, received: seq<Frame>, f: Frame)
    requires delivered + Packets(pending) == Packets(received)
    ensures delivered + Packets(pending + [f]) == Packets(received + [f])
  {
    PacketsSnoc(pending, f);
    PacketsSnoc(received, f);
  }

  class Nic {
    var ring: seq<byte>
    var empty: bool                      // the chip's RxBufEmpty flag
    var curRx: nat
    var packet: seq<byte>

    var rd: nat                          // the chip's side: the offset of the first pending frame, never wrapped,
    var pending: seq<Frame>              // and the frames in the ring
    ghost var received: seq<Frame>       // frames that the chip has put into the ring since the last reset
    ghost var delivered: seq<seq<byte>>  // packets that the driver has handed on since then

    ghost predicate Valid()
      reads this
    {
      && |ring| == RX_BUF_LEN && curRx == rd % WORD && rd % 4 == 0
      && Holds(ring, rd, pending) && Total(pending) <= RX_BUF_LEN && (empty <==> pending == [])
      && delivered + Packets(pending) == Packets(received)
    }

    constructor ()
      ensures Valid() && pending == [] && received == []
    {
      ring := Zeros(RX_BUF_LEN);
      empty, curRx, packet := true, 0, [];
      rd, pending, received, delivered := 0, [], [], [];
    }

    /** The chip receives a frame and has room for it. */
    method Receive(f: Frame)
      requires Valid() && FrameOk(f) && Total(pending) + Span(f) <= RX_BUF_LEN
      modifies this
      ensures Valid() && pending == old(pending) + [f] && received == old(received) + [f]
      ensures delivered == old(delivered) && curRx == old(curRx) && packet == old(packet)
    {
      Stored(ring, rd, pending, f);
      Logged(delivered, pending, received, f);
      ring := Written(ring, rd + Total(pending), Header(f) + f.data);
      empty := false;
      pending, received := pending + [f], received + [f];
    }

    /** rtl_reset: both sides start over with an empty ring. */
    method Reset()
      requires |ring| == RX_BUF_LEN
      modifies this
      ensures Valid() && pending == [] && received == [] && delivered == [] && curRx == 0
    {
      curRx, empty := 0, true;
      rd, pending, received, delivered := 0, [], [], [];
    }

    /**
      rtl_poll: an acceptable frame is handed on byte for byte without its check sequence, and the
      next one is at hand; anything else resets the chip.
     */
    method Poll(retrieve: bool) returns (r: nat)
      requires Valid()
      modifies this
      ensures Valid()
      ensures old(pending) == [] ==> r == 0 && pending == [] && delivered == old(delivered) && received == old(received)
      ensures old(pending) != [] && !retrieve ==>
                r == 1 && pending == old(pending) && delivered == old(delivered) && received == old(received)
      ensures old(pending) != [] && retrieve && Acceptable(old(pending)[0]) ==>
                && r == 1 && packet == Packet(old(pending)[0]) && pending == old(pending)[1..]
                && delivered == old(delivered) + [packet] && received == old(received)
      ensures old(pending) != [] && retrieve && !Acceptable(old(pending)[0]) ==>
                r == 0 && pending == [] && received == [] && curRx == 0
    {
      if empty {
        return 0;
      }
      if !retrieve {
        return 1;
      }
      ghost var f := pending[0];
      HoldsRest(ring, rd, pending);
      SamePlace(rd, curRx);
      HeaderRead(ring, rd, f);
      var ringOffs := curRx % RX_BUF_LEN;
      var rxStatus, rxSize := Le16(ring, ringOffs), Le16(ring, ringOffs + 2);
      if HasError(rxStatus) || rxSize < ETH_ZLEN || rxSize > ETH_FRAME_LEN + 4 {
        Reset();
        return 0;
      }
      CopyIsPacket(ring, rd, f);
      if ringOffs + 4 + rxSize - 4 > RX_BUF_LEN {
        var semi := RX_BUF_LEN - ringOffs - 4;
        packet := ring[ringOffs + 4..RX_BUF_LEN];
        packet := packet + ring[..rxSize - 4 - semi];
      } else {
        packet := ring[ringOffs + 4..ringOffs + 4 + (rxSize - 4)];
      }
      Advance(rxSize);
      r := 1;
    }

    /** Step over the first frame. */
    method Advance(rxSize: nat)
      requires Valid() && pending != [] && rxSize == |pending[0].data| && packet == Packet(pending[0])
      modifies this`curRx, this`empty, this`rd, this`pending, this`delivered
      ensures Valid() && pending == old(pending)[1..] && delivered == old(delivered) + [packet]
    {
      HoldsRest(ring, rd, pending);
      TotalFirst(pending);
      PacketsFirst(pending);
      StepOver(rd, curRx, pending[0]);
      curRx := (curRx + rxSize + 4 + 3) / 4 * 4 % WORD;
      rd, delivered := rd + Span(pending[0]), delivered + [packet];
      pending := pending[1..];
      empty := pending == [];
    }
  }

  lemma StepOver(rd: nat, cur: nat, f: Frame)
    requires cur == rd % WORD && rd % 4 == 0
    ensures (cur + |f.data| + 4 + 3) / 4 * 4 % WORD == (rd + Span(f)) % WORD && (rd + Span(f)) % 4 == 0
  {
    SamePlace(rd, cur);
    AlignOn(cur, |f.data| + 4 + 3, cur / 4);
    AlignOn(rd, |f.data| + 4 + 3, rd / 4);
    SameWord(rd, cur, Span(f));
  }

  /** Rounding up to a multiple of four, from a multiple of four on. */
  lemma AlignOn(cur: nat, x: nat, c: nat)
    requires cur == 4 * c
    ensures (cur + x) / 4 * 4 == cur + x / 4 * 4 && (cur + x / 4 * 4) % 4 == 0
  {
    var q, r := x / 4, x % 4;
    DivUnique(cur + x, 4, c + q, r);
    Multiple4(cur + q * 4, c + q);
  }

  lemma SameWord(rd: nat, cur: nat, n: nat)
    requires cur == rd % WORD
    ensures (cur + n) % WORD == (rd + n) % WORD
  {
    var k := rd / WORD;
    assert rd + n == cur + n + WORD * k;
    ModShift(cur + n, k, WORD);
  }

  // ----- whole runs

  datatype Event = Arrives(f: Frame) | Polls(retrieve: bool)

  /** The frames that arrive during a run. */
  function Arrivals(es: seq<Event>): seq<Frame> {
    if es == [] then [] else
      var e := es[|es| - 1];
      Arrivals(es[..|es| - 1]) + if e.Arrives? then [e.f] else []
  }

  /** A ring as a queue: the frames in it, and all packets handed on so far. */
  datatype Queue = Queue(pending: seq<Frame>, delivered: seq<seq<byte>>)

  predicate Room(q: Queue, f: Frame) {
    Total(q.pending) + Span(f) <= RX_BUF_LEN
  }

  /** A frame is queued if there is room for it; a bad frame at the head takes all others with it. */
  function Next(q: Queue, e: Event): Queue {
    match e
    case Arrives(f) => if Room(q, f) then q.(pending := q.pending + [f]) else q
    case Polls(retrieve) =>
      if !retrieve || q.pending == [] then q
      else if Acceptable(q.pending[0]) then Queue(q.pending[1..], q.delivered + [Packet(q.pending[0])])
      else q.(pending := [])
  }

  function Expected(es: seq<Event>): Queue {
    if es == [] then Queue([], []) else Next(Expected(es[..|es| - 1]), es[|es| - 1])
  }

  /**
    Frames of any kind arrive and the driver polls, in any order: what is handed on, across all wraps and resets,
    and what is left in the ring are what the queue says.
   */
  method Run(nic: Nic, es: seq<Event>) returns (delivered: seq<seq<byte>>)
    requires nic.Valid() && nic.pending == [] && nic.received == []
    requires forall i :: 0 <= i < |es| && es[i].Arrives? ==> FrameOk(es[i].f)
    modifies nic
    ensures nic.Valid() && nic.pending == Expected(es).pending && delivered == Expected(es).delivered
  {
    delivered := [];
    for i := 0 to |es|
      invariant nic.Valid() && Expected(es[..i]) == Queue(nic.pending, delivered)
    {
      assert es[..i + 1][..i] == es[..i];
      match es[i]
      case Arrives(f) =>
        if Total(nic.pending) + Span(f) <= RX_BUF_LEN {
          nic.Receive(f);
        }
      case Polls(retrieve) =>
        var r := nic.Poll(retrieve);
        if r == 1 && retrieve {
          delivered := delivered + [nic.packet];
        }
    }
    assert es[..|es|] == es;
  }

  // ----- what is lost

  /** The frames that rtl_poll accepts. */
  function Goods(fs: seq<Frame>): (r: seq<Frame>)
    ensures |r| <= |fs|
  {
    if fs == [] then [] else
      Goods(fs[..|fs| - 1]) + if Acceptable(fs[|fs| - 1]) then [fs[|fs| - 1]] else []
  }

  /** All good packets that the queue still accounts for. */
  function Kept(q: Queue): seq<seq<byte>> {
    q.delivered + Packets(Goods(q.pending))
  }

  /** How many good frames an event loses: one without room, or all that lie behind a bad one. */
  function LostBy(q: Queue, e: Event): nat {
    match e
    case Arrives(f) => if Acceptable(f) && !Room(q, f) then 1 else 0
    case Polls(retrieve) =>
      if retrieve && q.pending != [] && !Acceptable(q.pending[0]) then |Goods(q.pending[1..])| else 0
  }

  function Lost(es: seq<Event>): nat {
    if es == [] then 0 else Lost(es[..|es| - 1]) + LostBy(Expected(es[..|es| - 1]), es[|es| - 1])
  }

  lemma GoodsSnoc(fs: seq<Frame>, f: Frame)
    ensures Goods(fs + [f]) == Goods(fs) + if Acceptable(f) then [f] else []
  {
    assert (fs + [f])[..|fs|] == fs;
  }

  lemma {:induction false} GoodsFirst(fs: seq<Frame>)
    requires fs != []
    ensures Goods(fs) == (if Acceptable(fs[0]) then [fs[0]] else []) + Goods(fs[1..])
    decreases |fs|
  {
    var n := |fs| - 1;
    if n == 0 {
      assert fs[..0] == [] && fs[1..] == [];
      assert Goods([]) == [];
    } else {
      GoodsFirst(fs[..n]);
      assert fs[..n][1..] == fs[1..][..n - 1] && fs[1..][n - 1] == fs[n];
    }
  }

  lemma {:induction false} PacketsLength(fs: seq<Frame>)
    ensures |Packets(fs)| == |fs|
    decreases |fs|
  {
    if fs != [] {
      PacketsLength(fs[..|fs| - 1]);
    }
  }

  /** A frame that finds room is accounted for if it is good; any other changes nothing. */
  lemma KeptArrived(q: Queue, f: Frame)
    ensures Kept(Next(q, Arrives(f))) == Kept(q) + if Acceptable(f) && Room(q, f) then [Packet(f)] else []
  {
    var good := Goods(q.pending);
    GoodsSnoc(q.pending, f);
    PacketsSnoc(good, f);
    if Room(q, f) {
      if Acceptable(f) {
        assert q.delivered + (Packets(good) + [Packet(f)]) == Kept(q) + [Packet(f)];
      } else {
        assert good + [] == good;
      }
    }
  }

  /** A poll takes from the end what it loses. */
  lemma KeptPolled(q: Queue, retrieve: bool)
    ensures var q', n := Next(q, Polls(retrieve)), LostBy(q, Polls(retrieve));
            n <= |Kept(q)| && Kept(q') == Kept(q)[..|Kept(q)| - n]
  {
    if !retrieve || q.pending == [] {
      return;
    }
    var f, rest := q.pending[0], q.pending[1..];
    GoodsFirst(q.pending);
    PacketsLength(Goods(q.pending));
    assert Packets(Goods([])) == [];
    if Acceptable(f) {
      PacketsFirst(Goods(q.pending));
      assert Goods(q.pending)[1..] == Goods(rest);
    } else {
      assert Goods(q.pending) == Goods(rest);
    }
  }

  /** Good frames are delivered, pending or lost. */
  lemma {:induction false} FramesConserved(es: seq<Event>)
    ensures |Kept(Expected(es))| + Lost(es) == |Goods(Arrivals(es))|
    decreases |es|
  {
    if es != [] {
      var front, e := es[..|es| - 1], es[|es| - 1];
      FramesConserved(front);
      if e.Arrives? {
        KeptArrived(Expected(front), e.f);
        GoodsSnoc(Arrivals(front), e.f);
      } else {
        KeptPolled(Expected(front), e.retrieve);
        assert Arrivals(es) == Arrivals(front);
      }
    } else {
      assert Packets([]) == [];
    }
  }

  /** `a` is `b` with some elements left out. */
  predicate Within(a: seq<seq<byte>>, b: seq<seq<byte>>) {
    a == [] ||
    (b != [] && ((a[|a| - 1] == b[|b| - 1] && Within(a[..|a| - 1], b[..|b| - 1])) || Within(a, b[..|b| - 1])))
  }

  lemma {:induction false} WithinShorter(a: seq<seq<byte>>, b: seq<seq<byte>>, k: nat)
    requires Within(a, b) && k <= |a|
    ensures Within(a[..k], b)
    decreases |a| + |b|
  {
    if k == |a| {
      assert a[..k] == a;
    } else if a[|a| - 1] == b[|b| - 1] && Within(a[..|a| - 1], b[..|b| - 1]) {
      WithinShorter(a[..|a| - 1], b[..|b| - 1], k);
      assert a[..|a| - 1][..k] == a[..k];
    } else {
      WithinShorter(a, b[..|b| - 1], k);
    }
  }

  lemma WithinSnoc(a: seq<seq<byte>>, b: seq<seq<byte>>, x: seq<byte>)
    requires Within(a, b)
    ensures Within(a, b + [x]) && Within(a + [x], b + [x])
  {
    assert (b + [x])[..|b|] == b && (a + [x])[..|a|] == a;
  }

  /** Nothing is made up, repeated or reordered. */
  lemma {:induction false} InOrder(es: seq<Event>)
    ensures Within(Kept(Expected(es)), Packets(Goods(Arrivals(es))))
    decreases |es|
  {
    if es != [] {
      var front, e := es[..|es| - 1], es[|es| - 1];
      var q, all := Expected(front), Goods(Arrivals(front));
      InOrder(front);
      if e.Arrives? {
        ArrivedInOrder(q, Arrivals(front), e.f);
      } else {
        assert Arrivals(es) == Arrivals(front);
        PolledInOrder(q, Packets(all), e.retrieve);
      }
    } else {
      assert Packets([]) == [];
    }
  }

  lemma PolledInOrder(q: Queue, all: seq<seq<byte>>, retrieve: bool)
    requires Within(Kept(q), all)
    ensures Within(Kept(Next(q, Polls(retrieve))), all)
  {
    KeptPolled(q, retrieve);
    WithinShorter(Kept(q), all, |Kept(q)| - LostBy(q, Polls(retrieve)));
  }

  lemma ArrivedInOrder(q: Queue, arrived: seq<Frame>, f: Frame)
    requires Within(Kept(q), Packets(Goods(arrived)))
    ensures Within(Kept(Next(q, Arrives(f))), Packets(Goods(arrived + [f])))
  {
    var good := Goods(arrived);
    KeptArrived(q, f);
    GoodsSnoc(arrived, f);
    if Acceptable(f) {
      PacketsSnoc(good, f);
      WithinSnoc(Kept(q), Packets(good), Packet(f));
      assert Room(q, f) || Kept(q) + [] == Kept(q);
    } else {
      assert good + [] == good && Kept(q) + [] == Kept(q);
    }
  }

  lemma {:induction false} WithinLength(a: seq<seq<byte>>, b: seq<seq<byte>>)
    requires Within(a, b)
    ensures |a| <= |b| && (|a| == |b| ==> a == b)
    decreases |b|
  {
    if a != [] {
      if a[|a| - 1] == b[|b| - 1] && Within(a[..|a| - 1], b[..|b| - 1]) {
        WithinLength(a[..|a| - 1], b[..|b| - 1]);
        assert a == a[..|a| - 1] + [a[|a| - 1]];
        assert b == b[..|b| - 1] + [b[|b| - 1]];
      } else {
        WithinLength(a, b[..|b| - 1]);
      }
    }
  }

  ghost predicate LosesNone(es: seq<Event>, i: nat)
    requires i < |es|
  {
    LostBy(Expected(es[..i]), es[i]) == 0
  }

  /** No good frame comes when there is no room, and none lies behind a bad one that is polled. */
  ghost predicate NoLoss(es: seq<Event>) {
    forall i: nat {:trigger LosesNone(es, i)} :: i < |es| ==> LosesNone(es, i)
  }

  lemma LosesNoneFront(es: seq<Event>, n: nat, i: nat)
    requires i < n <= |es|
    ensures LosesNone(es[..n], i) <==> LosesNone(es, i)
  {
    assert es[..n][i] == es[i] && es[..n][..i] == es[..i];
  }

  lemma {:induction false} LostNothing(es: seq<Event>)
    ensures Lost(es) == 0 <==> NoLoss(es)
    decreases |es|
  {
    if es != [] {
      var n := |es| - 1;
      LostNothing(es[..n]);
      forall i: nat | i < n ensures LosesNone(es[..n], i) <==> LosesNone(es, i) {
        LosesNoneFront(es, n, i);
      }
      LosesLast(es, n);
      assert NoLoss(es) <==> NoLoss(es[..n]) && LosesNone(es, n);
    }
  }

  lemma LosesLast(es: seq<Event>, n: nat)
    requires n + 1 == |es|
    ensures Lost(es) == 0 <==> Lost(es[..n]) == 0 && LosesNone(es, n)
  {
  }

  /** Every good frame of a run is delivered in order or still pending exactly when no event loses one. */
  lemma AllDelivered(es: seq<Event>)
    ensures Kept(Expected(es)) == Packets(Goods(Arrivals(es))) <==> NoLoss(es)
  {
    FramesConserved(es);
    InOrder(es);
    LostNothing(es);
    PacketsLength(Goods(Arrivals(es)));
    WithinLength(Kept(Expected(es)), Packets(Goods(Arrivals(es))));
  }

  /** A bad frame takes a good one behind it along. */
  lemma GoodBehindBad(bad: Frame, good: Frame)
    requires !Acceptable(bad) && Acceptable(good) && Span(bad) + Span(good) <= RX_BUF_LEN
    ensures var es := [Arrives(bad), Arrives(good), Polls(true)]; Expected(es) == Queue([], []) && !NoLoss(es)
  {
    var es := [Arrives(bad), Arrives(good), Polls(true)];
    assert es[..2][..1][..0] == [] && es[..2][..1] == [es[0]] && es[..2] == [es[0], es[1]];
    assert Expected([]) == Queue([], []) && Total([]) == 0 && [bad][..0] == [];
    assert Expected(es[..1]) == Queue([bad], []);
    assert Expected(es[..2]) == Queue([bad] + [good], []);
    assert ([bad] + [good])[1..] == [good] && [good][..0] == [];
    assert Goods([good]) == [good];
    assert !LosesNone(es, 2);
  }
}
