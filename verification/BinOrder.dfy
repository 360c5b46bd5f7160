/**
  The order in which the chunks of one size leave the bins. A small bin is a stack: the chunk binned last is taken
  first. The chunks of one large size are a queue, although the tree member that is taken is replaced by its
  predecessor on the ring and newcomers are linked in behind it.
 */
module BinOrder {
  import opened Chunks
  import opened HeapState
  import opened Rings
  import LS = TreeBinState
  import S = SmallBins

  /** The order of the bins is well formed: each small bin has a header, and no ring lists a chunk twice. */
  ghost predicate OrderOk(o: Order) {
    && |o.small| == S.NSMALLBINS
    && (forall i {:trigger o.small[i]} :: 0 <= i < |o.small| ==> |o.small[i]| > 0 && o.small[i][0].Bin?)
    && (forall i {:trigger o.small[i]} :: 0 <= i < |o.small| ==> Distinct(o.small[i]) && AllChunks(o.small[i][1..]))
    && (forall s {:trigger o.large[s]} :: s in o.large ==> |o.large[s]| > 0 && Distinct(o.large[s]))
  }

  ghost predicate AllChunks(r: seq<S.Ref>) {
    forall x :: x in r ==> x.Chunk?
  }

  function Addr1(r: S.Ref): seq<Addr> {
    if r.Chunk? then [r.addr] else []
  }

  function Addrs(r: seq<S.Ref>): seq<Addr> {
    if r == [] then [] else Addr1(r[0]) + Addrs(r[1..])
  }

  function Reversed(q: seq<Addr>): seq<Addr> {
    if q == [] then [] else Reversed(q[1..]) + [q[0]]
  }

  /** A large ring from its oldest chunk on: the tree member, then the others against the direction of `fd`. */
  function ByAge(r: seq<Addr>): seq<Addr> {
    if r == [] then [] else [r[0]] + Reversed(r[1..])
  }

  /** The chunks of size `s` in the order in which they will be taken. */
  function Line(o: Order, s: nat): seq<Addr> {
    if s < MIN_LARGE_SIZE then (if s / 8 < |o.small| then Addrs(o.small[s / 8]) else [])
    else if s in o.large then ByAge(o.large[s]) else []
  }

  function Gone(q: seq<Addr>, x: Addr): seq<Addr> {
    if q == [] then [] else (if q[0] == x then [] else [q[0]]) + Gone(q[1..], x)
  }

  lemma {:induction false} GoneJoin(a: seq<Addr>, b: seq<Addr>, x: Addr)
    ensures Gone(a + b, x) == Gone(a, x) + Gone(b, x)
  {
    if a == [] {
      assert a + b == b;
    } else {
      assert (a + b)[1..] == a[1..] + b;
      GoneJoin(a[1..], b, x);
    }
  }

  lemma {:induction false} GoneAbsent(a: seq<Addr>, x: Addr)
    requires x !in a
    ensures Gone(a, x) == a
  {
    if a != [] {
      GoneAbsent(a[1..], x);
    }
  }

  lemma GoneFrom(a: seq<Addr>, b: seq<Addr>, x: Addr)
    requires x !in a && x !in b
    ensures Gone(a + [x] + b, x) == a + b
  {
    GoneJoin(a + [x], b, x);
    GoneJoin(a, [x], x);
    GoneAbsent(a, x);
    GoneAbsent(b, x);
    GoneOne(x);
    Empty(a, b);
  }

  lemma GoneOne(x: Addr)
    ensures Gone([x], x) == []
  {
    assert [x][1..] == [];
  }

  lemma Empty(a: seq<Addr>, b: seq<Addr>)
    ensures a + [] + b == a + b
  {
  }

  lemma {:induction false} ReversedJoin(a: seq<Addr>, b: seq<Addr>)
    ensures Reversed(a + b) == Reversed(b) + Reversed(a)
  {
    if a == [] {
      assert a + b == b;
    } else {
      assert (a + b)[1..] == a[1..] + b;
      ReversedJoin(a[1..], b);
    }
  }

  lemma {:induction false} ReversedElements(a: seq<Addr>, x: Addr)
    ensures x in Reversed(a) <==> x in a
  {
    if a != [] {
      ReversedElements(a[1..], x);
    }
  }

  lemma Associative(a: seq<Addr>, b: seq<Addr>, c: seq<Addr>)
    ensures a + b + c == a + (b + c)
  {
  }

  lemma {:induction false} AddrsJoin(a: seq<S.Ref>, b: seq<S.Ref>)
    ensures Addrs(a + b) == Addrs(a) + Addrs(b)
  {
    if a == [] {
      assert a + b == b;
    } else {
      assert (a + b)[1..] == a[1..] + b;
      AddrsJoin(a[1..], b);
      Associative(Addr1(a[0]), Addrs(a[1..]), Addrs(b));
    }
  }

  lemma {:induction false} AddrsElements(a: seq<S.Ref>, x: Addr)
    ensures x in Addrs(a) <==> S.Chunk(x) in a
  {
    if a != [] {
      AddrsElements(a[1..], x);
    }
  }

  /** A sequence around one of its elements. */
  lemma PartedAt<T>(r: seq<T>, x: T) returns (a: seq<T>, b: seq<T>)
    requires Distinct(r) && x in r
    ensures a == r[..Position(r, x)] && b == r[Position(r, x) + 1..] && r == a + [x] + b && x !in a && x !in b
  {
    var k := Position(r, x);
    a, b := r[..k], r[k + 1..];
  }

  // ----- a small bin is a stack

  lemma SmallComes(r: seq<S.Ref>, x: Addr)
    requires |r| > 0 && r[0].Bin?
    ensures Addrs(Inserted(r, S.Chunk(x))) == [x] + Addrs(r)
  {
    var header, rest := r[..1], r[1..];
    var r' := Inserted(r, S.Chunk(x));
    assert r == header + rest && r' == header + ([S.Chunk(x)] + rest);
    NoAddrs(header);
    AddrsJoin(header, rest);
    AddrsJoin(header, [S.Chunk(x)] + rest);
    AddrsJoin([S.Chunk(x)], rest);
    OneAddr(x);
  }

  lemma NoAddrs(r: seq<S.Ref>)
    requires |r| == 1 && r[0].Bin?
    ensures Addrs(r) == []
  {
    assert r[1..] == [];
  }

  lemma OneAddr(x: Addr)
    ensures Addrs([S.Chunk(x)]) == [x]
  {
    assert [S.Chunk(x)][1..] == [];
  }

  lemma SmallGoes(r: seq<S.Ref>, x: Addr)
    requires |r| > 0 && r[0].Bin? && Distinct(r) && S.Chunk(x) in r
    ensures Addrs(Without(r, S.Chunk(x))) == Gone(Addrs(r), x)
  {
    var a, b := PartedAt(r, S.Chunk(x));
    assert Without(r, S.Chunk(x)) == a + b;
    AddrsJoin(a, b);
    AddrsJoin(a + [S.Chunk(x)], b);
    AddrsJoin(a, [S.Chunk(x)]);
    OneAddr(x);
    AddrsElements(a, x);
    AddrsElements(b, x);
    GoneFrom(Addrs(a), Addrs(b), x);
  }

  lemma SmallFirst(r: seq<S.Ref>, x: Addr)
    requires |r| > 0 && r[0].Bin? && AllChunks(r[1..])
    ensures |r| > 1 && r[1] == S.Chunk(x) <==> Addrs(r) != [] && Addrs(r)[0] == x
  {
    if |r| > 1 {
      assert r[1] in r[1..];
      assert Addrs(r) == Addrs(r[1..]) && r[1..][0] == r[1];
    }
  }

  // ----- the chunks of a large size are a queue

  lemma LargeComes(r: seq<Addr>, x: Addr)
    requires |r| > 0
    ensures ByAge(Inserted(r, x)) == ByAge(r) + [x]
  {
    assert Inserted(r, x)[1..] == [x] + r[1..];
    ReversedJoin([x], r[1..]);
  }

  lemma LargeGoes(r: seq<Addr>, x: Addr)
    requires Distinct(r) && x in r
    ensures ByAge(Without(r, x)) == Gone(ByAge(r), x)
  {
    var a, b := PartedAt(r, x);
    if |r| == 1 {
      assert ByAge(r) == [x];
    } else if a == [] {
      TreeMemberGoes(r, b, x);
    } else {
      OtherGoes(r, a, b, x);
    }
  }

  /** The tree member goes, and its predecessor, the oldest of the others, leads. */
  lemma TreeMemberGoes(r: seq<Addr>, b: seq<Addr>, x: Addr)
    requires |r| > 1 && r == [x] + b && x !in b
    ensures ByAge(Without(r, x)) == Gone(ByAge(r), x)
  {
    var n := |b| - 1;
    assert r[1..] == b && b == b[..n] + [b[n]];
    assert Without(r, x) == [b[n]] + b[..n];
    ReversedJoin(b[..n], [b[n]]);
    assert ([b[n]] + b[..n])[1..] == b[..n];
    ReversedElements(b, x);
    GoneFrom([], Reversed(b), x);
    assert ByAge(r) == [] + [x] + Reversed(b);
  }

  lemma OtherGoes(r: seq<Addr>, a: seq<Addr>, b: seq<Addr>, x: Addr)
    requires |r| > 1 && a != [] && r == a + [x] + b && x !in a && x !in b && a == r[..Position(r, x)]
    ensures ByAge(Without(r, x)) == Gone(ByAge(r), x)
  {
    var c := a[1..];
    assert Without(r, x) == a + b && (a + b)[1..] == c + b && r[1..] == c + [x] + b;
    ReversedJoin(c, b);
    ReversedAround(c, b, x);
    ReversedElements(b, x);
    ReversedElements(c, x);
    GoneFrom([a[0]] + Reversed(b), Reversed(c), x);
    Regrouped(a[0], Reversed(b), x, Reversed(c));
  }

  lemma Regrouped(h: Addr, b: seq<Addr>, x: Addr, c: seq<Addr>)
    ensures [h] + (b + [x] + c) == [h] + b + [x] + c && [h] + (b + c) == [h] + b + c
  {
  }

  lemma ReversedAround(c: seq<Addr>, b: seq<Addr>, x: Addr)
    ensures Reversed(c + [x] + b) == Reversed(b) + [x] + Reversed(c)
  {
    ReversedJoin(c + [x], b);
    ReversedJoin(c, [x]);
    assert Reversed([x]) == [x];
    Associative(Reversed(b), [x], Reversed(c));
  }

  // ----- the bins as a whole

  /** The chunk that is taken is the one whose turn it is. */
  lemma FirstInLine(o: Order, x: Addr, s: nat)
    requires OrderOk(o)
    ensures First(o, x, s) <==> Line(o, s) != [] && Line(o, s)[0] == x
  {
    if s < MIN_LARGE_SIZE {
      SmallFirst(o.small[s / 8], x);
    }
  }

  /** A small chunk comes to the front of the line, a large one to its end; no other line changes. */
  lemma Comes(o: Order, x: Addr, s: nat, other: nat)
    requires OrderOk(o) && s % 8 == other % 8 == 0
    ensures Line(Put(o, x, s), other) ==
            if other != s then Line(o, other) else if s < MIN_LARGE_SIZE then [x] + Line(o, s) else Line(o, s) + [x]
  {
    if other == s {
      if s < MIN_LARGE_SIZE {
        SmallComes(o.small[s / 8], x);
      } else if s in o.large {
        LargeComes(o.large[s], x);
      }
    }
  }

  lemma InLine(o: Order, x: Addr, s: nat)
    requires OrderOk(o)
    ensures x in Line(o, s) <==> if s < MIN_LARGE_SIZE then S.Chunk(x) in o.small[s / 8] else s in o.large && x in o.large[s]
  {
    if s < MIN_LARGE_SIZE {
      AddrsElements(o.small[s / 8], x);
    } else if s in o.large {
      ReversedElements(o.large[s][1..], x);
      assert o.large[s] == [o.large[s][0]] + o.large[s][1..];
    }
  }

  /** A chunk leaves its line, wherever it stands; all others keep their places. */
  lemma Goes(o: Order, x: Addr, s: nat, other: nat)
    requires OrderOk(o) && s % 8 == other % 8 == 0 && x in Line(o, s)
    ensures Line(Drop(o, x, s), other) == if other != s then Line(o, other) else Gone(Line(o, s), x)
  {
    InLine(o, x, s);
    if other == s {
      if s < MIN_LARGE_SIZE {
        SmallGoes(o.small[s / 8], x);
      } else {
        LargeGoes(o.large[s], x);
      }
    }
  }

  // ----- the lines of a heap that is in order

  lemma SmallOrder(st: S.State, i: nat)
    requires S.Ok(st) && i < S.NSMALLBINS
    ensures |st.rings[i]| > 0 && st.rings[i][0].Bin? && Distinct(st.rings[i]) && AllChunks(st.rings[i][1..])
    ensures forall x :: S.Chunk(x) in st.rings[i] <==> x in st.sizes && st.sizes[x] == 8 * i
  {
    assert S.BinOk(st, i);
    var r := st.rings[i];
    if |r| > 1 {
      RingMeans(st.fd, st.bk, r);
    }
    forall x | x in r[1..] ensures x.Chunk? {
      var k :| 1 <= k < |r| && r[k] == x;
      assert S.RefOk(st, i, r[k]) && r[k] != r[0];
    }
    forall x ensures S.Chunk(x) in r <==> x in st.sizes && st.sizes[x] == 8 * i {
      if S.Chunk(x) in r {
        assert S.RefOk(st, i, S.Chunk(x));
      }
      if x in st.sizes && st.sizes[x] == 8 * i {
        assert S.ChunkOk(st, x);
      }
    }
  }

  lemma LargeOrder(st: LS.State, s: nat)
    requires LS.Ok(st)
    ensures s in st.rings ==> |st.rings[s]| > 0 && Distinct(st.rings[s])
    ensures forall x :: s in st.rings && x in st.rings[s] <==> x in st.node && st.node[x].size == s
  {
    if s in st.rings {
      assert LS.RingAt(st, s, st.rings[s]);
      RingMeans(st.fd, st.bk, st.rings[s]);
    }
    forall x ensures s in st.rings && x in st.rings[s] <==> x in st.node && st.node[x].size == s {
      if x in st.node {
        assert LS.ChunkOk(st, x);
      }
    }
  }

  /** The lines hold exactly the chunks `rest`, each in the line of its size. */
  ghost predicate LinesHold(o: Order, rest: map<Addr, nat>) {
    forall x: Addr, s: nat {:trigger x in Line(o, s)} :: s % 8 == 0 ==> (x in Line(o, s) <==> x in rest && rest[x] == s)
  }

  lemma LinesOk(small: S.State, large: LS.State, o: Order, rest: map<Addr, nat>)
    requires S.Ok(small) && LS.Ok(large) && o == Order(small.rings, large.rings)
    requires Parts(small.sizes, LS.ContentsOf(large), rest)
    ensures OrderOk(o) && LinesHold(o, rest)
  {
    forall i | 0 <= i < |o.small|
      ensures |o.small[i]| > 0 && o.small[i][0].Bin? && Distinct(o.small[i]) && AllChunks(o.small[i][1..])
    {
      SmallOrder(small, i);
    }
    forall s | s in o.large ensures |o.large[s]| > 0 && Distinct(o.large[s]) {
      LargeOrder(large, s);
    }
    forall x: Addr, s: nat {:trigger x in Line(o, s)} | s % 8 == 0 ensures x in Line(o, s) <==> x in rest && rest[x] == s {
      InLine(o, x, s);
      if s < MIN_LARGE_SIZE {
        SmallOrder(small, s / 8);
        assert x in small.sizes && small.sizes[x] == s <==> x in rest && rest[x] == s;
      } else {
        LargeOrder(large, s);
        assert x in LS.ContentsOf(large) && LS.ContentsOf(large)[x] == s <==> x in rest && rest[x] == s;
      }
    }
  }
}
