/**
  The small bins: 32 circular lists, one for each chunk size 8i, with a header in malloc_state
  and a bin map. Marked bins are non-empty rings; the links of an unmarked header are stale.
 */
module SmallBins {
  import opened Chunks
  import opened Rings
  import opened Words

  const NSMALLBINS: nat := 32

  /** What a link of a small bin points to: the header of a bin or a chunk. */
  datatype Ref = Bin(index: nat) | Chunk(addr: Addr)

  predicate IsSmall(s: nat) {
    s / 8 < NSMALLBINS
  }

  predicate SmallSize(s: nat) {
    MIN_CHUNK_SIZE <= s && s % 8 == 0 && IsSmall(s)
  }

  datatype State = State(
    fd: map<Ref, Ref>,
    bk: map<Ref, Ref>,
    smallmap: nat,
    rings: seq<seq<Ref>>,     // per bin, its header and then its chunks
    sizes: map<Addr, nat>)    // the binned chunks

  ghost predicate RefOk(st: State, i: nat, r: Ref) {
    r == Bin(i) || (r.Chunk? && r.addr in st.sizes && st.sizes[r.addr] == 8 * i)
  }

  ghost predicate BinOk(st: State, i: nat)
    requires i < |st.rings|
  {
    var ring := st.rings[i];
    && |ring| > 0 && ring[0] == Bin(i)
    && (Marked(st.smallmap, i) <==> |ring| > 1)
    && (|ring| > 1 ==> IsRing(st.fd, st.bk, ring))
    && forall r {:trigger RefOk(st, i, r)} :: r in ring ==> RefOk(st, i, r)
  }

  ghost predicate ChunkOk(st: State, a: Addr)
    requires |st.rings| == NSMALLBINS && a in st.sizes
  {
    SmallSize(st.sizes[a]) && Chunk(a) in st.rings[st.sizes[a] / 8]
  }

  ghost predicate Ok(st: State) {
    && |st.rings| == NSMALLBINS && st.smallmap < WORD
    && (forall i: nat {:trigger BinOk(st, i)} :: i < NSMALLBINS ==> BinOk(st, i))
    && (forall a {:trigger ChunkOk(st, a)} :: a in st.sizes ==> ChunkOk(st, a))
  }

  // ----- the order of the chunks

  /** The bins, each its header and then its chunks, once `x` of size `s` has come. */
  function With(rings: seq<seq<Ref>>, x: Addr, s: nat): seq<seq<Ref>> {
    if s / 8 < |rings| then rings[s / 8 := Inserted(rings[s / 8], Chunk(x))] else rings
  }

  /** The bins once `x` of size `s` has gone. */
  function Less(rings: seq<seq<Ref>>, x: Addr, s: nat): seq<seq<Ref>> {
    if s / 8 < |rings| then rings[s / 8 := Without(rings[s / 8], Chunk(x))] else rings
  }

  /** Chunk `x` is the first in the bin of size `s`. */
  predicate IsFirst(rings: seq<seq<Ref>>, x: Addr, s: nat) {
    s / 8 < |rings| && |rings[s / 8]| > 1 && rings[s / 8][1] == Chunk(x)
  }

  // ----- insertion

  /** `x` goes in between the header and the first chunk; an unmarked header counts as linked to itself. */
  function WithInserted(st: State, x: Addr, s: nat): State
    requires |st.rings| == NSMALLBINS && IsSmall(s)
    requires Marked(st.smallmap, s / 8) ==> Bin(s / 8) in st.fd
  {
    var b, p := Bin(s / 8), Chunk(x);
    var f := if Marked(st.smallmap, s / 8) then st.fd[b] else b;
    State(st.fd[b := p][p := f], st.bk[f := p][p := b], Mark(st.smallmap, s / 8),
          st.rings[s / 8 := Inserted(st.rings[s / 8], p)], st.sizes[x := s])
  }

  lemma InsertedBin(st: State, x: Addr, s: nat)
    requires Ok(st) && SmallSize(s) && x !in st.sizes
    ensures Marked(st.smallmap, s / 8) ==> Bin(s / 8) in st.fd && st.fd[Bin(s / 8)] in st.rings[s / 8]
    ensures BinOk(WithInserted(st, x, s), s / 8)
    ensures Chunk(x) in Inserted(st.rings[s / 8], Chunk(x))
    ensures forall r :: r in Inserted(st.rings[s / 8], Chunk(x)) <==> r in st.rings[s / 8] || r == Chunk(x)
  {
    var i, b, p := s / 8, Bin(s / 8), Chunk(x);
    assert BinOk(st, i);
    var ring := st.rings[i];
    assert p in ring ==> RefOk(st, i, p);
    MarkBits(st.smallmap, i, i);
    if Marked(st.smallmap, i) {
      InsertKeepsRing(st.fd, st.bk, ring, p);
    } else {
      assert ring == [b];
      SingletonRing(st.fd, st.bk, b);
      InsertKeepsRing(st.fd[b := b], st.bk[b := b], ring, p);
      assert st.fd[b := b][b := p][p := b] == st.fd[b := p][p := b];
      assert st.bk[b := b][b := p][p := b] == st.bk[b := p][p := b];
    }
    var st' := WithInserted(st, x, s);
    forall r {:trigger RefOk(st', i, r)} | r in st'.rings[i] ensures RefOk(st', i, r) {
      assert r in ring ==> RefOk(st, i, r);
    }
  }

  /** A bin whose chunks keep their links stays in order. */
  lemma OtherBin(st: State, st': State, i: nat, j: nat)
    requires |st.rings| == |st'.rings| == NSMALLBINS && i < NSMALLBINS && j < NSMALLBINS && i != j
    requires BinOk(st, i) && BinOk(st, j) && st'.rings[j] == st.rings[j]
    requires Marked(st'.smallmap, j) <==> Marked(st.smallmap, j)
    requires forall a :: a in st.sizes && st.sizes[a] != 8 * i ==> a in st'.sizes && st'.sizes[a] == st.sizes[a]
    requires forall r :: r !in st.rings[i] && r in st.fd && (r.Bin? || r.addr in st.sizes) ==> r in st'.fd && st'.fd[r] == st.fd[r]
    requires forall r :: r !in st.rings[i] && r in st.bk && (r.Bin? || r.addr in st.sizes) ==> r in st'.bk && st'.bk[r] == st.bk[r]
    ensures BinOk(st', j)
  {
    var ring := st.rings[j];
    forall r | r in ring ensures r !in st.rings[i] && RefOk(st', j, r) && (r.Bin? || r.addr in st.sizes) {
      assert RefOk(st, j, r);
      assert r in st.rings[i] ==> RefOk(st, i, r);
    }
    if |ring| > 1 {
      RingFrame(st.fd, st.bk, st'.fd, st'.bk, ring);
    }
  }

  lemma InsertedOk(st: State, x: Addr, s: nat)
    requires Ok(st) && SmallSize(s) && x !in st.sizes
    ensures Marked(st.smallmap, s / 8) ==> Bin(s / 8) in st.fd
    ensures Ok(WithInserted(st, x, s))
  {
    InsertedBin(st, x, s);
    var i, st' := s / 8, WithInserted(st, x, s);
    assert BinOk(st, i);
    forall j: nat | j < NSMALLBINS && j != i ensures BinOk(st', j) {
      MarkBits(st.smallmap, i, j);
      assert BinOk(st, j);
      OtherBin(st, st', i, j);
    }
    MarkBits(st.smallmap, i, i);
    forall a | a in st'.sizes ensures ChunkOk(st', a) {
      if a != x {
        assert ChunkOk(st, a);
      }
    }
  }

  // ----- removal

  /** `x` goes out; the last chunk only clears the mark. */
  function WithRemoved(st: State, x: Addr, s: nat): State
    requires |st.rings| == NSMALLBINS && IsSmall(s)
    requires Chunk(x) in st.fd && Chunk(x) in st.bk && Chunk(x) in st.rings[s / 8] && |st.rings[s / 8]| > 1
  {
    var i, p := s / 8, Chunk(x);
    var f, b := st.fd[p], st.bk[p];
    var rings := st.rings[i := Removed(st.rings[i], Position(st.rings[i], p))];
    if f == b then st.(smallmap := Clear(st.smallmap, i), rings := rings, sizes := st.sizes - {x})
    else st.(fd := st.fd[b := f], bk := st.bk[f := b], rings := rings, sizes := st.sizes - {x})
  }

  lemma Binned(st: State, x: Addr)
    requires Ok(st) && x in st.sizes
    ensures SmallSize(st.sizes[x]) && Chunk(x) in st.rings[st.sizes[x] / 8] && |st.rings[st.sizes[x] / 8]| > 1
    ensures Chunk(x) in st.fd && Chunk(x) in st.bk
    ensures st.fd[Chunk(x)] in st.rings[st.sizes[x] / 8] && st.bk[Chunk(x)] in st.rings[st.sizes[x] / 8]
    ensures Position(st.rings[st.sizes[x] / 8], Chunk(x)) > 0
    ensures st.fd[Chunk(x)] == st.bk[Chunk(x)] <==> |st.rings[st.sizes[x] / 8]| == 2
  {
    assert ChunkOk(st, x);
    var ring := st.rings[st.sizes[x] / 8];
    assert BinOk(st, st.sizes[x] / 8);
    RingLinks(st.fd, st.bk, ring, Position(ring, Chunk(x)));
  }

  lemma RemovedBin(st: State, x: Addr, s: nat)
    requires Ok(st) && x in st.sizes && s == st.sizes[x]
    ensures SmallSize(s) && Chunk(x) in st.fd && Chunk(x) in st.bk && Chunk(x) in st.rings[s / 8] && |st.rings[s / 8]| > 1
    ensures BinOk(WithRemoved(st, x, s), s / 8)
    ensures forall r :: r in WithRemoved(st, x, s).rings[s / 8] <==> r in st.rings[s / 8] && r != Chunk(x)
  {
    Binned(st, x);
    var i, p := s / 8, Chunk(x);
    assert BinOk(st, i);
    var ring := st.rings[i];
    RemoveKeepsRing(st.fd, st.bk, ring, Position(ring, p));
    ClearBits(st.smallmap, i, i);
    var st' := WithRemoved(st, x, s);
    forall r {:trigger RefOk(st', i, r)} | r in st'.rings[i] ensures RefOk(st', i, r) {
      assert RefOk(st, i, r);
    }
  }

  lemma RemovedOk(st: State, x: Addr, s: nat)
    requires Ok(st) && x in st.sizes && s == st.sizes[x]
    ensures SmallSize(s) && Chunk(x) in st.fd && Chunk(x) in st.bk && Chunk(x) in st.rings[s / 8] && |st.rings[s / 8]| > 1
    ensures Ok(WithRemoved(st, x, s))
  {
    Binned(st, x);
    RemovedBin(st, x, s);
    var i, st' := s / 8, WithRemoved(st, x, s);
    assert BinOk(st, i);
    forall j: nat | j < NSMALLBINS && j != i ensures BinOk(st', j) {
      ClearBits(st.smallmap, i, j);
      assert BinOk(st, j);
      OtherBin(st, st', i, j);
    }
    ClearBits(st.smallmap, i, i);
    forall a | a in st'.sizes ensures ChunkOk(st', a) {
      assert ChunkOk(st, a);
    }
  }

  /** The first chunk of a marked bin, and what stands around it. */
  lemma FirstChunk(st: State, i: nat)
    requires Ok(st) && i < NSMALLBINS && Marked(st.smallmap, i)
    ensures Bin(i) in st.fd && st.fd[Bin(i)].Chunk?
    ensures var x := st.fd[Bin(i)].addr;
            && x in st.sizes && st.sizes[x] == 8 * i && Chunk(x) in st.rings[i]
            && Chunk(x) in st.fd && Chunk(x) in st.bk && st.bk[Chunk(x)] == Bin(i)
    ensures |st.rings[i]| > 1 && st.rings[i][1] == st.fd[Bin(i)]
  {
    assert BinOk(st, i);
    var ring := st.rings[i];
    RingLinks(st.fd, st.bk, ring, 0);
    RingLinks(st.fd, st.bk, ring, 1);
    assert RefOk(st, i, ring[1]);
  }

  // ----- searching the bin map

  lemma AndOne(a: nat)
    ensures And(a, 1) == a % 2
  {
    AndNothing(a / 2);
  }

  lemma AndThree(a: nat)
    ensures And(a, 3) != 0 <==> Marked(a, 0) || Marked(a, 1)
  {
    AndOne(a / 2);
    assert And(a, 3) == 2 * And(a / 2, 1) + a % 2;
  }

  lemma ShiftRightSmaller(a: nat, k: nat)
    ensures ShiftRight(a, k) <= a
    decreases k
  {
    if k > 0 {
      ShiftRightSmaller(a / 2, k - 1);
    }
  }

  /** `smallbits & 3` looks at bin `idx` and the next one; `~smallbits & 1` moves to the next one if `idx` is empty. */
  lemma TwoBins(smallmap: nat, idx: nat)
    requires smallmap < WORD
    ensures var bits := ShiftRight(smallmap, idx);
            && bits < WORD
            && (And(bits, 3) != 0 <==> Marked(smallmap, idx) || Marked(smallmap, idx + 1))
            && And(Not(bits), 1) == if Marked(smallmap, idx) then 0 else 1
  {
    var bits := ShiftRight(smallmap, idx);
    ShiftRightSmaller(smallmap, idx);
    AndThree(bits);
    AndOne(Not(bits));
    MarkedShiftRight(smallmap, idx, 0);
    MarkedShiftRight(smallmap, idx, 1);
  }

  /** The map with the bits up to `idx` masked off, as dlmalloc computes it. */
  function LaterBits(smallmap: nat, idx: nat): nat
    requires smallmap < WORD && idx < 32
  {
    Pow2Word(idx);
    ShiftRightSmaller(smallmap, idx);
    And(ShiftLeft(ShiftRight(smallmap, idx), idx), LeftBits(Pow2(idx)))
  }

  lemma LaterBitsMarked(smallmap: nat, idx: nat, j: nat)
    requires smallmap < WORD && idx < 32 && j < 32
    ensures LaterBits(smallmap, idx) < WORD
    ensures Marked(LaterBits(smallmap, idx), j) <==> idx < j && Marked(smallmap, j)
  {
    WordIsPow2();
    ShiftRightSmaller(smallmap, idx);
    var bits := ShiftRight(smallmap, idx);
    MarkedShiftLeft(bits, idx, j);
    if j >= idx {
      MarkedShiftRight(smallmap, idx, j - idx);
    }
    LeftBitsOfBit(idx, j);
    AndRange(32, ShiftLeft(bits, idx), LeftBits(Pow2(idx)));
    MarkedAnd(ShiftLeft(bits, idx), LeftBits(Pow2(idx)), j);
  }

  /** A non-zero word has a mark. */
  lemma SomeMark(x: nat) returns (j: nat)
    requires 0 < x < WORD
    ensures j < 32 && Marked(x, j)
  {
    WordIsPow2();
    BsfMarked(32, x);
    j := Bsf(x);
  }

  /** The next non-empty bin after an empty one. */
  lemma NextMarked(smallmap: nat, idx: nat)
    requires smallmap < WORD && idx < 32 && !Marked(smallmap, idx) && ShiftRight(smallmap, idx) != 0
    ensures LaterBits(smallmap, idx) < WORD && LeastBit(LaterBits(smallmap, idx)) != 0
    ensures var i := Bsf(LeastBit(LaterBits(smallmap, idx)));
            idx < i < 32 && Marked(smallmap, i) && forall j: nat :: idx < j < i ==> !Marked(smallmap, j)
  {
    WordIsPow2();
    ShiftRightSmaller(smallmap, idx);
    var k := SomeMark(ShiftRight(smallmap, idx));
    MarkedShiftRight(smallmap, idx, k);
    if idx + k >= 32 {
      UnmarkedAbove(32, smallmap, idx + k);
    }
    var left := LaterBits(smallmap, idx);
    LaterBitsMarked(smallmap, idx, idx + k);
    MarkedZero(idx + k);
    FirstBin(left);
    var i := Bsf(LeastBit(left));
    LaterBitsMarked(smallmap, idx, i);
    forall j: nat | idx < j < i ensures !Marked(smallmap, j) {
      LaterBitsMarked(smallmap, idx, j);
    }
  }

  lemma NoneMarked(smallmap: nat, idx: nat, j: nat)
    requires ShiftRight(smallmap, idx) == 0 && idx <= j
    ensures !Marked(smallmap, j)
  {
    MarkedShiftRight(smallmap, idx, j - idx);
    MarkedZero(j - idx);
  }

  /** A binned chunk marks its bin. */
  lemma ChunkMarks(st: State, a: Addr)
    requires Ok(st) && a in st.sizes
    ensures SmallSize(st.sizes[a]) && Marked(st.smallmap, st.sizes[a] / 8)
  {
    Binned(st, a);
    assert BinOk(st, st.sizes[a] / 8);
  }

  class SmallBins {
    var fd: map<Ref, Ref>
    var bk: map<Ref, Ref>
    var smallmap: nat

    ghost var rings: seq<seq<Ref>>
    ghost var sizes: map<Addr, nat>

    ghost function St(): State
      reads this
    {
      State(fd, bk, smallmap, rings, sizes)
    }

    ghost predicate Valid()
      reads this
    {
      Ok(St())
    }

    /** The binned chunks with their sizes. */
    ghost function Contents(): map<Addr, nat>
      reads this
    {
      sizes
    }

    /** init_bins: every header is linked to itself. */
    constructor ()
      ensures Valid() && Contents() == map[] && rings == seq(NSMALLBINS, (i: nat) => [Bin(i)])
    {
      fd := map i: nat | i < NSMALLBINS :: Bin(i) := Bin(i);
      bk := map i: nat | i < NSMALLBINS :: Bin(i) := Bin(i);
      smallmap := 0;
      rings := seq(NSMALLBINS, (i: nat) => [Bin(i)]);
      sizes := map[];
      new;
      forall i: nat | i < NSMALLBINS ensures BinOk(St(), i) {
        MarkedZero(i);
      }
    }

    /** insert_small_chunk */
    method Insert(x: Addr, s: nat)
      requires Valid() && x !in Contents() && SmallSize(s)
      modifies this
      ensures Valid() && Contents() == old(Contents())[x := s] && rings == With(old(rings), x, s)
    {
      ghost var st := St();
      InsertedOk(st, x, s);
      var i := s / 8;
      var b := Bin(i);
      var f := b;
      if !Marked(smallmap, i) {
        smallmap := Mark(smallmap, i);
      } else {
        f := fd[b];
      }
      fd := fd[b := Chunk(x)];
      bk := bk[f := Chunk(x)];
      fd := fd[Chunk(x) := f];
      bk := bk[Chunk(x) := b];
      rings := rings[i := Inserted(rings[i], Chunk(x))];
      sizes := sizes[x := s];
      MarkAgain(st.smallmap, i);
      assert St() == WithInserted(st, x, s);
    }

    /** unlink_small_chunk */
    method Unlink(x: Addr, s: nat)
      requires Valid() && x in Contents() && s == Contents()[x]
      modifies this
      ensures Valid() && Contents() == old(Contents()) - {x} && rings == Less(old(rings), x, s)
    {
      ghost var st := St();
      RemovedOk(st, x, s);
      var p, i := Chunk(x), s / 8;
      var f, b := fd[p], bk[p];
      if f == b {
        smallmap := Clear(smallmap, i);
      } else {
        bk := bk[f := b];
        fd := fd[b := f];
      }
      rings := rings[i := Removed(rings[i], Position(rings[i], p))];
      sizes := sizes - {x};
      assert St() == WithRemoved(st, x, s);
    }

    /** unlink_first_small_chunk: take the first chunk of a non-empty bin. */
    method UnlinkFirst(i: nat) returns (x: Addr)
      requires Valid() && i < NSMALLBINS && Marked(smallmap, i)
      modifies this
      ensures x in old(Contents()) && old(Contents())[x] == 8 * i
      ensures Valid() && Contents() == old(Contents()) - {x}
      ensures IsFirst(old(rings), x, 8 * i) && rings == Less(old(rings), x, 8 * i)
    {
      ghost var st := St();
      FirstChunk(st, i);
      var b := Bin(i);
      var p := fd[b];
      x := p.addr;
      RemovedOk(st, x, 8 * i);
      var f := fd[p];
      if b == f {
        smallmap := Clear(smallmap, i);
      } else {
        fd := fd[b := f];
        bk := bk[f := b];
      }
      rings := rings[i := Removed(rings[i], Position(rings[i], p))];
      sizes := sizes - {x};
      assert St() == WithRemoved(st, x, 8 * i);
    }

    /** The bin of a remainderless fit: that of the size itself, or the next one. */
    method Remainderless(idx: nat) returns (found: bool, i: nat)
      requires Valid() && idx < NSMALLBINS
      ensures found ==> i < NSMALLBINS && Marked(smallmap, i) && idx <= i <= idx + 1
      ensures !found ==> forall a :: a in Contents() && 8 * idx <= Contents()[a] ==> 8 * idx + MIN_CHUNK_SIZE <= Contents()[a]
      ensures found ==> forall a :: a in Contents() && 8 * idx <= Contents()[a] ==> 8 * i <= Contents()[a]
      ensures !found ==> !Marked(smallmap, idx)
    {
      TwoBins(smallmap, idx);
      var smallbits := ShiftRight(smallmap, idx);
      found := And(smallbits, 3) != 0;
      i := idx + And(Not(smallbits), 1);
      WordIsPow2();
      UnmarkedAbove(32, smallmap, 32);
      forall a | a in Contents() ensures Marked(smallmap, Contents()[a] / 8) && Contents()[a] % 8 == 0 {
        ChunkMarks(St(), a);
      }
    }

    /** The smallest chunks that fit a request for which there is no remainderless fit. */
    method NextFit(idx: nat) returns (found: bool, i: nat)
      requires Valid() && idx < NSMALLBINS && !Marked(smallmap, idx)
      ensures found ==> idx < i < NSMALLBINS && Marked(smallmap, i)
      ensures found ==> forall a :: a in Contents() && 8 * idx <= Contents()[a] ==> 8 * i <= Contents()[a]
      ensures !found ==> forall a :: a in Contents() ==> Contents()[a] < 8 * idx
    {
      i := 0;
      var smallbits := ShiftRight(smallmap, idx);
      found := smallbits != 0;
      if found {
        NextMarked(smallmap, idx);
        i := Bsf(LeastBit(LaterBits(smallmap, idx)));
      }
      forall a | a in Contents()
        ensures found && 8 * idx <= Contents()[a] ==> 8 * i <= Contents()[a]
        ensures !found ==> Contents()[a] < 8 * idx
      {
        ChunkMarks(St(), a);
        if !found && Contents()[a] >= 8 * idx {
          NoneMarked(smallmap, idx, Contents()[a] / 8);
        }
      }
    }
  }

  /** Marking a marked bin changes nothing. */
  lemma MarkAgain(m: nat, i: nat)
    requires m < WORD && i < 32
    ensures Marked(m, i) ==> Mark(m, i) == m
  {
    if Marked(m, i) {
      WordIsPow2();
      MarkBits(m, i, i);
      forall j: nat | j < 32 ensures Marked(Mark(m, i), j) == Marked(m, j) {
        MarkBits(m, i, j);
      }
      SameMarks(32, Mark(m, i), m);
    }
  }
}
