/**
  The allocator as a whole: boundary tags, the designated victim and what the bins must hold.
 */
module HeapState {
  import opened Chunks
  import L = TreeBins
  import S = SmallBins
  import T = Tags
  import opened Words

  const MAX_SMALL_REQUEST: nat := 244
  const MAX_REQUEST: nat := 0xFFFF_FFC0
  const MAX_SIZE_T: nat := 0xFFFF_FFFF

  /** The chunk size that serves a request, pad_request with its special cases. */
  function Padded(bytes: nat): nat {
    if bytes >= MAX_REQUEST then MAX_SIZE_T
    else if bytes < 11 then MIN_CHUNK_SIZE
    else (bytes + 11) / 8 * 8
  }

  /** A chunk of the padded size holds the request and the header word; no multiple of eight below it does. */
  lemma PaddedFits(bytes: nat)
    requires bytes < MAX_REQUEST
    ensures MIN_CHUNK_SIZE <= Padded(bytes) && Padded(bytes) % 8 == 0 && bytes + 4 <= Padded(bytes) < WORD
    ensures Padded(bytes) == MIN_CHUNK_SIZE || Padded(bytes) < bytes + 12
    ensures bytes <= MAX_SMALL_REQUEST <==> Padded(bytes) < MIN_LARGE_SIZE
  {
  }

  /** chunk2mem */
  function ChunkToMem(p: Addr): (mem: Addr)
    ensures mem % 8 == p % 8
  {
    p + 8
  }

  // ----- what the bins hold

  function SmallPart(m: map<Addr, nat>): map<Addr, nat> {
    m - (set a | a in m && m[a] >= MIN_LARGE_SIZE)
  }

  function LargePart(m: map<Addr, nat>): map<Addr, nat> {
    m - (set a | a in m && m[a] < MIN_LARGE_SIZE)
  }

  /** The small and large bins together hold exactly `rest`. */
  ghost predicate Parts(small: map<Addr, nat>, large: map<Addr, nat>, rest: map<Addr, nat>) {
    small == SmallPart(rest) && large == LargePart(rest)
  }

  lemma PartsInsert(small: map<Addr, nat>, large: map<Addr, nat>, rest: map<Addr, nat>, x: Addr, s: nat)
    requires Parts(small, large, rest) && x !in rest
    ensures x !in small && x !in large
    ensures s < MIN_LARGE_SIZE ==> Parts(small[x := s], large, rest[x := s])
    ensures s >= MIN_LARGE_SIZE ==> Parts(small, large[x := s], rest[x := s])
  {
  }

  lemma PartsRemove(small: map<Addr, nat>, large: map<Addr, nat>, rest: map<Addr, nat>, x: Addr)
    requires Parts(small, large, rest) && x in rest
    ensures rest[x] < MIN_LARGE_SIZE ==> x in small && small[x] == rest[x] && Parts(small - {x}, large, rest - {x})
    ensures rest[x] >= MIN_LARGE_SIZE ==> x in large && large[x] == rest[x] && Parts(small, large - {x}, rest - {x})
  {
  }

  // ----- the whole

  /** The chunks of each bin in the order of its list. */
  datatype Order = Order(small: seq<seq<S.Ref>>, large: map<nat, seq<Addr>>)

  function Put(o: Order, x: Addr, s: nat): Order {
    if s < MIN_LARGE_SIZE then o.(small := S.With(o.small, x, s)) else o.(large := L.With(o.large, x, s))
  }

  function Drop(o: Order, x: Addr, s: nat): Order {
    if s < MIN_LARGE_SIZE then o.(small := S.Less(o.small, x, s)) else o.(large := L.Less(o.large, x, s))
  }

  /** Of all chunks of size `s`, `x` is the one that is taken first. */
  predicate First(o: Order, x: Addr, s: nat) {
    if s < MIN_LARGE_SIZE then S.IsFirst(o.small, x, s) else L.IsFirst(o.large, x, s)
  }

  lemma OneFirst(o: Order, x: Addr, y: Addr, s: nat)
    requires First(o, x, s) && First(o, y, s)
    ensures x == y
  {
  }

  datatype View = View(t: T.Tags, dv: Addr, dvsize: nat, small: map<Addr, nat>, large: map<Addr, nat>, order: Order)

  function TopSize(t: T.Tags): nat {
    if t.top in t.head then t.head[t.top].size else 0
  }

  /** The free chunks that belong in bins. */
  function Rest(free: map<Addr, nat>, dv: Addr): map<Addr, nat> {
    if dv == 0 then free else free - {dv}
  }

  ghost predicate DvOk(free: map<Addr, nat>, dv: Addr, dvsize: nat) {
    if dv == 0 then dvsize == 0 else dv in free && free[dv] == dvsize
  }

  /**
    The tags are in order, and every free chunk is the top chunk, the designated victim,
    or in the bin of its size.
   */
  ghost predicate HeapOk(v: View) {
    && T.TagsOk(v.t) && T.End(v.t) < WORD
    && DvOk(T.Free(v.t), v.dv, v.dvsize)
    && Parts(v.small, v.large, Rest(T.Free(v.t), v.dv))
  }

  lemma HeapIs(v: View, free: map<Addr, nat>)
    requires T.TagsOk(v.t) && T.End(v.t) < WORD && T.Free(v.t) == free
    requires DvOk(free, v.dv, v.dvsize) && Parts(v.small, v.large, Rest(free, v.dv))
    ensures HeapOk(v)
  {
  }

  /** A free chunk is of a legal size. */
  lemma FreeSize(v: View, a: Addr)
    requires HeapOk(v) && a in T.Free(v.t)
    ensures MIN_CHUNK_SIZE <= T.Free(v.t)[a] < WORD - 1 && T.Free(v.t)[a] % 8 == 0 && a != 0
    ensures a + T.Free(v.t)[a] < WORD && a % 8 == 0
  {
    T.Facts(v.t, a);
  }

  lemma DvPositive(v: View)
    requires HeapOk(v)
    ensures v.dv == 0 <==> v.dvsize == 0
    ensures v.dvsize < WORD - 1 && 0 !in T.Free(v.t)
  {
    if 0 in T.Free(v.t) {
      FreeSize(v, 0);
    }
    if v.dv != 0 {
      FreeSize(v, v.dv);
    }
  }

  /** A small designated victim can be binned. */
  lemma DvBinnable(v: View)
    requires HeapOk(v)
    ensures v.dv == 0 <==> v.dvsize == 0
    ensures v.dv !in Rest(T.Free(v.t), v.dv)
    ensures v.dvsize != 0 ==> MIN_CHUNK_SIZE <= v.dvsize && v.dvsize % 8 == 0
  {
    DvPositive(v);
    if v.dv != 0 {
      FreeSize(v, v.dv);
    }
  }

  /** A request is served: exactly one chunk more is in use, aligned, large enough and not 16 bytes too large. */
  ghost predicate Served(t: T.Tags, t': T.Tags, nb: nat, p: Addr) {
    && p !in T.Live(t) && p in T.Live(t') && T.Live(t') == T.Live(t)[p := T.Live(t')[p]]
    && nb <= T.Live(t')[p] < nb + MIN_CHUNK_SIZE
    && p % 8 == 0 && p != 0 && t'.base == t.base
    && t.top in t.head && t'.top in t'.head && T.End(t') == T.End(t)
  }

  /** A request is served, possibly after the segment has grown. */
  ghost predicate Allotted(t: T.Tags, t': T.Tags, nb: nat, p: Addr) {
    && p !in T.Live(t) && p in T.Live(t') && T.Live(t') == T.Live(t)[p := T.Live(t')[p]]
    && nb <= T.Live(t')[p] < nb + MIN_CHUNK_SIZE && p % 8 == 0
  }

  /** No free chunk other than the top one is large enough. */
  ghost predicate NoFit(t: T.Tags, nb: nat) {
    forall a :: a in T.Free(t) ==> T.Free(t)[a] < nb
  }

  /** Chunk `p` was free, and none that fits was smaller. */
  ghost predicate BestOf(t: T.Tags, nb: nat, p: Addr) {
    Fits(t, nb, p) && forall a :: a in T.Free(t) && nb <= T.Free(t)[a] ==> T.Free(t)[p] <= T.Free(t)[a]
  }

  ghost predicate Fits(t: T.Tags, nb: nat, p: Addr) {
    p in T.Free(t) && nb <= T.Free(t)[p]
  }

  /** Chunk `p` was in a bin, and no binned chunk that fits was smaller. */
  ghost predicate BestBinned(t: T.Tags, dv: Addr, nb: nat, p: Addr) {
    && p in Rest(T.Free(t), dv) && nb <= Rest(T.Free(t), dv)[p]
    && forall a :: a in Rest(T.Free(t), dv) && nb <= Rest(T.Free(t), dv)[a] ==> Rest(T.Free(t), dv)[p] <= Rest(T.Free(t), dv)[a]
  }

  /** Some small binned chunk fits without a remainder that could be a chunk of its own. */
  ghost predicate SnugFit(t: T.Tags, dv: Addr, nb: nat) {
    exists a :: a in Rest(T.Free(t), dv) && nb <= Rest(T.Free(t), dv)[a] < nb + MIN_CHUNK_SIZE && Rest(T.Free(t), dv)[a] < MIN_LARGE_SIZE
  }

  /** The designated victim and the bins are as before. */
  ghost predicate SameBins(v: View, v': View) {
    v'.dv == v.dv && v'.dvsize == v.dvsize && v'.order == v.order
  }

  /** The bins without chunk `p`, which is the designated victim or the first chunk of its size. */
  function TakenOut(v: View, p: Addr): Order
    requires p in T.Free(v.t)
  {
    if p == v.dv then v.order else Drop(v.order, p, T.Free(v.t)[p])
  }

  /** All of free chunk `p` is in use. */
  ghost predicate UsedUp(v: View, v': View, p: Addr)
    requires p in T.Free(v.t)
  {
    && T.Live(v'.t) == T.Live(v.t)[p := T.Free(v.t)[p]] && T.Free(v'.t) == T.Free(v.t) - {p} && v'.order == TakenOut(v, p)
    && if p == v.dv then v'.dv == 0 && v'.dvsize == 0 else v'.dv == v.dv && v'.dvsize == v.dvsize
  }

  /**
    The first `nb` bytes of free chunk `p` are in use. The rest is the new designated victim, for which an old one is
    binned, or goes into a bin itself.
   */
  ghost predicate SplitUp(v: View, v': View, p: Addr, nb: nat, toDv: bool)
    requires p in T.Free(v.t) && nb <= T.Free(v.t)[p]
  {
    var rest, rsize := p + nb, T.Free(v.t)[p] - nb;
    && T.Live(v'.t) == T.Live(v.t)[p := nb] && T.Free(v'.t) == (T.Free(v.t) - {p})[rest := rsize]
    && if p == v.dv || toDv then
         && v'.dv == rest && v'.dvsize == rsize
         && v'.order == if p == v.dv || v.dv == 0 then TakenOut(v, p) else Put(TakenOut(v, p), v.dv, v.dvsize)
       else
         v'.dv == v.dv && v'.dvsize == v.dvsize && v'.order == Put(TakenOut(v, p), rest, rsize)
  }

  /** Free chunk `p` has served a request of `nb` bytes; a remainder that could be a chunk of its own is one. */
  ghost predicate Reused(v: View, v': View, nb: nat, p: Addr, toDv: bool) {
    && p in T.Free(v.t) && nb <= T.Free(v.t)[p] && v'.t.top == v.t.top && TopSize(v'.t) == TopSize(v.t)
    && (p != v.dv ==> First(v.order, p, T.Free(v.t)[p]))
    && if T.Free(v.t)[p] < nb + MIN_CHUNK_SIZE then UsedUp(v, v', p) else SplitUp(v, v', p, nb, toDv)
  }

  /** Nothing free fits: the top chunk, grown if need be, gives the first `nb` of its bytes unless it is too small. */
  ghost predicate OffTop(v: View, v': View, nb: nat, grant: nat, p: Addr) {
    var room := TopSize(v.t) + if nb < TopSize(v.t) then 0 else grant;
    && SameBins(v, v') && T.Free(v'.t) == T.Free(v.t)
    && if nb < room then p == v.t.top && v'.t.top == p + nb && TopSize(v'.t) == room - nb && T.Live(v'.t) == T.Live(v.t)[p := nb]
       else p == 0 && v'.t.top == v.t.top && TopSize(v'.t) == room && T.Live(v'.t) == T.Live(v.t)
  }

  /**
    What dlmalloc did. A block comes from the designated victim, from the best binned chunk, or from the top chunk if
    no other one fits. For a small request the designated victim comes second to a chunk that fits without a
    remainder; for a large one, only to a better fit. What a small request leaves of a chunk becomes the designated
    victim, what a large one leaves of a binned chunk is binned.
   */
  ghost predicate MallocDone(v: View, v': View, bytes: nat, grant: nat, p: Addr) {
    var nb, t, t' := Padded(bytes), v.t, v'.t;
    && (p == 0 ==> T.Live(t') == T.Live(t))
    && (p != 0 ==> Allotted(t, t', nb, p))
    && (p != 0 <==> !NoFit(t, nb) || nb < TopSize(t) + grant)
    && (if NoFit(t, nb) then OffTop(v, v', nb, grant, p) else Reused(v, v', nb, p, bytes <= MAX_SMALL_REQUEST))
    && (!NoFit(t, nb) ==> p == v.dv || BestBinned(t, v.dv, nb, p))
    && (!NoFit(t, nb) && bytes > MAX_SMALL_REQUEST ==> BestOf(t, nb, p) && (p == v.dv <==> BestOf(t, nb, v.dv)))
    && (!NoFit(t, nb) && bytes <= MAX_SMALL_REQUEST ==> (p == v.dv <==> Fits(t, nb, v.dv) && !SnugFit(t, v.dv, nb)))
    && t.top in t.head && t'.top in t'.head
    && T.End(t') == T.End(t) + if NoFit(t, nb) && TopSize(t) <= nb then grant else 0
  }

  // ----- serving a request from a free chunk

  /** Chunk `p` has been taken as a whole. */
  ghost predicate TakenBy(t: T.Tags, t': T.Tags, p: Addr, nb: nat) {
    && T.TagsOk(t') && Served(t, t', nb, p) && T.End(t') < WORD && T.Free(t') == T.Free(t) - {p}
    && p in T.Free(t) && T.Live(t') == T.Live(t)[p := T.Free(t)[p]]
    && t'.top == t.top && t'.head[t.top].size == t.head[t.top].size
  }

  /** The lower `nb` bytes of chunk `p` have been taken; the rest is a chunk of its own. */
  ghost predicate SplitBy(t: T.Tags, t': T.Tags, p: Addr, nb: nat, rsize: nat) {
    && T.TagsOk(t') && Served(t, t', nb, p) && T.End(t') < WORD && T.Live(t') == T.Live(t)[p := nb]
    && T.Free(t') == (T.Free(t) - {p})[p + nb := rsize] && p + nb !in T.Free(t) && p + nb != 0
    && t'.top == t.top && t'.head[t.top].size == t.head[t.top].size
  }

  lemma ServeWhole(v: View, p: Addr, nb: nat)
    requires HeapOk(v) && p in T.Free(v.t) && nb <= T.Free(v.t)[p] < nb + MIN_CHUNK_SIZE
    ensures p + v.t.head[p].size in v.t.head && TakenBy(v.t, T.Taken(v.t, p), p, nb)
  {
    T.TakenOk(v.t, p);
    T.TakenMaps(v.t, p);
    T.Facts(v.t, p);
  }

  lemma ServeSplit(v: View, p: Addr, nb: nat)
    requires HeapOk(v) && p in T.Free(v.t) && T.Splits(T.Free(v.t)[p], nb)
    ensures SplitBy(v.t, T.Split(v.t, p, nb), p, nb, T.Free(v.t)[p] - nb)
  {
    T.SplitOk(v.t, p, nb);
    T.SplitMaps(v.t, p, nb);
    T.Facts(v.t, p);
  }

  lemma ServeTop(v: View, nb: nat)
    requires HeapOk(v) && MIN_CHUNK_SIZE <= nb < v.t.head[v.t.top].size && nb % 8 == 0
    ensures var t' := T.SplitTop(v.t, nb);
            && T.TagsOk(t') && T.End(t') < WORD && Served(v.t, t', nb, v.t.top) && T.Free(t') == T.Free(v.t)
            && t'.head[t'.top].size == v.t.head[v.t.top].size - nb && t'.top == v.t.top + nb && T.Live(t') == T.Live(v.t)[v.t.top := nb]
  {
    T.SplitTopOk(v.t, nb);
    T.SplitTopMaps(v.t, nb);
    T.Facts(v.t, v.t.top);
  }

  /** The bins when a binned chunk goes and, if a part of it is left, that part becomes the designated victim. */
  lemma RestNewDv(free: map<Addr, nat>, dv: Addr, dvsize: nat, p: Addr, r: Addr, s: nat)
    requires DvOk(free, dv, dvsize) && p in free && p != dv && r !in free && r != 0
    ensures var free' := (free - {p})[r := s];
            && DvOk(free', r, s)
            && Rest(free', r) == if dv == 0 then Rest(free, dv) - {p} else (Rest(free, dv) - {p})[dv := dvsize]
  {
  }

  /** The bins when a binned chunk goes and what is left of it is binned. */
  lemma RestBinned(free: map<Addr, nat>, dv: Addr, dvsize: nat, p: Addr, r: Addr, s: nat)
    requires DvOk(free, dv, dvsize) && p in free && p != dv && r !in free && r != 0
    ensures var free' := (free - {p})[r := s];
            && DvOk(free', dv, dvsize) && r !in Rest(free, dv)
            && Rest(free', dv) == (Rest(free, dv) - {p})[r := s]
  {
  }

  /** The bins when a binned chunk goes as a whole. */
  lemma RestWhole(free: map<Addr, nat>, dv: Addr, dvsize: nat, p: Addr)
    requires DvOk(free, dv, dvsize) && p in free && p != dv
    ensures DvOk(free - {p}, dv, dvsize) && Rest(free - {p}, dv) == Rest(free, dv) - {p}
  {
  }

  /** The bins stay when the designated victim is split or used up. */
  lemma RestDv(free: map<Addr, nat>, dv: Addr, r: Addr, s: nat)
    requires dv in free && dv != 0 && r !in free
    ensures r != 0 ==> Rest((free - {dv})[r := s], r) == Rest(free, dv)
    ensures Rest(free - {dv}, 0) == Rest(free, dv)
  {
  }

  lemma BinnedIsFree(v: View, a: Addr)
    requires HeapOk(v) && (a in v.small || a in v.large)
    ensures a in T.Free(v.t) && a != v.dv && a in Rest(T.Free(v.t), v.dv)
    ensures a in v.small ==> T.Free(v.t)[a] == v.small[a]
    ensures a in v.large ==> T.Free(v.t)[a] == v.large[a]
  {
    DvPositive(v);
  }

  lemma FreeIsBinned(v: View, a: Addr)
    requires HeapOk(v) && a in T.Free(v.t) && a != v.dv
    ensures T.Free(v.t)[a] < MIN_LARGE_SIZE ==> a in v.small && v.small[a] == T.Free(v.t)[a]
    ensures T.Free(v.t)[a] >= MIN_LARGE_SIZE ==> a in v.large && v.large[a] == T.Free(v.t)[a]
  {
  }

  // ----- the whole after a request has been served from binned chunk `p`

  ghost predicate FromBin(v: View, p: Addr, s: nat) {
    HeapOk(v) && p in T.Free(v.t) && p != v.dv && s == T.Free(v.t)[p]
  }

  lemma WholeHeap(free: map<Addr, nat>, dv: Addr, dvsize: nat, p: Addr, v': View)
    requires DvOk(free, dv, dvsize) && p in free && p != dv
    requires v'.dv == dv && v'.dvsize == dvsize && Parts(v'.small, v'.large, Rest(free, dv) - {p})
    requires T.TagsOk(v'.t) && T.End(v'.t) < WORD && T.Free(v'.t) == free - {p}
    ensures HeapOk(v')
  {
    RestWhole(free, dv, dvsize, p);
    HeapIs(v', free - {p});
  }

  lemma NewDvHeap(free: map<Addr, nat>, dv: Addr, dvsize: nat, p: Addr, r: Addr, s: nat, v': View)
    requires DvOk(free, dv, dvsize) && p in free && p != dv && r !in free && r != 0 && (dv == 0 <==> dvsize == 0)
    requires v'.dv == r && v'.dvsize == s
    requires var rest := Rest(free, dv) - {p};
             Parts(v'.small, v'.large, if dvsize == 0 then rest else rest[dv := dvsize])
    requires T.TagsOk(v'.t) && T.End(v'.t) < WORD && T.Free(v'.t) == (free - {p})[r := s]
    ensures HeapOk(v')
  {
    RestNewDv(free, dv, dvsize, p, r, s);
    HeapIs(v', (free - {p})[r := s]);
  }

  lemma BinnedHeap(free: map<Addr, nat>, dv: Addr, dvsize: nat, p: Addr, r: Addr, s: nat, v': View)
    requires DvOk(free, dv, dvsize) && p in free && p != dv && r !in free && r != 0
    requires v'.dv == dv && v'.dvsize == dvsize && Parts(v'.small, v'.large, (Rest(free, dv) - {p})[r := s])
    requires T.TagsOk(v'.t) && T.End(v'.t) < WORD && T.Free(v'.t) == (free - {p})[r := s]
    ensures HeapOk(v')
  {
    RestBinned(free, dv, dvsize, p, r, s);
    HeapIs(v', (free - {p})[r := s]);
  }

  lemma SplitDvDone(v: View, p: Addr, nb: nat, rsize: nat, v': View)
    requires FromBin(v, p, nb + rsize) && T.Splits(nb + rsize, nb)
    requires v'.t == T.Split(v.t, p, nb) && v'.dv == p + nb && v'.dvsize == rsize
    requires var rest := Rest(T.Free(v.t), v.dv) - {p};
             Parts(v'.small, v'.large, if v.dvsize == 0 then rest else rest[v.dv := v.dvsize])
    ensures HeapOk(v') && SplitBy(v.t, v'.t, p, nb, rsize)
  {
    ServeSplit(v, p, nb);
    DvPositive(v);
    NewDvHeap(T.Free(v.t), v.dv, v.dvsize, p, p + nb, rsize, v');
  }

  lemma NewDvReused(v: View, p: Addr, nb: nat, rsize: nat, v': View)
    requires FromBin(v, p, nb + rsize) && SplitBy(v.t, v'.t, p, nb, rsize) && First(v.order, p, nb + rsize)
    requires MIN_CHUNK_SIZE <= rsize && v'.dv == p + nb && v'.dvsize == rsize
    requires v'.order == if v.dvsize == 0 then Drop(v.order, p, nb + rsize) else Put(Drop(v.order, p, nb + rsize), v.dv, v.dvsize)
    ensures Served(v.t, v'.t, nb, p) && Reused(v, v', nb, p, true)
  {
    DvPositive(v);
  }

  lemma BinnedReused(v: View, p: Addr, nb: nat, rsize: nat, v': View)
    requires FromBin(v, p, nb + rsize) && SplitBy(v.t, v'.t, p, nb, rsize) && First(v.order, p, nb + rsize)
    requires MIN_CHUNK_SIZE <= rsize && v'.dv == v.dv && v'.dvsize == v.dvsize
    requires v'.order == Put(Drop(v.order, p, nb + rsize), p + nb, rsize)
    ensures Served(v.t, v'.t, nb, p) && Reused(v, v', nb, p, false)
  {
  }

  lemma RemainderBinnable(v: View, p: Addr, nb: nat, rsize: nat)
    requires FromBin(v, p, nb + rsize) && T.Splits(nb + rsize, nb)
    ensures p in v.t.head && v.t.head[p].size == nb + rsize && p + nb !in Rest(T.Free(v.t), v.dv) - {p} && p + nb != 0
    ensures MIN_CHUNK_SIZE <= rsize < WORD && rsize % 8 == 0
  {
    FreeSize(v, p);
    T.NoChunkInside(v.t, p, nb);
  }

  lemma SplitBinDone(v: View, p: Addr, nb: nat, rsize: nat, v': View)
    requires FromBin(v, p, nb + rsize) && T.Splits(nb + rsize, nb)
    requires v'.t == T.Split(v.t, p, nb) && v'.dv == v.dv && v'.dvsize == v.dvsize
    requires Parts(v'.small, v'.large, (Rest(T.Free(v.t), v.dv) - {p})[p + nb := rsize])
    ensures HeapOk(v') && SplitBy(v.t, v'.t, p, nb, rsize)
  {
    ServeSplit(v, p, nb);
    BinnedHeap(T.Free(v.t), v.dv, v.dvsize, p, p + nb, rsize, v');
  }

  /** The designated victim has been split or used up. */
  lemma VictimHeap(free: map<Addr, nat>, dv: Addr, dvsize: nat, r: Addr, s: nat, v': View)
    requires DvOk(free, dv, dvsize) && dv != 0 && r !in free && Parts(v'.small, v'.large, Rest(free, dv))
    requires v'.dv == r && v'.dvsize == s && (r == 0 <==> s == 0)
    requires T.TagsOk(v'.t) && T.End(v'.t) < WORD && T.Free(v'.t) == if r == 0 then free - {dv} else (free - {dv})[r := s]
    ensures HeapOk(v')
  {
    RestDv(free, dv, r, s);
    HeapIs(v', T.Free(v'.t));
  }

  // ----- no chunk fits

  /** A request larger than the designated victim that no binned chunk fits. */
  lemma NothingFits(v: View, nb: nat)
    requires HeapOk(v) && v.dvsize < nb
    requires forall a :: a in v.small ==> v.small[a] < nb
    requires forall a :: a in v.large ==> v.large[a] < nb
    ensures NoFit(v.t, nb)
  {
    DvPositive(v);
    forall a | a in T.Free(v.t) ensures T.Free(v.t)[a] < nb {
      if a != v.dv {
        FreeIsBinned(v, a);
      }
    }
  }

  lemma NoneThatLarge(v: View)
    requires HeapOk(v)
    ensures NoFit(v.t, MAX_SIZE_T) && v.dvsize < MAX_SIZE_T
  {
    DvPositive(v);
    forall a | a in T.Free(v.t) ensures T.Free(v.t)[a] < MAX_SIZE_T {
      FreeSize(v, a);
    }
  }

  /** The best of the large chunks, if it beats the designated victim, is the best of all. */
  lemma BestOverall(v: View, nb: nat, p: Addr)
    requires HeapOk(v) && MIN_LARGE_SIZE <= nb && p in v.large && nb <= v.large[p]
    requires forall a :: a in v.large && nb <= v.large[a] ==> v.large[p] <= v.large[a]
    requires nb <= v.dvsize ==> v.large[p] <= v.dvsize
    ensures BestOf(v.t, nb, p)
  {
    DvPositive(v);
    BinnedIsFree(v, p);
    forall a | a in T.Free(v.t) && nb <= T.Free(v.t)[a] ensures T.Free(v.t)[p] <= T.Free(v.t)[a] {
      if a != v.dv {
        FreeIsBinned(v, a);
      }
    }
  }

  /** The designated victim is the best when no large chunk is smaller. */
  lemma DvBest(v: View, nb: nat)
    requires HeapOk(v) && MIN_LARGE_SIZE <= nb <= v.dvsize
    requires forall a :: a in v.large && nb <= v.large[a] ==> v.dvsize <= v.large[a]
    ensures BestOf(v.t, nb, v.dv)
  {
    DvPositive(v);
    forall a | a in T.Free(v.t) && nb <= T.Free(v.t)[a] ensures v.dvsize <= T.Free(v.t)[a] {
      if a != v.dv {
        FreeIsBinned(v, a);
      }
    }
  }

  /** Every tree chunk that fits is no better than the designated victim, which fits, too. */
  ghost predicate Declined(large: map<Addr, nat>, nb: nat, dvsize: nat) {
    forall a :: a in large && nb <= large[a] ==> nb <= dvsize <= large[a]
  }

  /** The large bins decline: either nothing fits or the designated victim fits at least as well. */
  lemma TreeDeclines(v: View, nb: nat)
    requires HeapOk(v) && MIN_LARGE_SIZE <= nb
    requires Declined(v.large, nb, v.dvsize)
    ensures if nb <= v.dvsize then BestOf(v.t, nb, v.dv) else NoFit(v.t, nb)
  {
    if nb <= v.dvsize {
      DvBest(v, nb);
    } else {
      NothingFits(v, nb);
    }
  }

  /** `rsize < dvsize - nb` on unsigned words: the chunk is a better fit than the designated victim. */
  lemma BetterThanDv(dvsize: nat, nb: nat, rsize: nat)
    requires dvsize < WORD && 0 < nb && nb + rsize < WORD
    ensures rsize < (dvsize + WORD - nb) % WORD <==> dvsize < nb || nb + rsize < dvsize
  {
  }

  // ----- the top chunk

  lemma TopServed(v: View, nb: nat)
    requires HeapOk(v) && MIN_CHUNK_SIZE <= nb < v.t.head[v.t.top].size && nb % 8 == 0
    ensures var v' := v.(t := T.SplitTop(v.t, nb));
            && HeapOk(v') && Served(v.t, v'.t, nb, v.t.top) && T.Free(v'.t) == T.Free(v.t)
            && v'.t.top == v.t.top + nb && TopSize(v'.t) == TopSize(v.t) - nb && T.Live(v'.t) == T.Live(v.t)[v.t.top := nb]
  {
    ServeTop(v, nb);
  }

  lemma TopGrown(v: View, grant: nat)
    requires HeapOk(v) && T.End(v.t) + grant < WORD
    ensures HeapOk(v.(t := T.Grown(v.t, grant)))
    ensures T.Live(T.Grown(v.t, grant)) == T.Live(v.t) && T.Free(T.Grown(v.t, grant)) == T.Free(v.t)
    ensures T.End(T.Grown(v.t, grant)) == T.End(v.t) + grant && TopSize(T.Grown(v.t, grant)) == TopSize(v.t) + grant
  {
    T.GrownOk(v.t, grant);
    T.GrownMaps(v.t, grant);
  }

  lemma DoneFromBins(v: View, v': View, bytes: nat, grant: nat, p: Addr)
    requires p != 0 && Served(v.t, v'.t, Padded(bytes), p) && BestBinned(v.t, v.dv, Padded(bytes), p)
    requires Reused(v, v', Padded(bytes), p, bytes <= MAX_SMALL_REQUEST)
    requires bytes > MAX_SMALL_REQUEST ==> BestOf(v.t, Padded(bytes), p) && !BestOf(v.t, Padded(bytes), v.dv)
    requires bytes <= MAX_SMALL_REQUEST ==> SnugFit(v.t, v.dv, Padded(bytes)) || Padded(bytes) > v.dvsize
    requires HeapOk(v)
    ensures MallocDone(v, v', bytes, grant, p)
  {
    DvPositive(v);
    assert Fits(v.t, Padded(bytes), p);
    assert !NoFit(v.t, Padded(bytes));
  }

  /** The best of the small chunks and of the large chunks is the best of all binned ones. */
  lemma BestOfBins(v: View, nb: nat, p: Addr, size: nat)
    requires HeapOk(v) && (p in v.small || p in v.large) && nb <= size
    requires size == if p in v.small then v.small[p] else v.large[p]
    requires forall a :: a in v.small && nb <= v.small[a] ==> size <= v.small[a]
    requires forall a :: a in v.large && nb <= v.large[a] ==> size <= v.large[a]
    ensures BestBinned(v.t, v.dv, nb, p)
  {
    BinnedIsFree(v, p);
    var rest := Rest(T.Free(v.t), v.dv);
    forall a | a in rest && nb <= rest[a] ensures size <= rest[a] {
      assert a in v.small || a in v.large;
    }
  }

  lemma SmallBest(v: View, nb: nat, p: Addr, size: nat)
    requires FromBin(v, p, size) && nb <= size < MIN_LARGE_SIZE
    requires forall a :: a in v.small && nb <= v.small[a] ==> size <= v.small[a]
    ensures BestBinned(v.t, v.dv, nb, p)
  {
    FreeIsBinned(v, p);
    BestOfBins(v, nb, p, size);
  }

  lemma SnugIs(v: View, nb: nat, p: Addr, size: nat)
    requires FromBin(v, p, size) && nb <= size < nb + MIN_CHUNK_SIZE && size < MIN_LARGE_SIZE
    ensures SnugFit(v.t, v.dv, nb)
  {
    assert p in Rest(T.Free(v.t), v.dv) && Rest(T.Free(v.t), v.dv)[p] == size;
  }

  lemma NotSnug(v: View, nb: nat)
    requires HeapOk(v) && forall a :: a in v.small && nb <= v.small[a] ==> nb + MIN_CHUNK_SIZE <= v.small[a]
    ensures !SnugFit(v.t, v.dv, nb)
  {
    var rest := Rest(T.Free(v.t), v.dv);
    forall a | a in rest && nb <= rest[a] && rest[a] < MIN_LARGE_SIZE ensures nb + MIN_CHUNK_SIZE <= rest[a] {
      assert a in v.small && v.small[a] == rest[a];
    }
  }

  lemma LargeBest(v: View, nb: nat, p: Addr, size: nat)
    requires HeapOk(v) && p in v.large && v.large[p] == size && nb <= size
    requires forall a :: a in v.small ==> v.small[a] < nb
    requires forall a :: a in v.large && nb <= v.large[a] ==> size <= v.large[a]
    ensures BestBinned(v.t, v.dv, nb, p)
  {
    assert p !in v.small;
    BestOfBins(v, nb, p, size);
  }

  /** No small chunk fits a large request. */
  lemma SmallTooSmall(v: View, nb: nat)
    requires HeapOk(v) && MIN_LARGE_SIZE <= nb
    ensures forall a :: a in v.small ==> v.small[a] < nb
  {
  }

  /** What the last resorts did. */
  ghost predicate RestDone(v: View, v': View, nb: nat, grant: nat, p: Addr) {
    && (p == 0 ==> T.Live(v'.t) == T.Live(v.t))
    && (p != 0 ==> Allotted(v.t, v'.t, nb, p))
    && (p != 0 <==> nb <= v.dvsize || nb < TopSize(v.t) + grant)
    && (if nb <= v.dvsize then p == v.dv && Reused(v, v', nb, p, true) else OffTop(v, v', nb, grant, p))
    && v.t.top in v.t.head && v'.t.top in v'.t.head
    && T.End(v'.t) == T.End(v.t) + if nb <= v.dvsize || nb < TopSize(v.t) then 0 else grant
  }

  /** For the designated victim it does not matter what kind of request it serves. */
  lemma VictimReused(v: View, v': View, nb: nat, toDv: bool)
    requires Reused(v, v', nb, v.dv, true)
    ensures Reused(v, v', nb, v.dv, toDv)
  {
  }

  lemma DoneFromRest(v: View, v': View, bytes: nat, grant: nat, p: Addr)
    requires HeapOk(v) && RestDone(v, v', Padded(bytes), grant, p)
    requires v.dvsize < Padded(bytes) ==> NoFit(v.t, Padded(bytes))
    requires Padded(bytes) <= v.dvsize && bytes > MAX_SMALL_REQUEST ==> BestOf(v.t, Padded(bytes), v.dv)
    requires Padded(bytes) <= v.dvsize && bytes <= MAX_SMALL_REQUEST ==> !SnugFit(v.t, v.dv, Padded(bytes))
    ensures MallocDone(v, v', bytes, grant, p)
  {
    if Padded(bytes) <= v.dvsize {
      assert Padded(bytes) >= MIN_CHUNK_SIZE;
      assert Fits(v.t, Padded(bytes), v.dv);
      assert !NoFit(v.t, Padded(bytes));
      VictimReused(v, v', Padded(bytes), bytes <= MAX_SMALL_REQUEST);
    }
  }

  // ----- releasing a chunk

  /** The designated victim borders on the chunk that is released. */
  predicate Joins(dv: Addr, q: Addr, next: Addr) {
    dv != 0 && (dv == q || dv == next)
  }

  /** The bins once a free chunk `q` before the released one, if it is binned, has gone. */
  function OutBefore(v: View, q: Addr): Order {
    if q in T.Free(v.t) && q != v.dv then Drop(v.order, q, T.Free(v.t)[q]) else v.order
  }

  /** The bins once a free chunk `next` behind it, if it is binned, has gone, too. */
  function OutAround(v: View, q: Addr, next: Addr): Order {
    if next in T.Free(v.t) && next != v.dv then Drop(OutBefore(v, q), next, T.Free(v.t)[next]) else OutBefore(v, q)
  }

  /** The top chunk has taken in everything from `q` on; the designated victim goes with it. */
  ghost predicate GoneToTop(v: View, v': View, q: Addr) {
    && T.Free(v'.t) == T.Free(v.t) - {q} && v'.t.top == q <= v.t.top && TopSize(v'.t) == TopSize(v.t) + (v.t.top - q)
    && v'.order == OutBefore(v, q)
    && if q == v.dv then v'.dv == 0 && v'.dvsize == 0 else v'.dv == v.dv && v'.dvsize == v.dvsize
  }

  /** One free chunk of size `s` starts at `q`; it is the designated victim if that was part of it, and binned otherwise. */
  ghost predicate Merged(v: View, v': View, q: Addr, next: Addr, s: nat) {
    && T.Free(v'.t) == (T.Free(v.t) - {next})[q := s] && v'.t.top == v.t.top && TopSize(v'.t) == TopSize(v.t)
    && if Joins(v.dv, q, next) then v'.dv == q && v'.dvsize == s && v'.order == OutAround(v, q, next)
       else v'.dv == v.dv && v'.dvsize == v.dvsize && v'.order == Put(OutAround(v, q, next), q, s)
  }

  /** Chunk `p` is no longer in use. It has been merged with free chunks on both sides, or into the top chunk. */
  ghost predicate Released(v: View, v': View, p: Addr) {
    && T.Releasable(v.t, p) && T.Live(v'.t) == T.Live(v.t) - {p}
    && v.t.top in v.t.head && v'.t.top in v'.t.head && T.End(v'.t) == T.End(v.t)
    && var q, next, stop := T.Start(v.t, p), p + T.Live(v.t)[p], T.Stop(v.t, p);
       if next == v.t.top then GoneToTop(v, v', q) else q < stop && Merged(v, v', q, next, stop - q)
  }

  /** The bins after a chunk has been merged with its neighbours `q` and `next`. */
  lemma RestMerged(free: map<Addr, nat>, dv: Addr, dvsize: nat, q: Addr, next: Addr, s: nat)
    requires DvOk(free, dv, dvsize) && q != next && q != 0
    ensures var free', rest := (free - {next})[q := s], Rest(free, dv) - {q} - {next};
            if Joins(dv, q, next) then DvOk(free', q, s) && Rest(free', q) == rest
            else DvOk(free', dv, dvsize) && Rest(free', dv) == rest[q := s]
  {
  }

  lemma RestTop(free: map<Addr, nat>, dv: Addr, dvsize: nat, q: Addr)
    requires DvOk(free, dv, dvsize) && q != 0
    ensures if dv == q then Rest(free - {q}, 0) == Rest(free, dv) - {q}
            else DvOk(free - {q}, dv, dvsize) && Rest(free - {q}, dv) == Rest(free, dv) - {q}
  {
  }

  /** `p` is in use; it is to become free from `q`, at or before it, to `e`, the end of `p` or of the chunk `next`. */
  ghost predicate Around(t: T.Tags, p: Addr, q: Addr, e: Addr, next: Addr) {
    T.Releasable(t, p) && q == T.Start(t, p) && e == T.Stop(t, p) && next == p + t.head[p].size && q < e && e in t.head
  }

  lemma MergedTop(t: T.Tags, q: Addr, e: Addr)
    requires T.TagsOk(t) && T.Region(t, q, e) && e != t.top
    ensures t.top in T.Freed(t, q, e).head && T.Freed(t, q, e).head[t.top].size == t.head[t.top].size
  {
    T.RegionSize(t, q, e);
  }

  ghost predicate FreedBy(t: T.Tags, t': T.Tags, p: Addr, q: Addr, s: nat, next: Addr) {
    && T.TagsOk(t) && T.TagsOk(t') && T.Live(t') == T.Live(t) - {p} && T.Free(t') == (T.Free(t) - {next})[q := s]
    && T.End(t') == T.End(t) < WORD && t'.top == t.top && t'.head[t.top].size == t.head[t.top].size
    && q != 0 && q != next
  }

  lemma MergedMaps(v: View, p: Addr, q: Addr, e: Addr, next: Addr, t': T.Tags)
    requires HeapOk(v) && Around(v.t, p, q, e, next) && e != v.t.top && t' == T.Freed(v.t, q, e)
    ensures T.Live(t') == T.Live(v.t) - {p} && T.Free(t') == (T.Free(v.t) - {next})[q := e - q]
  {
    T.FreedLive(v.t, p);
    T.FreedFree(v.t, p);
  }

  /** The released chunk has been merged into one free chunk from `q` to `e`. */
  lemma MergedTags(v: View, p: Addr, q: Addr, e: Addr, next: Addr, t': T.Tags)
    requires HeapOk(v) && Around(v.t, p, q, e, next) && e != v.t.top && t' == T.Freed(v.t, q, e)
    ensures FreedBy(v.t, t', p, q, e - q, next)
  {
    T.Neighbours(v.t, p);
    T.Facts(v.t, q);
    T.FreedOk(v.t, q, e);
    MergedMaps(v, p, q, e, next, t');
    MergedTop(v.t, q, e);
  }

  lemma MergedSize(v: View, p: Addr, q: Addr, e: Addr, next: Addr)
    requires HeapOk(v) && Around(v.t, p, q, e, next)
    ensures MIN_CHUNK_SIZE <= e - q < WORD && (e - q) % 8 == 0 && q != 0
  {
    T.Neighbours(v.t, p);
    T.Facts(v.t, q);
    T.RegionSize(v.t, q, e);
  }

  lemma PartsMerged(free: map<Addr, nat>, dv: Addr, dvsize: nat, q: Addr, next: Addr, s: nat, v': View)
    requires DvOk(free, dv, dvsize) && q != next && q != 0
    requires var rest := Rest(free, dv) - {q} - {next};
             if Joins(dv, q, next) then v'.dv == q && v'.dvsize == s && Parts(v'.small, v'.large, rest)
             else v'.dv == dv && v'.dvsize == dvsize && Parts(v'.small, v'.large, rest[q := s])
    ensures var free' := (free - {next})[q := s];
            DvOk(free', v'.dv, v'.dvsize) && Parts(v'.small, v'.large, Rest(free', v'.dv))
  {
    RestMerged(free, dv, dvsize, q, next, s);
  }

  /** The bins and the designated victim after the merge. */
  ghost predicate MergedBins(free: map<Addr, nat>, dv: Addr, dvsize: nat, q: Addr, next: Addr, s: nat, v': View) {
    var rest := Rest(free, dv) - {q} - {next};
    if Joins(dv, q, next) then v'.dv == q && v'.dvsize == s && Parts(v'.small, v'.large, rest)
    else v'.dv == dv && v'.dvsize == dvsize && Parts(v'.small, v'.large, rest[q := s])
  }

  lemma MergedHeap(free: map<Addr, nat>, dv: Addr, dvsize: nat, q: Addr, next: Addr, s: nat, v': View)
    requires DvOk(free, dv, dvsize) && q != next && q != 0 && MergedBins(free, dv, dvsize, q, next, s, v')
    requires T.TagsOk(v'.t) && T.End(v'.t) < WORD && T.Free(v'.t) == (free - {next})[q := s]
    ensures HeapOk(v')
  {
    PartsMerged(free, dv, dvsize, q, next, s, v');
    HeapIs(v', (free - {next})[q := s]);
  }

  lemma MergedReleased(v: View, p: Addr, q: Addr, s: nat, next: Addr, v': View)
    requires Around(v.t, p, q, q + s, next) && q + s != v.t.top && FreedBy(v.t, v'.t, p, q, s, next)
    requires if Joins(v.dv, q, next) then v'.dv == q && v'.dvsize == s && v'.order == OutAround(v, q, next)
             else v'.dv == v.dv && v'.dvsize == v.dvsize && v'.order == Put(OutAround(v, q, next), q, s)
    ensures Released(v, v', p)
  {
  }

  /** The released chunk has been given to the top chunk. */
  lemma ToppedDone(v: View, p: Addr, q: Addr, next: Addr, v': View)
    requires HeapOk(v) && Around(v.t, p, q, v.t.top, next) && v'.t == T.FreedTop(v.t, q)
    requires Parts(v'.small, v'.large, Rest(T.Free(v.t), v.dv) - {q})
    requires if v.dv == q then v'.dv == v'.dvsize == 0 else v'.dv == v.dv && v'.dvsize == v.dvsize
    ensures HeapOk(v') && T.Live(v'.t) == T.Live(v.t) - {p} && T.End(v'.t) == T.End(v.t)
    ensures T.Free(v'.t) == T.Free(v.t) - {q} && v'.t.top == q <= v.t.top && TopSize(v'.t) == TopSize(v.t) + (v.t.top - q)
  {
    T.Neighbours(v.t, p);
    T.Facts(v.t, q);
    T.FreedTopOk(v.t, q);
    T.FreedTopMaps(v.t, p);
    RestTop(T.Free(v.t), v.dv, v.dvsize, q);
  }

  lemma ToppedReleased(v: View, p: Addr, q: Addr, next: Addr, v': View)
    requires Around(v.t, p, q, v.t.top, next) && next == v.t.top && v.t.top in v.t.head && v'.t.top in v'.t.head
    requires T.Live(v'.t) == T.Live(v.t) - {p} && T.End(v'.t) == T.End(v.t)
    requires T.Free(v'.t) == T.Free(v.t) - {q} && v'.t.top == q <= v.t.top && TopSize(v'.t) == TopSize(v.t) + (v.t.top - q)
    requires v'.order == OutBefore(v, q)
    requires if v.dv == q then v'.dv == v'.dvsize == 0 else v'.dv == v.dv && v'.dvsize == v.dvsize
    ensures Released(v, v', p)
  {
  }

  /** The chunk before the released one is not binned, or it is in the bin of the size its footer gives. */
  lemma Backward(v: View, p: Addr)
    requires HeapOk(v) && p in T.Live(v.t)
    ensures T.Releasable(v.t, p)
    ensures var q, rest := T.Start(v.t, p), Rest(T.Free(v.t), v.dv);
            && q != 0
            && (q == p || q == v.dv ==> rest - {q} == rest)
            && (q != p && q != v.dv ==> q in rest && rest[q] == v.t.foot[p])
            && (q != p ==> q < p)
            && (q == p ==> q != v.dv)
  {
    T.Neighbours(v.t, p);
    T.Facts(v.t, p);
    T.Facts(v.t, T.Start(v.t, p));
    DvPositive(v);
  }

  /** The chunk after the released one. */
  lemma ForwardUsed(v: View, p: Addr, q: Addr, next: Addr)
    requires HeapOk(v) && T.Releasable(v.t, p) && q == T.Start(v.t, p) && next == p + v.t.head[p].size
    requires v.t.head[next].cinuse
    ensures Around(v.t, p, q, next, next) && next != v.t.top
    ensures Rest(T.Free(v.t), v.dv) - {q} - {next} == Rest(T.Free(v.t), v.dv) - {q} && next != v.dv
  {
    T.Neighbours(v.t, p);
    DvPositive(v);
    T.Facts(v.t, next);
  }

  lemma ForwardFree(v: View, p: Addr, q: Addr, next: Addr)
    requires HeapOk(v) && T.Releasable(v.t, p) && q == T.Start(v.t, p) && next == p + v.t.head[p].size
    requires !v.t.head[next].cinuse && next != v.t.top
    ensures Around(v.t, p, q, next + v.t.head[next].size, next) && v.t.head[next].size != 0
    ensures next + v.t.head[next].size != v.t.top
    ensures next == v.dv ==> v.t.head[next].size == v.dvsize && v.dv != 0
    ensures next == v.dv ==> Rest(T.Free(v.t), v.dv) - {q} - {next} == Rest(T.Free(v.t), v.dv) - {q}
    ensures next != v.dv ==> next in Rest(T.Free(v.t), v.dv) - {q} && Rest(T.Free(v.t), v.dv)[next] == v.t.head[next].size
  {
    T.Neighbours(v.t, p);
    T.Facts(v.t, next);
    DvPositive(v);
  }
}
