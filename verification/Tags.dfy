/**
  Boundary tags: the header word of every chunk (size, cinuse and pinuse bits) and the footer that a
  free chunk leaves in front of its successor. `TagsOk` is what do_check_any_chunk, do_check_inuse_chunk,
  do_check_free_chunk and do_check_top_chunk describe, for the chunks of one segment from `base` to `top`.
 */
module Tags {
  import opened Chunks

  datatype Head = Head(size: nat, pinuse: bool, cinuse: bool)

  datatype Tags = Tags(
    head: map<Addr, Head>,   // per chunk, and for the top chunk
    foot: map<Addr, nat>,    // prev_foot, at the address of the chunk that follows
    base: Addr,
    top: Addr)

  /** One chunk agrees with the one after it and, if that one is free, with the one before it. */
  ghost predicate ChunkOk(t: Tags, a: Addr)
    requires a in t.head
  {
    var c := t.head[a];
    var n := a + c.size;
    && t.base <= a < t.top && a % 8 == 0 && MIN_CHUNK_SIZE <= c.size && c.size % 8 == 0
    && n in t.head && t.head[n].pinuse == c.cinuse
    && (!c.cinuse ==> n != t.top && t.head[n].cinuse && n in t.foot && t.foot[n] == c.size)
    && (!c.pinuse ==>
          && a in t.foot && t.foot[a] <= a && a - t.foot[a] in t.head
          && t.head[a - t.foot[a]].size == t.foot[a] && !t.head[a - t.foot[a]].cinuse)
    && (a == t.base ==> c.pinuse)
  }

  ghost predicate TopOk(t: Tags) {
    && t.base in t.head && t.top in t.head && t.head[t.top].pinuse && !t.head[t.top].cinuse
    && t.base <= t.top && t.top % 8 == 0 && 0 < t.base
  }

  /** Chunks do not overlap. */
  ghost predicate Apart(t: Tags, a: Addr, b: Addr)
    requires a in t.head
  {
    a < b ==> a + t.head[a].size <= b
  }

  ghost predicate TagsOk(t: Tags) {
    && TopOk(t)
    && (forall a {:trigger ChunkOk(t, a)} :: a in t.head && a != t.top ==> ChunkOk(t, a))
    && (forall a, b {:trigger Apart(t, a, b)} :: a in t.head && b in t.head ==> Apart(t, a, b))
  }

  function Sizes(head: map<Addr, Head>): map<Addr, nat> {
    map a | a in head :: head[a].size
  }

  /** The chunks in use. */
  function Live(t: Tags): map<Addr, nat> {
    Sizes(t.head) - (set a | a in t.head && !t.head[a].cinuse)
  }

  /** The free chunks other than the top one. */
  function Free(t: Tags): map<Addr, nat> {
    Sizes(t.head) - (set a | a in t.head && (a == t.top || t.head[a].cinuse))
  }

  /** Where the segment ends. */
  function End(t: Tags): nat
    requires t.top in t.head
  {
    t.top + t.head[t.top].size
  }

  lemma Facts(t: Tags, a: Addr)
    requires TagsOk(t) && a in t.head
    ensures a != t.top ==> ChunkOk(t, a) && a + t.head[a].size <= t.top
    ensures a % 8 == 0 && t.base <= a <= t.top && 0 < a
  {
    if a != t.top {
      assert ChunkOk(t, a) && Apart(t, a, t.top);
    }
  }

  // ----- taking chunks into use

  function SetPinuse(head: map<Addr, Head>, a: Addr, b: bool): map<Addr, Head>
    requires a in head
  {
    head[a := head[a].(pinuse := b)]
  }

  /** The whole of free chunk `p`. */
  function Taken(t: Tags, p: Addr): Tags
    requires p in t.head && p + t.head[p].size in t.head
  {
    var s := t.head[p].size;
    t.(head := SetPinuse(t.head[p := Head(s, true, true)], p + s, true))
  }

  lemma TakenChunk(t: Tags, p: Addr, a: Addr)
    requires TagsOk(t) && p in Free(t) && p + t.head[p].size in t.head && a in t.head && a != t.top
    ensures ChunkOk(Taken(t, p), a)
  {
    Facts(t, a);
    Facts(t, p);
    assert Apart(t, a, p) && Apart(t, p, a);
    if a + t.head[a].size == p {
      assert t.head[p].pinuse == t.head[a].cinuse;
    }
    if !t.head[a].pinuse && a != p + t.head[p].size {
      var b := a - t.foot[a];
      assert Apart(t, p, b) && Apart(t, b, p);
    }
  }

  lemma TakenApart(t: Tags, p: Addr, a: Addr, b: Addr)
    requires p in t.head && p + t.head[p].size in t.head && a in t.head && Apart(t, a, b)
    ensures Apart(Taken(t, p), a, b)
  {
  }

  lemma TakenOk(t: Tags, p: Addr)
    requires TagsOk(t) && p in Free(t)
    ensures p + t.head[p].size in t.head
    ensures TagsOk(Taken(t, p))
  {
    Facts(t, p);
    var t' := Taken(t, p);
    forall a | a in t'.head && a != t'.top ensures ChunkOk(t', a) {
      TakenChunk(t, p, a);
    }
    forall a, b {:trigger Apart(t', a, b)} | a in t'.head && b in t'.head ensures Apart(t', a, b) {
      assert Apart(t, a, b);
      TakenApart(t, p, a, b);
    }
  }

  lemma TakenMaps(t: Tags, p: Addr)
    requires p in Free(t) && p + t.head[p].size in t.head && t.top in t.head
    ensures Live(Taken(t, p)) == Live(t)[p := Free(t)[p]] && Free(Taken(t, p)) == Free(t) - {p}
    ensures End(Taken(t, p)) == End(t)
  {
  }

  /** The first `nb` bytes of free chunk `p`; the rest stays free. */
  function Split(t: Tags, p: Addr, nb: nat): Tags
    requires p in t.head && nb <= t.head[p].size
  {
    var s := t.head[p].size;
    t.(head := t.head[p := Head(nb, true, true)][p + nb := Head(s - nb, true, false)], foot := t.foot[p + s := s - nb])
  }

  /** `nb` bytes are a chunk, and so are the remaining ones. */
  predicate Splits(s: nat, nb: nat) {
    MIN_CHUNK_SIZE <= nb && nb + MIN_CHUNK_SIZE <= s && nb % 8 == 0
  }

  /** No chunk starts inside another. */
  lemma NoChunkInside(t: Tags, p: Addr, nb: nat)
    requires TagsOk(t) && p in t.head && 0 < nb < t.head[p].size
    ensures p + nb !in t.head
  {
    assert p + nb in t.head ==> Apart(t, p, p + nb);
  }

  lemma SplitChunk(t: Tags, p: Addr, nb: nat, a: Addr)
    requires TagsOk(t) && p in Free(t) && Splits(t.head[p].size, nb) && a in t.head && a != t.top
    ensures p + nb !in t.head
    ensures ChunkOk(Split(t, p, nb), a)
  {
    Facts(t, a);
    Facts(t, p);
    assert p + nb in t.head ==> Apart(t, p, p + nb);
    assert Apart(t, a, p) && Apart(t, p, a);
    if !t.head[a].pinuse && a != p + t.head[p].size {
      var b := a - t.foot[a];
      assert Apart(t, p, b) && Apart(t, b, p);
    }
  }

  lemma SplitRest(t: Tags, p: Addr, nb: nat)
    requires TagsOk(t) && p in Free(t) && Splits(t.head[p].size, nb) && p + nb !in t.head
    ensures ChunkOk(Split(t, p, nb), p + nb)
  {
    Facts(t, p);
  }

  lemma SplitAny(t: Tags, p: Addr, nb: nat, a: Addr)
    requires TagsOk(t) && p in Free(t) && Splits(t.head[p].size, nb) && a in Split(t, p, nb).head && a != t.top
    ensures ChunkOk(Split(t, p, nb), a)
  {
    SplitChunk(t, p, nb, p);
    if a == p + nb {
      SplitRest(t, p, nb);
    } else {
      SplitChunk(t, p, nb, a);
    }
  }

  lemma SplitApart(t: Tags, p: Addr, nb: nat, a: Addr, b: Addr)
    requires TagsOk(t) && p in Free(t) && Splits(t.head[p].size, nb) && p + nb !in t.head
    requires a in Split(t, p, nb).head && b in Split(t, p, nb).head
    ensures Apart(Split(t, p, nb), a, b)
  {
    Facts(t, p);
    if a in t.head {
      Facts(t, a);
      assert Apart(t, a, p);
      assert b in t.head ==> Apart(t, a, b);
    }
    if b in t.head {
      assert Apart(t, p, b);
    }
    assert a in t.head && a > p ==> Apart(t, p, a);
  }

  lemma SplitOk(t: Tags, p: Addr, nb: nat)
    requires TagsOk(t) && p in Free(t) && Splits(t.head[p].size, nb)
    ensures TagsOk(Split(t, p, nb)) && p + nb !in t.head
  {
    Facts(t, p);
    SplitChunk(t, p, nb, p);
    var t' := Split(t, p, nb);
    assert TopOk(t');
    forall a | a in t'.head && a != t'.top ensures ChunkOk(t', a) {
      SplitAny(t, p, nb, a);
    }
    forall a, b {:trigger Apart(t', a, b)} | a in t'.head && b in t'.head ensures Apart(t', a, b) {
      SplitApart(t, p, nb, a, b);
    }
  }

  lemma SplitMaps(t: Tags, p: Addr, nb: nat)
    requires p in Free(t) && Splits(t.head[p].size, nb) && p + nb !in t.head && t.top in t.head
    ensures Live(Split(t, p, nb)) == Live(t)[p := nb]
    ensures Free(Split(t, p, nb)) == (Free(t) - {p})[p + nb := Free(t)[p] - nb]
    ensures End(Split(t, p, nb)) == End(t)
  {
  }

  // ----- the top chunk

  /** The first `nb` bytes of the top chunk. */
  function SplitTop(t: Tags, nb: nat): Tags
    requires t.top in t.head && nb < t.head[t.top].size
  {
    var s := t.head[t.top].size;
    t.(head := t.head[t.top := Head(nb, true, true)][t.top + nb := Head(s - nb, true, false)], top := t.top + nb)
  }

  lemma SplitTopChunk(t: Tags, nb: nat, a: Addr)
    requires TagsOk(t) && MIN_CHUNK_SIZE <= nb < t.head[t.top].size && nb % 8 == 0
    requires a in SplitTop(t, nb).head && a != t.top + nb
    ensures ChunkOk(SplitTop(t, nb), a)
  {
    Facts(t, a);
  }

  lemma SplitTopApart(t: Tags, nb: nat, a: Addr, b: Addr)
    requires TagsOk(t) && MIN_CHUNK_SIZE <= nb < t.head[t.top].size && nb % 8 == 0
    requires a in SplitTop(t, nb).head && b in SplitTop(t, nb).head
    ensures Apart(SplitTop(t, nb), a, b)
  {
    if a in t.head {
      Facts(t, a);
      assert b in t.head ==> Apart(t, a, b);
    }
    if b in t.head {
      Facts(t, b);
    }
  }

  lemma SplitTopOk(t: Tags, nb: nat)
    requires TagsOk(t) && MIN_CHUNK_SIZE <= nb < t.head[t.top].size && nb % 8 == 0
    ensures TagsOk(SplitTop(t, nb)) && t.top + nb !in t.head
  {
    var t' := SplitTop(t, nb);
    if t.top + nb in t.head {
      Facts(t, t.top + nb);
    }
    assert TopOk(t');
    forall a | a in t'.head && a != t'.top ensures ChunkOk(t', a) {
      SplitTopChunk(t, nb, a);
    }
    forall a, b {:trigger Apart(t', a, b)} | a in t'.head && b in t'.head ensures Apart(t', a, b) {
      SplitTopApart(t, nb, a, b);
    }
  }

  lemma SplitTopMaps(t: Tags, nb: nat)
    requires TopOk(t) && nb < t.head[t.top].size && t.top + nb !in t.head
    ensures Live(SplitTop(t, nb)) == Live(t)[t.top := nb]
    ensures Free(SplitTop(t, nb)) == Free(t)
    ensures End(SplitTop(t, nb)) == End(t)
  {
  }

  /** The system extends the segment. */
  function Grown(t: Tags, grant: nat): Tags
    requires t.top in t.head
  {
    t.(head := t.head[t.top := Head(t.head[t.top].size + grant, true, false)])
  }

  lemma GrownOk(t: Tags, grant: nat)
    requires TagsOk(t)
    ensures TagsOk(Grown(t, grant))
  {
    var t' := Grown(t, grant);
    forall a | a in t'.head && a != t'.top ensures ChunkOk(t', a) {
      Facts(t, a);
    }
    forall a, b {:trigger Apart(t', a, b)} | a in t'.head && b in t'.head ensures Apart(t', a, b) {
      Facts(t, b);
      assert Apart(t, a, b);
    }
  }

  lemma GrownMaps(t: Tags, grant: nat)
    requires TopOk(t)
    ensures Live(Grown(t, grant)) == Live(t) && Free(Grown(t, grant)) == Free(t)
    ensures End(Grown(t, grant)) == End(t) + grant
  {
  }

  // ----- releasing

  /** The headers outside the inner part of a region. */
  function Outside(head: map<Addr, Head>, q: Addr, e: Addr): map<Addr, Head> {
    head - (set a | a in head && q < a < e)
  }

  /** The chunks from `q` up to chunk `e` become one free chunk. */
  function Freed(t: Tags, q: Addr, e: Addr): Tags
    requires q < e && e in t.head
  {
    t.(head := SetPinuse(Outside(t.head, q, e)[q := Head(e - q, true, false)], e, false), foot := t.foot[e := e - q])
  }

  /** What may become one free chunk: there is none before it and none after it. */
  ghost predicate Region(t: Tags, q: Addr, e: Addr) {
    q in t.head && e in t.head && q < e && t.head[q].pinuse
  }

  lemma RegionSize(t: Tags, q: Addr, e: Addr)
    requires TagsOk(t) && Region(t, q, e)
    ensures MIN_CHUNK_SIZE <= e - q && (e - q) % 8 == 0 && e <= t.top && q != t.top
  {
    Facts(t, q);
    Facts(t, e);
    assert Apart(t, q, e);
  }

  lemma FreedChunk(t: Tags, q: Addr, e: Addr, a: Addr)
    requires TagsOk(t) && Region(t, q, e) && t.head[e].cinuse && a in Freed(t, q, e).head && a != t.top
    ensures ChunkOk(Freed(t, q, e), a)
  {
    RegionSize(t, q, e);
    Facts(t, a);
    Facts(t, q);
    Facts(t, e);
    assert Apart(t, a, q);
    if a == q {
      assert t.head[e].cinuse;
    } else if !t.head[a].pinuse && a != e {
      var b := a - t.foot[a];
      assert Apart(t, b, e) && Apart(t, b, q);
      Facts(t, b);
    }
  }

  lemma FreedApart(t: Tags, q: Addr, e: Addr, a: Addr, b: Addr)
    requires TagsOk(t) && Region(t, q, e) && a in Freed(t, q, e).head && b in Freed(t, q, e).head
    ensures Apart(Freed(t, q, e), a, b)
  {
    assert Apart(t, a, b);
  }

  lemma FreedOk(t: Tags, q: Addr, e: Addr)
    requires TagsOk(t) && Region(t, q, e) && t.head[e].cinuse
    ensures TagsOk(Freed(t, q, e))
  {
    RegionSize(t, q, e);
    Facts(t, q);
    var t' := Freed(t, q, e);
    forall a | a in t'.head && a != t'.top ensures ChunkOk(t', a) {
      FreedChunk(t, q, e, a);
    }
    forall a, b {:trigger Apart(t', a, b)} | a in t'.head && b in t'.head ensures Apart(t', a, b) {
      FreedApart(t, q, e, a, b);
    }
  }

  /** The chunks from `q` on are given to the top chunk. */
  function FreedTop(t: Tags, q: Addr): Tags
    requires t.top in t.head && q <= t.top
  {
    t.(head := Outside(t.head, q, End(t) + 1)[q := Head(End(t) - q, true, false)], top := q)
  }

  lemma FreedTopOk(t: Tags, q: Addr)
    requires TagsOk(t) && Region(t, q, t.top)
    ensures TagsOk(FreedTop(t, q)) && End(FreedTop(t, q)) == End(t)
  {
    Facts(t, q);
    var t' := FreedTop(t, q);
    forall a | a in t'.head ensures a in t.head && a <= q {
      Facts(t, a);
    }
    forall a | a in t'.head && a != t'.top ensures ChunkOk(t', a) {
      Facts(t, a);
      assert Apart(t, a, q);
      if a + t.head[a].size == q {
        assert t.head[a].cinuse;
      }
    }
    forall a, b {:trigger Apart(t', a, b)} | a in t'.head && b in t'.head ensures Apart(t', a, b) {
      assert Apart(t, a, b);
    }
  }

  // ----- the neighbours of a chunk that is released

  /** The chunk before `p` if it is free, or `p` itself. */
  function Start(t: Tags, p: Addr): Addr
    requires p in t.head && (!t.head[p].pinuse ==> p in t.foot && t.foot[p] <= p)
  {
    if t.head[p].pinuse then p else p - t.foot[p]
  }

  /** The end of the chunk after `p` if that one is free, or the end of `p`. */
  function Stop(t: Tags, p: Addr): Addr
    requires p in t.head && p + t.head[p].size in t.head
  {
    var n := p + t.head[p].size;
    if n == t.top || t.head[n].cinuse then n else n + t.head[n].size
  }

  lemma FreeAfterUsed(t: Tags, q: Addr)
    requires TagsOk(t) && q in Free(t)
    ensures t.head[q].pinuse
  {
    Facts(t, q);
    if !t.head[q].pinuse {
      Facts(t, q - t.foot[q]);
    }
  }

  /** The facts that the release of `p` rests on. */
  ghost predicate Releasable(t: Tags, p: Addr) {
    && p in Live(t) && p + t.head[p].size in t.head && (!t.head[p].pinuse ==> p in t.foot && t.foot[p] <= p)
    && Start(t, p) in t.head && Start(t, p) != t.top && Start(t, p) < Stop(t, p) && Stop(t, p) in t.head
  }

  /** What dlfree finds around a chunk in use. */
  lemma Neighbours(t: Tags, p: Addr)
    requires TagsOk(t) && p in Live(t)
    ensures Releasable(t, p) && t.head[p + t.head[p].size].pinuse
    ensures !t.head[p].pinuse ==> p in t.foot && t.foot[p] <= p && Start(t, p) in Free(t) && Free(t)[Start(t, p)] == t.foot[p]
    ensures p + t.head[p].size != t.top && !t.head[p + t.head[p].size].cinuse ==> p + t.head[p].size in Free(t)
    ensures Region(t, Start(t, p), Stop(t, p))
    ensures Stop(t, p) != t.top ==> t.head[Stop(t, p)].cinuse
    ensures Start(t, p) <= p < p + t.head[p].size <= Stop(t, p)
  {
    Facts(t, p);
    var n := p + t.head[p].size;
    Facts(t, n);
    if !t.head[p].pinuse {
      Facts(t, Start(t, p));
      FreeAfterUsed(t, Start(t, p));
    }
  }

  /** Only `p` and the chunk after it can lie inside the merged region. */
  lemma Inner(t: Tags, p: Addr, a: Addr)
    requires TagsOk(t) && p in Live(t) && a in t.head
    ensures p + t.head[p].size in t.head && (!t.head[p].pinuse ==> p in t.foot && t.foot[p] <= p)
    ensures Start(t, p) < a < Stop(t, p) <==>
            (a == p && !t.head[p].pinuse) || (a == p + t.head[p].size && a != t.top && !t.head[a].cinuse)
  {
    Neighbours(t, p);
    var q, n := Start(t, p), p + t.head[p].size;
    Facts(t, p);
    Facts(t, n);
    Facts(t, a);
    Facts(t, q);
    assert Apart(t, q, a) && Apart(t, p, a) && Apart(t, n, a);
  }

  lemma FreedAt(t: Tags, p: Addr, a: Addr)
    requires TagsOk(t) && Releasable(t, p) && Stop(t, p) != t.top
    ensures var q, e, n := Start(t, p), Stop(t, p), p + t.head[p].size;
            var t' := Freed(t, q, e);
            && (a in t'.head <==> a in t.head && (a == p ==> p == q) && (a == n ==> t.head[n].cinuse))
            && (a in t'.head ==> t'.head[a].cinuse == (a != q && t.head[a].cinuse))
            && (a in t'.head ==> t'.head[a].size == if a == q then e - q else t.head[a].size)
  {
    Neighbours(t, p);
    if a in t.head {
      Inner(t, p, a);
    }
  }

  lemma FreedLive(t: Tags, p: Addr)
    requires TagsOk(t) && Releasable(t, p) && Stop(t, p) != t.top
    ensures Live(Freed(t, Start(t, p), Stop(t, p))) == Live(t) - {p}
  {
    Neighbours(t, p);
    var t' := Freed(t, Start(t, p), Stop(t, p));
    forall a ensures (a in Live(t') <==> a in Live(t) - {p}) && (a in Live(t') ==> Live(t')[a] == Live(t)[a]) {
      FreedAt(t, p, a);
    }
  }

  lemma FreedFree(t: Tags, p: Addr)
    requires TagsOk(t) && Releasable(t, p) && Stop(t, p) != t.top
    ensures Free(Freed(t, Start(t, p), Stop(t, p))) ==
            (Free(t) - {p + t.head[p].size})[Start(t, p) := Stop(t, p) - Start(t, p)]
  {
    Neighbours(t, p);
    var t' := Freed(t, Start(t, p), Stop(t, p));
    var free': map<Addr, nat> := (Free(t) - {p + t.head[p].size})[Start(t, p) := Stop(t, p) - Start(t, p)];
    forall a: Addr ensures (a in Free(t') <==> a in free') && (a in Free(t') ==> Free(t')[a] == free'[a]) {
      FreedAt(t, p, a);
    }
  }

  /** The header updates that release `p`; headers inside the merged chunk are dead. */
  function FreedHead(head: map<Addr, Head>, p: Addr, q: Addr, s: nat, next: Addr, merged: bool): map<Addr, Head>
    requires next in head
  {
    if merged then (head - {p, next})[q := Head(s, true, false)]
    else (SetPinuse(head, next, false) - {p})[q := Head(s, true, false)]
  }

  lemma FreedHeadAt(t: Tags, p: Addr, a: Addr)
    requires TagsOk(t) && Releasable(t, p) && Stop(t, p) != t.top
    ensures var q, e, n := Start(t, p), Stop(t, p), p + t.head[p].size;
            var head', head'' := Freed(t, q, e).head, FreedHead(t.head, p, q, e - q, n, n != e);
            && (a in head' <==> a in head'')
            && (a in head' ==> head'[a] == head''[a])
  {
    Neighbours(t, p);
    var n := p + t.head[p].size;
    Facts(t, n);
    if a in t.head {
      Inner(t, p, a);
    }
  }

  lemma FreedIs(t: Tags, p: Addr)
    requires TagsOk(t) && Releasable(t, p) && Stop(t, p) != t.top
    ensures var q, e, n := Start(t, p), Stop(t, p), p + t.head[p].size;
            Freed(t, q, e) == t.(head := FreedHead(t.head, p, q, e - q, n, n != e), foot := t.foot[e := e - q])
  {
    var q, e, n := Start(t, p), Stop(t, p), p + t.head[p].size;
    forall a: Addr
      ensures a in Freed(t, q, e).head <==> a in FreedHead(t.head, p, q, e - q, n, n != e)
      ensures a in Freed(t, q, e).head ==> Freed(t, q, e).head[a] == FreedHead(t.head, p, q, e - q, n, n != e)[a]
    {
      FreedHeadAt(t, p, a);
    }
    assert Freed(t, q, e).head == FreedHead(t.head, p, q, e - q, n, n != e);
  }

  lemma FreedTopIs(t: Tags, p: Addr)
    requires TagsOk(t) && Releasable(t, p) && Stop(t, p) == t.top
    ensures var q := Start(t, p);
            FreedTop(t, q) == t.(head := (t.head - {p, t.top})[q := Head(End(t) - q, true, false)], top := q)
  {
    Neighbours(t, p);
    var q := Start(t, p);
    forall a: Addr | a in t.head
      ensures q < a < End(t) + 1 <==> a == t.top || (a == p && !t.head[p].pinuse)
    {
      Inner(t, p, a);
      Facts(t, a);
    }
    assert FreedTop(t, q).head == (t.head - {p, t.top})[q := Head(End(t) - q, true, false)];
  }

  lemma FreedTopMaps(t: Tags, p: Addr)
    requires TagsOk(t) && Releasable(t, p) && Stop(t, p) == t.top
    ensures Live(FreedTop(t, Start(t, p))) == Live(t) - {p}
    ensures Free(FreedTop(t, Start(t, p))) == Free(t) - {Start(t, p)}
  {
    Neighbours(t, p);
    FreedTopIs(t, p);
    var q := Start(t, p);
    var t' := FreedTop(t, q);
    FreedTopLive(t, t', p, q, t'.head[q]);
    FreedTopFree(t, t', p, q, t'.head[q]);
  }

  lemma FreedTopLive(t: Tags, t': Tags, p: Addr, q: Addr, h: Head)
    requires t'.head == (t.head - {p, t.top})[q := h] && !h.cinuse && TopOk(t) && p in Live(t)
    requires q == p || q in Free(t)
    ensures Live(t') == Live(t) - {p}
  {
  }

  lemma FreedTopFree(t: Tags, t': Tags, p: Addr, q: Addr, h: Head)
    requires t'.head == (t.head - {p, t.top})[q := h] && t'.top == q && TopOk(t) && p in Live(t)
    ensures Free(t') == Free(t) - {q}
  {
  }
}
