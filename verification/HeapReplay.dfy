/**
  What a run returns follows from its operations: two runs of the same operations on heaps of the same shape
  hand out the same addresses and leave the same heap.
 */
module HeapReplay {
  import opened Chunks
  import opened HeapRuns
  import opened HeapState
  import T = Tags

  /** Two heaps with the same chunks, in use and free, the same top chunk, designated victim and bins. */
  ghost predicate Alike(v: View, w: View) {
    && T.Live(v.t) == T.Live(w.t) && T.Free(v.t) == T.Free(w.t)
    && v.t.base == w.t.base && v.t.top == w.t.top && TopSize(v.t) == TopSize(w.t)
    && v.dv == w.dv && v.dvsize == w.dvsize && v.order == w.order
  }

  // ----- dlmalloc

  lemma SameFits(v: View, w: View, nb: nat)
    requires Alike(v, w)
    ensures NoFit(v.t, nb) <==> NoFit(w.t, nb)
    ensures BestOf(v.t, nb, v.dv) <==> BestOf(w.t, nb, w.dv)
    ensures Fits(v.t, nb, v.dv) <==> Fits(w.t, nb, w.dv)
    ensures SnugFit(v.t, v.dv, nb) <==> SnugFit(w.t, w.dv, nb)
    ensures forall p :: BestBinned(v.t, v.dv, nb, p) <==> BestBinned(w.t, w.dv, nb, p)
  {
  }

  /** The binned chunk that is taken is the first of the least size that fits. */
  lemma OneChunk(v: View, nb: nat, p: Addr, q: Addr)
    requires BestBinned(v.t, v.dv, nb, p) && BestBinned(v.t, v.dv, nb, q)
    requires First(v.order, p, T.Free(v.t)[p]) && First(v.order, q, T.Free(v.t)[q])
    ensures p == q
  {
    OneFirst(v.order, p, q, T.Free(v.t)[p]);
  }

  lemma SameChunk(v: View, w: View, v': View, w': View, bytes: nat, grant: nat, p: Addr, q: Addr)
    requires Alike(v, w) && MallocDone(v, v', bytes, grant, p) && MallocDone(w, w', bytes, grant, q)
    ensures p == q
  {
    var nb := Padded(bytes);
    SameFits(v, w, nb);
    if !NoFit(v.t, nb) && p != v.dv {
      assert q != w.dv;
      OneChunk(v, nb, p, q);
    }
  }

  lemma SameReuse(v: View, w: View, v': View, w': View, nb: nat, p: Addr, toDv: bool)
    requires Alike(v, w) && v'.t.base == w'.t.base && Reused(v, v', nb, p, toDv) && Reused(w, w', nb, p, toDv)
    ensures Alike(v', w')
  {
  }

  lemma SameTop(v: View, w: View, v': View, w': View, nb: nat, grant: nat, p: Addr)
    requires Alike(v, w) && v'.t.base == w'.t.base && OffTop(v, v', nb, grant, p) && OffTop(w, w', nb, grant, p)
    ensures Alike(v', w')
  {
  }

  /** One allocation: the same address and the same heap. */
  lemma SameMalloc(v: View, w: View, v': View, w': View, bytes: nat, grant: nat, p: Addr, q: Addr)
    requires Alike(v, w) && v'.t.base == w'.t.base
    requires MallocDone(v, v', bytes, grant, p) && MallocDone(w, w', bytes, grant, q)
    ensures p == q && Alike(v', w')
  {
    var nb := Padded(bytes);
    SameChunk(v, w, v', w', bytes, grant, p, q);
    SameFits(v, w, nb);
    if NoFit(v.t, nb) {
      SameTop(v, w, v', w', nb, grant, p);
    } else {
      SameReuse(v, w, v', w', nb, p, bytes <= MAX_SMALL_REQUEST);
    }
  }

  // ----- dlfree

  /** The chunk before `p`, if it is free, is the only free chunk that ends there. */
  lemma StartIs(t: T.Tags, p: Addr, q: Addr)
    requires T.TagsOk(t) && p in T.Live(t) && q in T.Free(t) && q + T.Free(t)[q] == p
    ensures T.Releasable(t, p) && T.Start(t, p) == q
  {
    T.Neighbours(t, p);
    T.Facts(t, q);
  }

  lemma SameStart(t: T.Tags, u: T.Tags, p: Addr)
    requires T.TagsOk(t) && T.TagsOk(u) && T.Free(t) == T.Free(u) && p in T.Live(t) && p in T.Live(u)
    ensures T.Releasable(t, p) && T.Releasable(u, p) && T.Start(t, p) == T.Start(u, p)
  {
    T.Neighbours(t, p);
    T.Neighbours(u, p);
    if !t.head[p].pinuse {
      StartIs(u, p, T.Start(t, p));
    } else if !u.head[p].pinuse {
      StartIs(t, p, T.Start(u, p));
    }
  }

  lemma SameStop(t: T.Tags, u: T.Tags, p: Addr)
    requires T.TagsOk(t) && T.TagsOk(u) && T.Free(t) == T.Free(u) && t.top == u.top
    requires p in T.Live(t) && p in T.Live(u) && T.Live(t)[p] == T.Live(u)[p]
    ensures T.Releasable(t, p) && T.Releasable(u, p) && T.Stop(t, p) == T.Stop(u, p)
  {
    T.Neighbours(t, p);
    T.Neighbours(u, p);
    var n := p + T.Live(t)[p];
    assert n in T.Free(t) <==> n != t.top && !t.head[n].cinuse;
    assert n in T.Free(u) <==> n != u.top && !u.head[n].cinuse;
  }

  lemma SameAround(v: View, w: View, q: Addr, next: Addr)
    requires Alike(v, w)
    ensures OutAround(v, q, next) == OutAround(w, q, next) && OutBefore(v, q) == OutBefore(w, q)
  {
  }

  lemma SameMerge(v: View, w: View, v': View, w': View, q: Addr, next: Addr, s: nat)
    requires Alike(v, w) && v'.t.base == w'.t.base && T.Live(v'.t) == T.Live(w'.t)
    requires Merged(v, v', q, next, s) && Merged(w, w', q, next, s)
    ensures Alike(v', w')
  {
    SameAround(v, w, q, next);
  }

  lemma SameGone(v: View, w: View, v': View, w': View, q: Addr)
    requires Alike(v, w) && v'.t.base == w'.t.base && T.Live(v'.t) == T.Live(w'.t)
    requires GoneToTop(v, v', q) && GoneToTop(w, w', q)
    ensures Alike(v', w')
  {
    SameAround(v, w, q, q);
  }

  /** One release: the same heap. */
  lemma SameFree(v: View, w: View, v': View, w': View, p: Addr)
    requires HeapOk(v) && HeapOk(w) && Alike(v, w) && v'.t.base == w'.t.base && p in T.Live(v.t)
    requires Released(v, v', p) && Released(w, w', p)
    ensures Alike(v', w')
  {
    SameStart(v.t, w.t, p);
    SameStop(v.t, w.t, p);
    SameRelease(v, w, v', w', p, T.Start(v.t, p), p + T.Live(v.t)[p], T.Stop(v.t, p));
  }

  lemma SameRelease(v: View, w: View, v': View, w': View, p: Addr, q: Addr, next: Addr, stop: Addr)
    requires T.Releasable(v.t, p) && T.Releasable(w.t, p) && q == T.Start(v.t, p) == T.Start(w.t, p)
    requires stop == T.Stop(v.t, p) == T.Stop(w.t, p) && p in T.Live(v.t) && next == p + T.Live(v.t)[p]
    requires Alike(v, w) && v'.t.base == w'.t.base && Released(v, v', p) && Released(w, w', p)
    ensures Alike(v', w')
  {
    assert T.Live(v'.t) == T.Live(w'.t);
    if next == v.t.top {
      SameGone(v, w, v', w', q);
    } else {
      SameMerge(v, w, v', w', q, next, stop - q);
    }
  }

  // ----- runs

  lemma SameAllocation(v: View, w: View, v': View, w': View, bytes: nat, wish: nat, got: Addr, got': Addr, blocks: map<Addr, nat>)
    requires HeapOk(v) && HeapOk(w) && Alike(v, w)
    requires Performed(v, v', Malloc(bytes, wish), got, blocks) && Performed(w, w', Malloc(bytes, wish), got', blocks)
    ensures Alike(v', w') && got == got'
  {
    var p, q := if got == 0 then 0 else got - 8, if got' == 0 then 0 else got' - 8;
    SameMalloc(v, w, v', w', bytes, Granted(v.t, wish), p, q);
  }

  lemma SameStep(v: View, w: View, v': View, w': View, op: Op, got: Addr, got': Addr, blocks: map<Addr, nat>)
    requires HeapOk(v) && HeapOk(w) && Alike(v, w)
    requires Performed(v, v', op, got, blocks) && Performed(w, w', op, got', blocks)
    ensures Alike(v', w') && got == got'
  {
    match op
    case Malloc(bytes, wish) =>
      SameAllocation(v, w, v', w', bytes, wish, got, got', blocks);
    case Free(mem) =>
      if mem in blocks {
        SameFree(v, w, v', w', mem - 8);
      }
  }

  /** The history up to operation `n`. */
  lemma {:induction false} SameUpTo(vs: seq<View>, ws: seq<View>, ops: seq<Op>, got: seq<Addr>, got': seq<Addr>, n: nat)
    requires |ops| == |got| == |got'| && History(vs, ops, got) && History(ws, ops, got') && Alike(vs[0], ws[0]) && n <= |ops|
    ensures got[..n] == got'[..n] && Alike(vs[n], ws[n])
  {
    if n > 0 {
      var i: nat := n - 1;
      SameUpTo(vs, ws, ops, got, got', i);
      SameNext(vs, ws, ops, got, got', i);
      assert got[..n] == got[..i] + [got[i]] && got'[..n] == got'[..i] + [got'[i]];
    }
  }

  lemma SameNext(vs: seq<View>, ws: seq<View>, ops: seq<Op>, got: seq<Addr>, got': seq<Addr>, i: nat)
    requires |ops| == |got| == |got'| && History(vs, ops, got) && History(ws, ops, got') && i < |ops|
    requires got[..i] == got'[..i] && Alike(vs[i], ws[i])
    ensures got[i] == got'[i] && Alike(vs[i + 1], ws[i + 1])
  {
    assert Moment(vs, ops, got, i) && Moment(ws, ops, got', i);
    assert Step(vs, ops, got, i) && Step(ws, ops, got', i);
    SameStep(vs[i], ws[i], vs[i + 1], ws[i + 1], ops[i], got[i], got'[i], InUse(ops[..i], got[..i]));
  }

  /** The operations alone decide which addresses are returned and what the heap is at every moment. */
  lemma Replayed(vs: seq<View>, ws: seq<View>, ops: seq<Op>, got: seq<Addr>, got': seq<Addr>)
    requires |ops| == |got| == |got'| && History(vs, ops, got) && History(ws, ops, got') && Alike(vs[0], ws[0])
    ensures got == got' && forall i: nat {:trigger Alike(vs[i], ws[i])} :: i <= |ops| ==> Alike(vs[i], ws[i])
  {
    SameUpTo(vs, ws, ops, got, got', |ops|);
    assert got[..|ops|] == got && got'[..|ops|] == got';
    forall i: nat | i <= |ops| ensures Alike(vs[i], ws[i]) {
      SameUpTo(vs, ws, ops, got, got', i);
    }
  }
}
