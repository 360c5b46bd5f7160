/**
  dlmalloc and dlfree on one contiguous segment. `grant` is what the system adds at the end of
  the segment when a request cannot be served otherwise; 0 stands for a refusal.
 */
module Heap {
  import opened BinOrder
  import opened Chunks
  import opened HeapState
  import opened Words
  import S = SmallBins
  import T = Tags
  import L = TreeBins
  import LS = TreeBinState
  import Search = TreeSearch

  class Heap {
    var head: map<Addr, T.Head>
    var foot: map<Addr, nat>
    var top: Addr
    var topsize: nat
    var dv: Addr
    var dvsize: nat
    const small: S.SmallBins
    const tree: L.TreeBins
    ghost var base: Addr

    ghost function Tags(): T.Tags
      reads this
    {
      T.Tags(head, foot, base, top)
    }

    ghost function Bins(): Order
      reads this, small, tree
    {
      Order(small.rings, tree.rings)
    }

    ghost function Now(): View
      reads this, small, tree
    {
      View(Tags(), dv, dvsize, small.Contents(), tree.Contents(), Bins())
    }

    ghost predicate Valid()
      reads this, small, tree
    {
      && small.Valid() && tree.Valid() && HeapOk(Now()) && topsize == head[top].size
    }

    /** The chunks in use. */
    ghost function Live(): map<Addr, nat>
      reads this
    {
      T.Live(Tags())
    }

    /** init_bins and init_top: one segment that is all top chunk. */
    constructor (start: Addr, size: nat)
      requires 0 < start && start % 8 == 0 && start + size < WORD
      ensures Valid() && Live() == map[] && base == start && T.End(Tags()) == start + size && top in head
    {
      small := new S.SmallBins();
      tree := new L.TreeBins();
      base, top, topsize := start, start, size;
      head := map[start := T.Head(size, true, false)];
      foot := map[];
      dv, dvsize := 0, 0;
    }

    /** Every binned chunk stands in the line of its size. */
    lemma InOrder()
      requires Valid()
      ensures OrderOk(Bins()) && LinesHold(Bins(), Rest(T.Free(Tags()), dv))
    {
      LinesOk(small.St(), tree.St(), Bins(), Rest(T.Free(Tags()), dv));
    }

    // ----- insert_chunk, unlink_chunk, replace_dv

    ghost predicate BinsHold(rest: map<Addr, nat>)
      reads small, tree
    {
      small.Valid() && tree.Valid() && Parts(small.Contents(), tree.Contents(), rest)
    }

    method InsertChunk(x: Addr, s: nat, ghost rest: map<Addr, nat>)
      requires BinsHold(rest) && x !in rest && x != 0 && MIN_CHUNK_SIZE <= s < WORD && s % 8 == 0
      modifies small, tree
      ensures BinsHold(rest[x := s]) && Bins() == Put(old(Bins()), x, s)
    {
      PartsInsert(small.Contents(), tree.Contents(), rest, x, s);
      if S.IsSmall(s) {
        small.Insert(x, s);
      } else {
        tree.Insert(x, s);
      }
    }

    method UnlinkChunk(x: Addr, s: nat, ghost rest: map<Addr, nat>)
      requires BinsHold(rest) && x in rest && rest[x] == s
      modifies small, tree
      ensures BinsHold(rest - {x}) && Bins() == Drop(old(Bins()), x, s)
    {
      PartsRemove(small.Contents(), tree.Contents(), rest, x);
      if S.IsSmall(s) {
        small.Unlink(x, s);
      } else {
        tree.Unlink(x);
      }
    }

    /** The remainder of a split becomes the designated victim; the old one is binned. */
    method ReplaceDv(p: Addr, s: nat, ghost rest: map<Addr, nat>)
      requires BinsHold(rest) && dv !in rest && (dv == 0 <==> dvsize == 0)
      requires dvsize != 0 ==> S.SmallSize(dvsize)
      modifies this`dv, this`dvsize, small
      ensures BinsHold(if old(dvsize) == 0 then rest else rest[old(dv) := old(dvsize)])
      ensures dv == p && dvsize == s && Bins() == if old(dvsize) == 0 then old(Bins()) else Put(old(Bins()), old(dv), old(dvsize))
    {
      if dvsize != 0 {
        PartsInsert(small.Contents(), tree.Contents(), rest, dv, dvsize);
        small.Insert(dv, dvsize);
      }
      dvsize, dv := s, p;
    }

    // ----- header updates

    /** set_inuse_and_pinuse for the whole of a free chunk. */
    method TakeTags(p: Addr, s: nat)
      requires p in head && head[p].size == s && p + s in head
      modifies this`head
      ensures Tags() == T.Taken(old(Tags()), p)
    {
      head := head[p := T.Head(s, true, true)];
      head := head[p + s := head[p + s].(pinuse := true)];
    }

    /** set_size_and_pinuse_of_inuse_chunk for the lower part, set_size_and_pinuse_of_free_chunk for the rest. */
    method SplitTags(p: Addr, nb: nat, rsize: nat)
      requires p in head && head[p].size == nb + rsize
      modifies this`head, this`foot
      ensures Tags() == T.Split(old(Tags()), p, nb)
    {
      head := head[p := T.Head(nb, true, true)];
      head := head[p + nb := T.Head(rsize, true, false)];
      foot := foot[p + nb + rsize := rsize];
    }

    /** Split a chunk that has left its bin and make the remainder the designated victim. */
    method SplitDv(p: Addr, nb: nat, rsize: nat, ghost rest: map<Addr, nat>)
      requires p in head && head[p].size == nb + rsize
      requires BinsHold(rest) && dv !in rest && (dv == 0 <==> dvsize == 0) && (dvsize != 0 ==> S.SmallSize(dvsize))
      modifies this`head, this`foot, this`dv, this`dvsize, small
      ensures Tags() == T.Split(old(Tags()), p, nb) && dv == p + nb && dvsize == rsize
      ensures BinsHold(if old(dvsize) == 0 then rest else rest[old(dv) := old(dvsize)])
      ensures Bins() == if old(dvsize) == 0 then old(Bins()) else Put(old(Bins()), old(dv), old(dvsize))
    {
      SplitTags(p, nb, rsize);
      ReplaceDv(p + nb, rsize, rest);
    }

    /** Split a chunk that has left its bin and bin the remainder. */
    method SplitBin(p: Addr, nb: nat, rsize: nat, ghost rest: map<Addr, nat>)
      requires p in head && head[p].size == nb + rsize && p + nb !in rest && p + nb != 0
      requires BinsHold(rest) && MIN_CHUNK_SIZE <= rsize < WORD && rsize % 8 == 0
      modifies this`head, this`foot, small, tree
      ensures Tags() == T.Split(old(Tags()), p, nb) && BinsHold(rest[p + nb := rsize]) && Bins() == Put(old(Bins()), p + nb, rsize)
    {
      SplitTags(p, nb, rsize);
      InsertChunk(p + nb, rsize, rest);
    }

    /** Take all of free chunk `p`. */
    method TakeFree(p: Addr, s: nat, nb: nat, ghost v: View)
      requires HeapOk(v) && v.t == Tags() && p in T.Free(v.t) && T.Free(v.t)[p] == s && nb <= s < nb + MIN_CHUNK_SIZE
      modifies this`head
      ensures TakenBy(v.t, Tags(), p, nb)
    {
      ServeWhole(v, p, nb);
      TakeTags(p, s);
    }

    /** Take the lower `nb` bytes of free chunk `p`. */
    method SplitFree(p: Addr, nb: nat, rsize: nat, ghost v: View)
      requires HeapOk(v) && v.t == Tags() && p in T.Free(v.t) && T.Free(v.t)[p] == nb + rsize && T.Splits(nb + rsize, nb)
      modifies this`head, this`foot
      ensures SplitBy(v.t, Tags(), p, nb, rsize)
    {
      ServeSplit(v, p, nb);
      SplitTags(p, nb, rsize);
    }

    // ----- serving a request from a chunk that has just left its bin

    /** The heap is as in `v`, but chunk `p` is no longer in a bin. */
    ghost predicate Holding(v: View, p: Addr, s: nat)
      reads this, small, tree
    {
      && FromBin(v, p, s) && v.t == Tags() && v.dv == dv && v.dvsize == dvsize && topsize == head[top].size
      && BinsHold(Rest(T.Free(v.t), v.dv) - {p}) && First(v.order, p, s) && Bins() == Drop(v.order, p, s)
    }

    method UseWhole(p: Addr, s: nat, nb: nat, ghost v: View)
      requires Holding(v, p, s) && nb <= s < nb + MIN_CHUNK_SIZE
      modifies this`head
      ensures Valid() && Served(v.t, Tags(), nb, p) && Reused(v, Now(), nb, p, true) && Reused(v, Now(), nb, p, false)
    {
      TakeFree(p, s, nb, v);
      WholeHeap(T.Free(v.t), v.dv, v.dvsize, p, Now());
    }

    method UseSplitDv(p: Addr, nb: nat, rsize: nat, ghost v: View)
      requires Holding(v, p, nb + rsize) && T.Splits(nb + rsize, nb) && dvsize < MIN_LARGE_SIZE
      modifies this`head, this`foot, this`dv, this`dvsize, small
      ensures Valid() && Served(v.t, Tags(), nb, p) && Reused(v, Now(), nb, p, true)
    {
      DvBinnable(v);
      SplitDv(p, nb, rsize, Rest(T.Free(v.t), v.dv) - {p});
      ghost var v' := View(T.Split(v.t, p, nb), p + nb, rsize, small.Contents(), tree.Contents(), Bins());
      assert Now() == v';
      SplitDvDone(v, p, nb, rsize, v');
      NewDvReused(v, p, nb, rsize, v');
    }

    method UseSplitBin(p: Addr, nb: nat, rsize: nat, ghost v: View)
      requires Holding(v, p, nb + rsize) && T.Splits(nb + rsize, nb)
      modifies this`head, this`foot, small, tree
      ensures Valid() && Served(v.t, Tags(), nb, p) && Reused(v, Now(), nb, p, false)
    {
      RemainderBinnable(v, p, nb, rsize);
      SplitBin(p, nb, rsize, Rest(T.Free(v.t), v.dv) - {p});
      ghost var v' := View(T.Split(v.t, p, nb), v.dv, v.dvsize, small.Contents(), tree.Contents(), Bins());
      assert Now() == v';
      SplitBinDone(v, p, nb, rsize, v');
      BinnedReused(v, p, nb, rsize, v');
    }

    // ----- small requests

    /** The first chunk of small bin `i` leaves it. */
    method TakeFirst(i: nat, ghost v: View) returns (p: Addr)
      requires Valid() && v == Now() && i < S.NSMALLBINS && Marked(small.smallmap, i)
      modifies small
      ensures p != 0 && Holding(v, p, 8 * i)
    {
      p := small.UnlinkFirst(i);
      BinnedIsFree(v, p);
      FreeSize(v, p);
      PartsRemove(v.small, v.large, Rest(T.Free(v.t), v.dv), p);
    }

    /** A large chunk leaves its bin. */
    method TakeLarge(p: Addr, s: nat, ghost v: View)
      requires Valid() && v == Now() && p in tree.Contents() && tree.Contents()[p] == s && L.IsFirst(tree.rings, p, s)
      modifies tree
      ensures p != 0 && Holding(v, p, s)
    {
      BinnedIsFree(v, p);
      FreeSize(v, p);
      PartsRemove(v.small, v.large, Rest(T.Free(v.t), v.dv), p);
      tree.Unlink(p);
    }

    /** From the bin of the size or the next one, or else from the smallest binned chunk that fits. */
    method SmallRequest(nb: nat) returns (p: Addr)
      requires Valid() && MIN_CHUNK_SIZE <= nb < MIN_LARGE_SIZE && nb % 8 == 0
      modifies this, small, tree
      ensures Valid()
      ensures p == 0 ==> Now() == old(Now()) && (if nb <= dvsize then !SnugFit(Tags(), dv, nb) else NoFit(Tags(), nb))
      ensures p != 0 ==> Served(old(Tags()), Tags(), nb, p) && BestBinned(old(Tags()), old(dv), nb, p) && Reused(old(Now()), Now(), nb, p, true)
      ensures p != 0 ==> SnugFit(old(Tags()), old(dv), nb) || nb > old(dvsize)
    {
      ghost var v := Now();
      var idx := nb / 8;
      var found, i := small.Remainderless(idx);
      if !found {
        NotSnug(v, nb);
      }
      if found {
        p := TakeFirst(i, v);
        SmallBest(v, nb, p, 8 * i);
        SnugIs(v, nb, p, 8 * i);
        UseWhole(p, 8 * i, nb, v);
      } else if nb > dvsize {
        p := SmallSplit(nb, idx);
      } else {
        p := 0;
      }
    }

    method SmallSplit(nb: nat, idx: nat) returns (p: Addr)
      requires Valid() && MIN_CHUNK_SIZE <= nb < MIN_LARGE_SIZE && nb == 8 * idx && nb > dvsize
      requires !Marked(small.smallmap, idx)
      requires forall a :: a in small.Contents() && nb <= small.Contents()[a] ==> nb + MIN_CHUNK_SIZE <= small.Contents()[a]
      modifies this, small, tree
      ensures Valid()
      ensures p == 0 ==> Now() == old(Now()) && NoFit(Tags(), nb)
      ensures p != 0 ==> Served(old(Tags()), Tags(), nb, p) && BestBinned(old(Tags()), old(dv), nb, p) && Reused(old(Now()), Now(), nb, p, true)
    {
      ghost var v := Now();
      var found, i := small.NextFit(idx);
      if found {
        S.FirstChunk(small.St(), i);
        assert 8 * i in small.Contents().Values;
        p := TakeFirst(i, v);
        SmallBest(v, nb, p, 8 * i);
        UseSplitDv(p, nb, 8 * i - nb, v);
      } else if tree.treemap != 0 {
        p := TreeSmall(nb);
      } else {
        p := 0;
        Search.NothingBinned(tree.St());
        assert v.large == map[];
        NothingFits(v, nb);
      }
    }

    /** tmalloc_small */
    method TreeSmall(nb: nat) returns (p: Addr)
      requires Valid() && MIN_CHUNK_SIZE <= nb < MIN_LARGE_SIZE && nb % 8 == 0 && nb > dvsize && tree.treemap != 0
      requires forall a :: a in small.Contents() ==> small.Contents()[a] < nb
      modifies this, small, tree
      ensures Valid() && p != 0 && Served(old(Tags()), Tags(), nb, p) && BestBinned(old(Tags()), old(dv), nb, p) && Reused(old(Now()), Now(), nb, p, true)
    {
      ghost var v := Now();
      var rsize;
      p, rsize := tree.Smallest(nb);
      assert tree.Contents() == v.large && small.Contents() == v.small;
      LargeBest(v, nb, p, nb + rsize);
      TakeLarge(p, nb + rsize, v);
      if rsize < MIN_CHUNK_SIZE {
        UseWhole(p, rsize + nb, nb, v);
      } else {
        UseSplitDv(p, nb, rsize, v);
      }
    }

    // ----- large requests

    /** The part of tmalloc_large that takes the chunk found. */
    method UseLarge(p: Addr, nb: nat, rsize: nat, ghost v: View)
      requires Valid() && v == Now() && p in tree.Contents() && tree.Contents()[p] == nb + rsize && L.IsFirst(tree.rings, p, nb + rsize)
      requires MIN_CHUNK_SIZE <= nb && nb % 8 == 0
      modifies this, small, tree
      ensures Valid() && p != 0 && Served(v.t, Tags(), nb, p) && Reused(v, Now(), nb, p, false)
    {
      TakeLarge(p, nb + rsize, v);
      if rsize < MIN_CHUNK_SIZE {
        UseWhole(p, rsize + nb, nb, v);
      } else {
        UseSplitBin(p, nb, rsize, v);
      }
    }

    /** tmalloc_large: the best fit, unless the designated victim fits at least as well. */
    method TreeLarge(nb: nat) returns (p: Addr)
      requires Valid() && MIN_LARGE_SIZE <= nb < WORD && nb % 8 == 0
      modifies this, small, tree
      ensures Valid()
      ensures p == 0 <==> Declined(old(tree.Contents()), nb, old(dvsize))
      ensures p == 0 ==> Now() == old(Now())
      ensures p == 0 ==> if nb <= dvsize then BestOf(Tags(), nb, dv) else NoFit(Tags(), nb)
      ensures p != 0 ==> Served(old(Tags()), Tags(), nb, p) && BestOf(old(Tags()), nb, p) && BestBinned(old(Tags()), old(dv), nb, p)
      ensures p != 0 ==> !BestOf(old(Tags()), nb, old(dv)) && Reused(old(Now()), Now(), nb, p, false)
    {
      ghost var v := Now();
      var best, rsize := tree.BestFit(nb);
      assert tree.Contents() == v.large;
      DvPositive(v);
      if best != 0 {
        BinnedIsFree(v, best);
        FreeSize(v, best);
        BetterThanDv(dvsize, nb, rsize);
      }
      if best != 0 && rsize < (dvsize + WORD - nb) % WORD {
        BestOverall(v, nb, best);
        SmallTooSmall(v, nb);
        LargeBest(v, nb, best, nb + rsize);
        UseLarge(best, nb, rsize, v);
        return best;
      }
      assert best != 0 ==> nb <= dvsize <= v.large[best];
      assert Declined(v.large, nb, dvsize);
      TreeDeclines(v, nb);
      p := 0;
    }

    method LargeRequest(nb: nat) returns (p: Addr)
      requires Valid() && MIN_LARGE_SIZE <= nb < WORD && nb % 8 == 0
      modifies this, small, tree
      ensures Valid()
      ensures p == 0 ==> Now() == old(Now())
      ensures p == 0 ==> if nb <= dvsize then BestOf(Tags(), nb, dv) else NoFit(Tags(), nb)
      ensures p != 0 ==> Served(old(Tags()), Tags(), nb, p) && BestOf(old(Tags()), nb, p) && BestBinned(old(Tags()), old(dv), nb, p)
      ensures p != 0 ==> !BestOf(old(Tags()), nb, old(dv)) && Reused(old(Now()), Now(), nb, p, false)
    {
      if tree.treemap != 0 {
        p := TreeLarge(nb);
      } else {
        p := 0;
        Search.NothingBinned(tree.St());
        assert Now().large == map[];
        TreeDeclines(Now(), nb);
      }
    }

    // ----- the designated victim, the top chunk and the system

    /** Split the designated victim. */
    method SplitVictim(nb: nat)
      requires Valid() && dv != 0 && T.Splits(dvsize, nb)
      modifies this
      ensures Valid() && Served(old(Tags()), Tags(), nb, old(dv)) && Reused(old(Now()), Now(), nb, old(dv), true)
    {
      ghost var v := Now();
      var rsize := dvsize - nb;
      var p := dv;
      dv, dvsize := p + nb, rsize;
      SplitFree(p, nb, rsize, v);
      VictimHeap(T.Free(v.t), p, v.dvsize, p + nb, rsize, Now());
    }

    /** Exhaust the designated victim. */
    method UseUpVictim(nb: nat)
      requires Valid() && dv != 0 && nb <= dvsize < nb + MIN_CHUNK_SIZE
      modifies this
      ensures Valid() && Served(old(Tags()), Tags(), nb, old(dv)) && Reused(old(Now()), Now(), nb, old(dv), true)
    {
      ghost var v := Now();
      DvPositive(v);
      var dvs, p := dvsize, dv;
      dvsize, dv := 0, 0;
      TakeFree(p, dvs, nb, v);
      VictimHeap(T.Free(v.t), p, v.dvsize, 0, 0, Now());
    }

    method FromTop(nb: nat) returns (p: Addr)
      requires Valid() && MIN_CHUNK_SIZE <= nb < topsize && nb % 8 == 0
      modifies this
      ensures Valid() && p == old(top) && Served(old(Tags()), Tags(), nb, p)
      ensures SameBins(old(Now()), Now()) && T.Free(Tags()) == T.Free(old(Tags())) && top == p + nb && topsize == old(topsize) - nb
      ensures T.Live(Tags()) == T.Live(old(Tags()))[p := nb]
    {
      ghost var v := Now();
      TopServed(v, nb);
      topsize := topsize - nb;
      var rsize := topsize;
      p := top;
      top := p + nb;
      head := head[p := T.Head(nb, true, true)];
      head := head[top := T.Head(rsize, true, false)];
      assert Now() == v.(t := T.SplitTop(v.t, nb));
    }

    /** The system's part of sys_alloc: the segment grows at its end. */
    method Extend(grant: nat)
      requires Valid() && T.End(Tags()) + grant < WORD
      modifies this
      ensures Valid() && Tags() == T.Grown(old(Tags()), grant) && topsize == old(topsize) + grant && SameBins(old(Now()), Now())
    {
      ghost var v := Now();
      TopGrown(v, grant);
      topsize := topsize + grant;
      head := head[top := T.Head(topsize, true, false)];
      assert Now() == v.(t := T.Grown(v.t, grant));
    }

    /** From the top chunk or new memory. */
    method FromEnd(nb: nat, grant: nat) returns (p: Addr)
      requires Valid() && T.End(Tags()) + grant < WORD
      requires (MIN_CHUNK_SIZE <= nb && nb % 8 == 0) || nb == MAX_SIZE_T
      modifies this
      ensures Valid() && base == old(base)
      ensures OffTop(old(Now()), Now(), nb, grant, p) && (p == 0 <==> old(topsize) + grant <= nb)
      ensures p != 0 ==> Allotted(old(Tags()), Tags(), nb, p)
      ensures T.End(Tags()) == T.End(old(Tags())) + if nb < old(topsize) then 0 else grant
    {
      p := 0;
      if nb < topsize {
        p := FromTop(nb);
      } else {
        TopGrown(Now(), grant);
        Extend(grant);
        if nb < topsize {
          p := FromTop(nb);
        }
      }
    }

    /** From the designated victim, the top chunk or new memory, when no binned chunk is to be used. */
    method FromRest(nb: nat, grant: nat) returns (p: Addr)
      requires Valid() && T.End(Tags()) + grant < WORD
      requires (MIN_CHUNK_SIZE <= nb && nb % 8 == 0) || nb == MAX_SIZE_T
      requires nb <= dvsize || NoFit(Tags(), nb)
      modifies this
      ensures Valid() && base == old(base)
      ensures RestDone(old(Now()), Now(), nb, grant, p)
    {
      DvPositive(Now());
      if nb <= dvsize {
        p := dv;
        if dvsize - nb >= MIN_CHUNK_SIZE {
          SplitVictim(nb);
        } else {
          UseUpVictim(nb);
        }
      } else {
        p := FromEnd(nb, grant);
      }
    }

    /**
      dlmalloc. It fails exactly when neither a free chunk nor the top chunk, grown by what the system
      grants, is large enough; a large request gets the best fit of all free chunks.
     */
    method Malloc(bytes: nat, grant: nat) returns (mem: Addr)
      requires Valid() && bytes < WORD && T.End(Tags()) + grant < WORD
      modifies this, small, tree
      ensures Valid() && base == old(base)
      ensures mem == 0 || (mem > 8 && mem % 8 == 0)
      ensures MallocDone(old(Now()), Now(), bytes, grant, if mem == 0 then 0 else mem - 8)
    {
      var p := Serve(bytes, grant);
      mem := if p == 0 then 0 else ChunkToMem(p);
    }

    /** dlmalloc, as the chunk that it takes. */
    method Serve(bytes: nat, grant: nat) returns (p: Addr)
      requires Valid() && bytes < WORD && T.End(Tags()) + grant < WORD
      modifies this, small, tree
      ensures Valid() && base == old(base)
      ensures p % 8 == 0 && MallocDone(old(Now()), Now(), bytes, grant, p)
    {
      var nb := Padded(bytes);
      ghost var v := Now();
      p := FromBins(bytes, nb);
      if p == 0 {
        p := FromRest(nb, grant);
        ghost var v' := Now();
        DoneFromRest(v, v', bytes, grant, p);
      } else {
        ghost var v' := Now();
        DoneFromBins(v, v', bytes, grant, p);
      }
    }

    /** The part of dlmalloc that looks at the bins. */
    method FromBins(bytes: nat, nb: nat) returns (p: Addr)
      requires Valid() && bytes < WORD && nb == Padded(bytes)
      modifies this, small, tree
      ensures Valid()
      ensures p == 0 ==> Now() == old(Now()) && topsize == old(topsize) && (nb <= dvsize || NoFit(Tags(), nb))
      ensures p == 0 && nb <= dvsize && bytes > MAX_SMALL_REQUEST ==> BestOf(Tags(), nb, dv)
      ensures p == 0 && nb <= dvsize && bytes <= MAX_SMALL_REQUEST ==> !SnugFit(Tags(), dv, nb)
      ensures p != 0 && bytes <= MAX_SMALL_REQUEST ==> SnugFit(old(Tags()), old(dv), nb) || nb > old(dvsize)
      ensures p != 0 ==> Served(old(Tags()), Tags(), nb, p) && BestBinned(old(Tags()), old(dv), nb, p)
      ensures p != 0 && bytes > MAX_SMALL_REQUEST ==> BestOf(old(Tags()), nb, p) && !BestOf(old(Tags()), nb, old(dv))
      ensures p != 0 ==> Reused(old(Now()), Now(), nb, p, bytes <= MAX_SMALL_REQUEST)
    {
      p := 0;
      if bytes <= MAX_SMALL_REQUEST {
        PaddedFits(bytes);
        p := SmallRequest(nb);
      } else if bytes < MAX_REQUEST {
        PaddedFits(bytes);
        p := LargeRequest(nb);
      } else {
        NoneThatLarge(Now());
      }
    }

    // ----- dlfree

    /** Write the tags of the merged chunk from `q`, of size `s`; `next` is merged too, or in use. */
    method WriteFree(p: Addr, q: Addr, s: nat, next: Addr, merged: bool)
      requires T.TagsOk(Tags()) && Around(Tags(), p, q, q + s, next) && q + s != top && (merged <==> next != q + s)
      modifies this`head, this`foot
      ensures Tags() == T.Freed(old(Tags()), q, q + s)
    {
      T.FreedIs(Tags(), p);
      if !merged {
        head := head[next := head[next].(pinuse := false)];
        head := head - {p};
      } else {
        head := head - {p, next};
      }
      head := head[q := T.Head(s, true, false)];
      foot := foot[q + s := s];
    }

    /** The same, as the change that it makes to the chunks in use and to the free ones. */
    method FreeTags(p: Addr, q: Addr, s: nat, next: Addr, merged: bool, ghost v: View)
      requires HeapOk(v) && v.t == Tags() && Around(v.t, p, q, q + s, next) && q + s != top && (merged <==> next != q + s)
      modifies this`head, this`foot
      ensures FreedBy(v.t, Tags(), p, q, s, next)
    {
      WriteFree(p, q, s, next, merged);
      MergedTags(v, p, q, q + s, next, Tags());
    }

    /** Chunk `p` is being released; a free chunk before it, at `q`, has left its bin. */
    ghost predicate Releasing(v: View, p: Addr, q: Addr, psize: nat, next: Addr)
      reads this, small, tree
    {
      && HeapOk(v) && v.t == Tags() && v.dv == dv && v.dvsize == dvsize && topsize == head[top].size
      && T.Releasable(v.t, p) && q == T.Start(v.t, p) && next == p + v.t.head[p].size && q + psize == next
      && BinsHold(Rest(T.Free(v.t), dv) - {q}) && Bins() == OutBefore(v, q)
    }

    /** The state in which the tags of the merged chunk are written. */
    ghost predicate Merging(v: View, p: Addr, q: Addr, s: nat, next: Addr, merged: bool)
      reads this, small, tree
    {
      && HeapOk(v) && v.t == Tags() && v.dv == dv && v.dvsize == dvsize && topsize == head[top].size
      && Around(v.t, p, q, q + s, next) && q + s != top && (merged <==> next != q + s)
      && BinsHold(Rest(T.Free(v.t), dv) - {q} - {next}) && Bins() == OutAround(v, q, next)
    }

    /** The merged chunk is the designated victim. */
    method MergeIntoDv(p: Addr, q: Addr, s: nat, next: Addr, merged: bool, ghost v: View)
      requires Merging(v, p, q, s, next, merged) && Joins(dv, q, next)
      modifies this
      ensures Valid() && base == old(base) && Live() == T.Live(v.t) - {p} && T.End(Tags()) == T.End(v.t) && Released(v, Now(), p)
    {
      FreeTags(p, q, s, next, merged, v);
      dv, dvsize := q, s;
      ghost var v' := Now();
      MergedHeap(T.Free(v.t), v.dv, v.dvsize, q, next, s, v');
      MergedReleased(v, p, q, s, next, v');
    }

    /** The merged chunk goes into a bin. */
    method MergeIntoBin(p: Addr, q: Addr, s: nat, next: Addr, merged: bool, ghost v: View)
      requires Merging(v, p, q, s, next, merged) && !Joins(dv, q, next)
      modifies this, small, tree
      ensures Valid() && base == old(base) && Live() == T.Live(v.t) - {p} && T.End(Tags()) == T.End(v.t) && Released(v, Now(), p)
    {
      MergedSize(v, p, q, q + s, next);
      FreeTags(p, q, s, next, merged, v);
      InsertChunk(q, s, Rest(T.Free(v.t), v.dv) - {q} - {next});
      ghost var v' := Now();
      MergedHeap(T.Free(v.t), v.dv, v.dvsize, q, next, s, v');
      MergedReleased(v, p, q, s, next, v');
    }

    /** The top chunk takes in the released chunk and a free one before it. */
    method MergeIntoTop(p: Addr, q: Addr, psize: nat, ghost v: View)
      requires Releasing(v, p, q, psize, top)
      modifies this
      ensures Valid() && base == old(base) && Live() == T.Live(v.t) - {p} && T.End(Tags()) == T.End(v.t) && Released(v, Now(), p)
    {
      T.Neighbours(v.t, p);
      T.FreedTopIs(v.t, p);
      topsize := topsize + psize;
      var tsize := topsize;
      head := head - {p, top};
      top := q;
      head := head[q := T.Head(tsize, true, false)];
      if q == dv {
        dv, dvsize := 0, 0;
      }
      ghost var v' := Now();
      ToppedDone(v, p, q, v.t.top, v');
      ToppedReleased(v, p, q, v.t.top, v');
    }

    /** Consolidate with a free chunk after the released one. */
    method MergeNext(p: Addr, q: Addr, psize: nat, next: Addr, ghost v: View)
      requires Releasing(v, p, q, psize, next) && !head[next].cinuse && next != top && q != 0
      modifies this, small, tree
      ensures Valid() && base == old(base) && Live() == T.Live(v.t) - {p} && T.End(Tags()) == T.End(v.t) && Released(v, Now(), p)
    {
      ForwardFree(v, p, q, next);
      if next == dv {
        MergeIntoDv(p, q, dvsize + psize, next, true, v);
      } else {
        var nsize := head[next].size;
        UnlinkChunk(next, nsize, Rest(T.Free(v.t), v.dv) - {q});
        if q == dv {
          MergeIntoDv(p, q, psize + nsize, next, true, v);
        } else {
          MergeIntoBin(p, q, psize + nsize, next, true, v);
        }
      }
    }

    /** Consolidate forward. */
    method MergeForward(p: Addr, q: Addr, psize: nat, next: Addr, ghost v: View)
      requires Releasing(v, p, q, psize, next) && (q == dv ==> !head[next].cinuse) && q != 0
      modifies this, small, tree
      ensures Valid() && base == old(base) && Live() == T.Live(v.t) - {p} && T.End(Tags()) == T.End(v.t) && Released(v, Now(), p)
    {
      if !head[next].cinuse {
        if next == top {
          MergeIntoTop(p, q, psize, v);
        } else {
          MergeNext(p, q, psize, next, v);
        }
      } else {
        ForwardUsed(v, p, q, next);
        MergeIntoBin(p, q, psize, next, false, v);
      }
    }

    /** Consolidate backward, then forward. */
    method MergeBackward(p: Addr, next: Addr, ghost v: View)
      requires Valid() && v == Now() && p in Live() && !head[p].pinuse && next == p + head[p].size
      modifies this, small, tree
      ensures Valid() && base == old(base) && Live() == T.Live(v.t) - {p} && T.End(Tags()) == T.End(v.t) && Released(v, Now(), p)
    {
      Backward(v, p);
      T.Neighbours(v.t, p);
      var prevsize := foot[p];
      var q := p - prevsize;
      var psize := head[p].size + prevsize;
      if q != dv {
        UnlinkChunk(q, prevsize, Rest(T.Free(v.t), v.dv));
        MergeForward(p, q, psize, next, v);
      } else if head[next].cinuse && head[next].pinuse {
        ForwardUsed(v, p, q, next);
        MergeIntoDv(p, q, psize, next, false, v);
      } else {
        MergeForward(p, q, psize, next, v);
      }
    }

    /** dlfree: exactly one chunk less is in use; nothing else about the chunks in use changes. */
    method Free(mem: Addr)
      requires Valid() && (mem != 0 ==> mem >= 8 && mem - 8 in Live())
      modifies this, small, tree
      ensures Valid() && base == old(base) && T.End(Tags()) == T.End(old(Tags()))
      ensures Live() == if mem == 0 then old(Live()) else old(Live()) - {mem - 8}
      ensures if mem == 0 then Now() == old(Now()) else Released(old(Now()), Now(), mem - 8)
    {
      if mem == 0 {
        return;
      }
      var p := mem - 8;
      ghost var v := Now();
      var psize := head[p].size;
      var next := p + psize;
      if head[p].pinuse {
        Backward(v, p);
        MergeForward(p, p, psize, next, v);
      } else {
        MergeBackward(p, next, v);
      }
    }
  }
}
