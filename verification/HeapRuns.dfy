/**
  What holds in every state that dlmalloc and dlfree can reach: the chunks tile the segment, the blocks
  handed out are disjoint, and the bytes in use, free and in the top chunk add up to the segment.
 */
module HeapRuns {
  import opened BinOrder
  import opened Chunks
  import opened HeapState
  import opened Words
  import H = Heap
  import T = Tags

  // ----- the chunks tile the segment

  /** The chunks from `a` on, each at the end of the one before, as traverse_and_check visits them. */
  ghost function Walk(t: T.Tags, a: Addr): (w: seq<Addr>)
    requires T.TagsOk(t) && a in t.head
    ensures forall b :: b in w ==> b in t.head && b != t.top && a <= b
    decreases t.top - a
  {
    T.Facts(t, a);
    if a == t.top then [] else [a] + Walk(t, a + t.head[a].size)
  }

  /** The walk from the base of the segment misses no chunk. */
  lemma {:induction false} WalkMeetsAll(t: T.Tags, a: Addr, b: Addr)
    requires T.TagsOk(t) && a in t.head && b in t.head && a <= b < t.top
    ensures b in Walk(t, a)
    decreases t.top - a
  {
    T.Facts(t, a);
    if a < b {
      assert T.Apart(t, a, b);
      WalkMeetsAll(t, a + t.head[a].size, b);
    }
  }

  lemma {:induction false} SomeChunkHas(t: T.Tags, a: Addr, x: Addr) returns (b: Addr)
    requires T.TagsOk(t) && a in t.head && a <= x < t.top
    ensures b in t.head && b != t.top && b <= x < b + t.head[b].size
    decreases t.top - a
  {
    T.Facts(t, a);
    if x < a + t.head[a].size {
      b := a;
    } else {
      b := SomeChunkHas(t, a + t.head[a].size, x);
    }
  }

  ghost predicate Has(t: T.Tags, b: Addr, x: Addr) {
    b in t.head && b != t.top && b <= x < b + t.head[b].size
  }

  /** Every byte below the top chunk belongs to exactly one chunk. */
  lemma ChunksTile(t: T.Tags, x: Addr)
    requires T.TagsOk(t) && t.base <= x < t.top
    ensures exists b :: Has(t, b, x) && forall c :: Has(t, c, x) ==> c == b
  {
    var b := SomeChunkHas(t, t.base, x);
    assert Has(t, b, x);
    forall c | Has(t, c, x) ensures c == b {
      assert T.Apart(t, b, c) && T.Apart(t, c, b);
    }
  }

  /** No two free chunks touch, and none touches the top chunk. */
  lemma FreeChunksApart(t: T.Tags, a: Addr)
    requires T.TagsOk(t) && a in T.Free(t)
    ensures a + T.Free(t)[a] !in T.Free(t) && a + T.Free(t)[a] != t.top
    ensures forall b :: b in T.Free(t) ==> b + T.Free(t)[b] != a
    ensures a + T.Free(t)[a] in t.foot && t.foot[a + T.Free(t)[a]] == T.Free(t)[a]
  {
    T.Facts(t, a);
    forall b | b in T.Free(t) ensures b + T.Free(t)[b] != a {
      T.Facts(t, b);
    }
  }

  // ----- conservation

  ghost function Total(m: map<Addr, nat>): nat
    decreases m.Keys
  {
    if m == map[] then 0 else
      var k :| k in m;
      assert (m - {k}).Keys < m.Keys;
      m[k] + Total(m - {k})
  }

  lemma {:induction false} TotalWithout(m: map<Addr, nat>, x: Addr)
    requires x in m
    ensures Total(m) == m[x] + Total(m - {x})
    decreases m.Keys
  {
    var k :| k in m && Total(m) == m[k] + Total(m - {k});
    if k != x {
      assert (m - {k}).Keys < m.Keys && (m - {x}).Keys < m.Keys;
      TotalWithout(m - {k}, x);
      TotalWithout(m - {x}, k);
      assert m - {k} - {x} == m - {x} - {k};
    }
  }

  lemma TotalWith(m: map<Addr, nat>, x: Addr, s: nat)
    requires x !in m
    ensures Total(m[x := s]) == Total(m) + s
  {
    TotalWithout(m[x := s], x);
    assert m[x := s] - {x} == m;
  }

  ghost function From(m: map<Addr, nat>, a: Addr): map<Addr, nat> {
    m - (set b | b in m && b < a)
  }

  lemma FromChunk(t: T.Tags, a: Addr)
    requires T.TagsOk(t) && a in t.head && a != t.top
    ensures var n := a + t.head[a].size;
            && From(T.Live(t), a) == (if t.head[a].cinuse then From(T.Live(t), n)[a := t.head[a].size] else From(T.Live(t), n))
            && From(T.Free(t), a) == (if t.head[a].cinuse then From(T.Free(t), n) else From(T.Free(t), n)[a := t.head[a].size])
  {
    T.Facts(t, a);
    forall b | b in t.head && a < b ensures a + t.head[a].size <= b {
      assert T.Apart(t, a, b);
    }
  }

  lemma {:induction false} TotalFrom(t: T.Tags, a: Addr)
    requires T.TagsOk(t) && a in t.head
    ensures Total(From(T.Live(t), a)) + Total(From(T.Free(t), a)) == t.top - a
    decreases t.top - a
  {
    T.Facts(t, a);
    if a == t.top {
      forall b | b in t.head && a <= b ensures b == t.top {
        T.Facts(t, b);
      }
      assert From(T.Live(t), a) == map[] && From(T.Free(t), a) == map[];
    } else {
      var n := a + t.head[a].size;
      FromChunk(t, a);
      TotalFrom(t, n);
      TotalWith(From(T.Live(t), n), a, t.head[a].size);
      TotalWith(From(T.Free(t), n), a, t.head[a].size);
    }
  }

  /** The bytes in use, the free ones and those of the top chunk make up the segment. */
  lemma BytesConserved(t: T.Tags)
    requires T.TagsOk(t)
    ensures Total(T.Live(t)) + Total(T.Free(t)) + t.head[t.top].size == T.End(t) - t.base
  {
    forall a | a in t.head ensures t.base <= a {
      T.Facts(t, a);
    }
    assert From(T.Live(t), t.base) == T.Live(t) && From(T.Free(t), t.base) == T.Free(t);
    TotalFrom(t, t.base);
  }

  // ----- the blocks handed out

  /** The bytes of a block: `mem` and the `bytes` requested there. */
  ghost predicate InBlock(mem: Addr, bytes: nat, x: Addr) {
    mem <= x < mem + bytes
  }

  /** `blocks` are the requests that have been served and not released. */
  ghost predicate BlockOk(t: T.Tags, mem: Addr, bytes: nat) {
    && mem >= 8 && mem % 8 == 0 && mem - 8 in T.Live(t) && bytes < MAX_REQUEST
    && Padded(bytes) <= T.Live(t)[mem - 8] < Padded(bytes) + MIN_CHUNK_SIZE
  }

  ghost predicate BlocksOk(t: T.Tags, blocks: map<Addr, nat>) {
    && (forall mem {:trigger BlockOk(t, mem, blocks[mem])} :: mem in blocks ==> BlockOk(t, mem, blocks[mem]))
    && (forall p :: p in T.Live(t) ==> p + 8 in blocks)
  }

  /**
    Blocks do not overlap, and none reaches a header word, the inside or the footer of a free chunk or the top
    chunk: a block may extend only into the prev_foot word of the next chunk, which its own chunk leaves unused.
   */
  lemma BlocksDisjoint(t: T.Tags, blocks: map<Addr, nat>, mem: Addr, x: Addr)
    requires T.TagsOk(t) && BlocksOk(t, blocks) && mem in blocks && InBlock(mem, blocks[mem], x)
    ensures forall other :: other in blocks && other != mem ==> !InBlock(other, blocks[other], x)
    ensures t.base + 8 <= x < t.top + 4
    ensures forall a :: a in T.Free(t) ==> !(a + 4 <= x < a + T.Free(t)[a] + 4)
    ensures forall a :: a in t.head ==> !(a + 4 <= x < a + 8)
  {
    assert BlockOk(t, mem, blocks[mem]);
    var p := mem - 8;
    PaddedFits(blocks[mem]);
    T.Facts(t, p);
    forall other | other in blocks && other != mem ensures !InBlock(other, blocks[other], x) {
      assert BlockOk(t, other, blocks[other]);
      PaddedFits(blocks[other]);
      assert T.Apart(t, p, other - 8) && T.Apart(t, other - 8, p);
    }
    forall a | a in t.head ensures !(a + 4 <= x < a + 8) && (a in T.Free(t) ==> !(a + 4 <= x < a + T.Free(t)[a] + 4)) {
      NotInto(t, p, a, x);
    }
  }

  lemma NotInto(t: T.Tags, p: Addr, a: Addr, x: Addr)
    requires T.TagsOk(t) && p in T.Live(t) && a in t.head && p + 8 <= x < p + 4 + t.head[p].size
    ensures !(a + 4 <= x < a + 8)
    ensures a in T.Free(t) ==> !(a + 4 <= x < a + t.head[a].size + 4)
  {
    T.Facts(t, p);
    T.Facts(t, a);
    assert T.Apart(t, p, a) && T.Apart(t, a, p);
  }

  // ----- runs

  datatype Op =
    | Malloc(bytes: nat, grant: nat)
    | Free(mem: Addr)

  lemma AfterMalloc(t: T.Tags, t': T.Tags, blocks: map<Addr, nat>, bytes: nat, mem: Addr)
    requires BlocksOk(t, blocks) && mem >= 8 && mem % 8 == 0 && bytes < MAX_REQUEST && Allotted(t, t', Padded(bytes), mem - 8)
    ensures BlocksOk(t', blocks[mem := bytes]) && mem !in blocks
  {
    var blocks' := blocks[mem := bytes];
    assert mem in blocks ==> BlockOk(t, mem, blocks[mem]);
    forall m | m in blocks' ensures BlockOk(t', m, blocks'[m]) {
      if m != mem {
        assert BlockOk(t, m, blocks[m]);
      }
    }
    forall p | p in T.Live(t') ensures p + 8 in blocks' {
      assert p == mem - 8 || p in T.Live(t);
    }
  }

  lemma AfterFree(t: T.Tags, t': T.Tags, blocks: map<Addr, nat>, mem: Addr)
    requires BlocksOk(t, blocks) && mem in blocks && mem >= 8 && T.Live(t') == T.Live(t) - {mem - 8}
    ensures BlocksOk(t', blocks - {mem})
  {
    var blocks' := blocks - {mem};
    forall m | m in blocks' ensures BlockOk(t', m, blocks'[m]) {
      assert BlockOk(t, m, blocks[m]);
    }
  }

  lemma SameLive(t: T.Tags, t': T.Tags, blocks: map<Addr, nat>)
    requires BlocksOk(t, blocks) && T.Live(t') == T.Live(t)
    ensures BlocksOk(t', blocks)
  {
    forall m | m in blocks ensures BlockOk(t', m, blocks[m]) {
      assert BlockOk(t, m, blocks[m]);
    }
  }

  lemma LiveSize(v: View, p: Addr)
    requires HeapOk(v) && p in T.Live(v.t)
    ensures T.Live(v.t)[p] < MAX_SIZE_T
  {
    T.Facts(v.t, p);
  }

  /** A block is handed out only for a request that can be met at all. */
  lemma NotTooLarge(t: T.Tags, v: View, bytes: nat, p: Addr)
    requires HeapOk(v) && Allotted(t, v.t, Padded(bytes), p)
    ensures bytes < MAX_REQUEST
  {
    LiveSize(v, p);
  }

  function Updated(blocks: map<Addr, nat>, op: Op, mem: Addr): map<Addr, nat> {
    match op
    case Malloc(bytes, wish) => if mem == 0 then blocks else blocks[mem := bytes]
    case Free(m) => blocks - {m}
  }

  /** The requests served and not released, by the addresses that the allocations have returned. */
  function InUse(ops: seq<Op>, got: seq<Addr>): map<Addr, nat>
    requires |ops| == |got|
  {
    if ops == [] then map[] else
      var n := |ops| - 1;
      Updated(InUse(ops[..n], got[..n]), ops[n], got[n])
  }

  /** A grant that would leave the address space is a refusal. */
  function Granted(t: T.Tags, wish: nat): nat {
    if t.top in t.head && T.End(t) + wish < WORD then wish else 0
  }

  /** One operation took the heap from `v` to `v'` and returned `mem`; a release must name a block that is in use. */
  ghost predicate Performed(v: View, v': View, op: Op, mem: Addr, blocks: map<Addr, nat>) {
    && v'.t.base == v.t.base
    && match op
       case Malloc(bytes, wish) =>
         && (mem == 0 || (mem > 8 && mem % 8 == 0 && mem !in blocks))
         && MallocDone(v, v', bytes, Granted(v.t, wish), if mem == 0 then 0 else mem - 8)
       case Free(m) =>
         mem == 0 && if m in blocks then m >= 8 && m - 8 in T.Live(v.t) && Released(v, v', m - 8) else v' == v
  }

  /** Every chunk that is to be in a bin stands in the line of its size. */
  ghost predicate Lined(v: View) {
    OrderOk(v.order) && LinesHold(v.order, Rest(T.Free(v.t), v.dv))
  }

  /** The heap is in order, the blocks in use are well placed, and bytes are conserved. */
  ghost predicate MomentOk(v: View, blocks: map<Addr, nat>) {
    && HeapOk(v) && BlocksOk(v.t, blocks) && Lined(v)
    && Total(T.Live(v.t)) + Total(T.Free(v.t)) + TopSize(v.t) == T.End(v.t) - v.t.base
  }

  /** What happened in a run, view by view. */
  ghost predicate History(vs: seq<View>, ops: seq<Op>, got: seq<Addr>)
    requires |ops| == |got|
  {
    && |vs| == |ops| + 1
    && (forall i: nat {:trigger Moment(vs, ops, got, i)} :: i <= |ops| ==> Moment(vs, ops, got, i))
    && (forall i: nat {:trigger Step(vs, ops, got, i)} :: i < |ops| ==> Step(vs, ops, got, i))
  }

  ghost predicate Moment(vs: seq<View>, ops: seq<Op>, got: seq<Addr>, i: nat)
    requires |ops| == |got| && |vs| == |ops| + 1 && i <= |ops|
  {
    MomentOk(vs[i], InUse(ops[..i], got[..i]))
  }

  ghost predicate Step(vs: seq<View>, ops: seq<Op>, got: seq<Addr>, i: nat)
    requires |ops| == |got| && |vs| == |ops| + 1 && i < |ops|
  {
    Performed(vs[i], vs[i + 1], ops[i], got[i], InUse(ops[..i], got[..i]))
  }

  lemma Conserved(v: View, blocks: map<Addr, nat>)
    requires HeapOk(v) && BlocksOk(v.t, blocks) && Lined(v)
    ensures MomentOk(v, blocks)
  {
    BytesConserved(v.t);
  }

  lemma HistoryStarts(v: View)
    requires HeapOk(v) && T.Live(v.t) == map[] && Lined(v)
    ensures History([v], [], [])
  {
    Conserved(v, map[]);
  }

  lemma InUseNext(ops: seq<Op>, got: seq<Addr>, op: Op, mem: Addr)
    requires |ops| == |got|
    ensures InUse(ops + [op], got + [mem]) == Updated(InUse(ops, got), op, mem)
  {
    assert (ops + [op])[..|ops|] == ops && (got + [mem])[..|got|] == got;
  }

  /** The run goes on by one operation. */
  lemma HistoryGoesOn(vs: seq<View>, ops: seq<Op>, got: seq<Addr>, v: View, op: Op, mem: Addr)
    requires |ops| == |got| && History(vs, ops, got)
    requires Performed(vs[|ops|], v, op, mem, InUse(ops, got)) && MomentOk(v, InUse(ops + [op], got + [mem]))
    ensures History(vs + [v], ops + [op], got + [mem])
  {
    var vs', ops', got' := vs + [v], ops + [op], got + [mem];
    forall i: nat | i <= |ops'| ensures Moment(vs', ops', got', i) {
      if i <= |ops| {
        assert Moment(vs, ops, got, i);
        assert ops'[..i] == ops[..i] && got'[..i] == got[..i];
      } else {
        assert ops'[..i] == ops' && got'[..i] == got';
      }
    }
    forall i: nat | i < |ops'| ensures Step(vs', ops', got', i) {
      assert ops'[..i] == ops[..i] && got'[..i] == got[..i];
      if i < |ops| {
        assert Step(vs, ops, got, i);
      } else {
        assert ops[..i] == ops && got[..i] == got;
      }
    }
  }

  lemma RunGoesOn(vs: seq<View>, ops: seq<Op>, i: nat, got: seq<Addr>, v: View, mem: Addr, blocks: map<Addr, nat>)
    requires |got| == i < |ops| && History(vs, ops[..i], got) && Performed(vs[i], v, ops[i], mem, InUse(ops[..i], got))
    requires blocks == Updated(InUse(ops[..i], got), ops[i], mem) && HeapOk(v) && BlocksOk(v.t, blocks) && Lined(v)
    ensures History(vs + [v], ops[..i + 1], got + [mem]) && blocks == InUse(ops[..i + 1], got + [mem])
  {
    assert ops[..i + 1] == ops[..i] + [ops[i]];
    InUseNext(ops[..i], got, ops[i], mem);
    Conserved(v, blocks);
    HistoryGoesOn(vs, ops[..i], got, v, ops[i], mem);
  }

  /** One allocation. */
  method Allocate(h: H.Heap, bytes: nat, wish: nat, ghost blocks: map<Addr, nat>) returns (mem: Addr)
    requires h.Valid() && BlocksOk(h.Tags(), blocks) && bytes < WORD
    modifies h, h.small, h.tree
    ensures h.Valid() && Performed(old(h.Now()), h.Now(), Malloc(bytes, wish), mem, blocks)
    ensures BlocksOk(h.Tags(), if mem == 0 then blocks else blocks[mem := bytes])
  {
    ghost var t := h.Tags();
    var end := h.top + h.topsize;
    mem := h.Malloc(bytes, if end + wish < WORD then wish else 0);
    if mem != 0 {
      NotTooLarge(t, h.Now(), bytes, mem - 8);
      AfterMalloc(t, h.Tags(), blocks, bytes, mem);
    } else {
      SameLive(t, h.Tags(), blocks);
    }
  }

  /** One release. */
  method Release(h: H.Heap, mem: Addr, ghost blocks: map<Addr, nat>)
    requires h.Valid() && BlocksOk(h.Tags(), blocks) && mem in blocks
    modifies h, h.small, h.tree
    ensures h.Valid() && Performed(old(h.Now()), h.Now(), Free(mem), 0, blocks)
    ensures BlocksOk(h.Tags(), blocks - {mem})
  {
    ghost var t := h.Tags();
    assert BlockOk(t, mem, blocks[mem]);
    h.Free(mem);
    AfterFree(t, h.Tags(), blocks, mem);
  }

  /** One operation; a release of what is not in use is not performed. */
  method Perform(h: H.Heap, op: Op, blocks: map<Addr, nat>) returns (mem: Addr, blocks': map<Addr, nat>)
    requires h.Valid() && BlocksOk(h.Tags(), blocks) && (op.Malloc? ==> op.bytes < WORD)
    modifies h, h.small, h.tree
    ensures h.Valid() && Performed(old(h.Now()), h.Now(), op, mem, blocks)
    ensures blocks' == Updated(blocks, op, mem) && BlocksOk(h.Tags(), blocks')
  {
    match op
    case Malloc(bytes, wish) =>
      mem := Allocate(h, bytes, wish, blocks);
      blocks' := if mem == 0 then blocks else blocks[mem := bytes];
    case Free(m) =>
      mem, blocks' := 0, blocks - {m};
      if m in blocks {
        Release(h, m, blocks);
      }
  }

  /**
    Any sequence of allocations and releases: `vs` are the heaps between the operations and `got` is what they have
    returned. Each operation does what it should, and at every moment the heap is in order, the blocks in use, which
    follow from the operations and the addresses returned, are well placed, and bytes are conserved.
   */
  method Run(h: H.Heap, ops: seq<Op>) returns (got: seq<Addr>, blocks: map<Addr, nat>, ghost vs: seq<View>)
    requires h.Valid() && h.Live() == map[]
    requires forall i :: 0 <= i < |ops| && ops[i].Malloc? ==> ops[i].bytes < WORD
    modifies h, h.small, h.tree
    ensures h.Valid() && |got| == |ops| && History(vs, ops, got) && blocks == InUse(ops, got)
    ensures vs[0] == old(h.Now()) && vs[|ops|] == h.Now()
  {
    got, blocks, vs := [], map[], [h.Now()];
    h.InOrder();
    HistoryStarts(h.Now());
    assert ops[..0] == [];
    for i := 0 to |ops|
      invariant h.Valid() && |got| == i && History(vs, ops[..i], got) && blocks == InUse(ops[..i], got)
      invariant vs[0] == old(h.Now()) && vs[i] == h.Now() && BlocksOk(h.Tags(), blocks)
    {
      var mem;
      mem, blocks := Perform(h, ops[i], blocks);
      h.InOrder();
      RunGoesOn(vs, ops, i, got, h.Now(), mem, blocks);
      got, vs := got + [mem], vs + [h.Now()];
    }
    assert ops[..|ops|] == ops;
  }
}
