/**
  The tree bins: insert_large_chunk, unlink_large_chunk and the searches of tmalloc_large and
  tmalloc_small, on the chunk fields, bin roots and bin map that they update in place.
 */
module TreeBins {
  import opened Chunks
  import opened Rings
  import opened TreeBinState
  import opened TreeBinUnlink
  import opened TreeIndex
  import opened TreeSearch
  import opened TrieLinks
  import opened TrieRelink
  import opened Tries
  import opened Words

  // ----- what each kind of insertion does to the whole

  lemma MarkMap(treemap: nat, marks: set<nat>, i: nat)
    requires MapOk(treemap, marks) && i < NTREEBINS
    ensures MapOk(Mark(treemap, i), marks + {i})
  {
    forall j: nat | j < NTREEBINS
      ensures Mark(treemap, i) < WORD && (Marked(Mark(treemap, i), j) <==> j in marks + {i})
    {
      MarkBits(treemap, i, j);
    }
  }

  lemma ClearMap(treemap: nat, marks: set<nat>, i: nat)
    requires MapOk(treemap, marks) && i < NTREEBINS
    ensures MapOk(Clear(treemap, i), marks - {i})
  {
    forall j: nat | j < NTREEBINS
      ensures Clear(treemap, i) < WORD && (Marked(Clear(treemap, i), j) <==> j in marks - {i})
    {
      ClearBits(treemap, i, j);
    }
  }

  lemma AddHome(home: map<nat, nat>, s: nat)
    requires HomeOk(home) && MIN_LARGE_SIZE <= s < WORD
    ensures HomeOk(home[s := Index(s)])
  {
    var home' := home[s := Index(s)];
    forall z {:trigger SizeHome(home', z)} ensures SizeHome(home', z) {
      assert SizeHome(home, z);
    }
  }

  /** A size is recorded exactly when its bin's trie holds it. */
  lemma SizeKnown(st: State, treemap: nat, s: nat)
    requires AllOk(st, treemap) && MIN_LARGE_SIZE <= s < WORD && Index(s) < NTREEBINS
    ensures s in st.home <==> s in Sizes(st.tries[Index(s)])
    ensures s in st.home ==> st.home[s] == Index(s) && s in st.rings && |st.rings[s]| > 0
  {
    assert HomeAt(st, s) && SizeHome(st.home, s) && BinOk(st, Index(s));
    if s in st.home {
      assert RingAt(st, s, st.rings[s]);
    }
  }

  lemma NewBinEffect(st: State, treemap: nat, x: Addr, s: nat, i: nat)
    requires AllOk(st, treemap) && x != 0 && x !in st.node && MIN_LARGE_SIZE <= s < WORD
    requires i == Index(s) < NTREEBINS && ShiftRight(s, OpenBits(i)) == Prefix(i) && !Marked(treemap, i)
    ensures AllOk(WithNewBin(st, x, s, i), Mark(treemap, i))
    ensures ContentsOf(WithNewBin(st, x, s, i)) == ContentsOf(st)[x := s] && s !in st.rings
  {
    SizeKnown(st, treemap, s);
    assert BinOk(st, i);
    NewBinOk(st, x, s, i);
    MarkMap(treemap, st.marks, i);
    AddHome(st.home, s);
  }

  lemma ChainEffect(st: State, treemap: nat, x: Addr, s: nat, i: nat)
    requires AllOk(st, treemap) && x != 0 && x !in st.node && s in st.home && st.home[s] == i < NTREEBINS
    ensures s in st.rings && |st.rings[s]| > 0 && st.rings[s][0] in st.fd
    ensures AllOk(WithChained(st, x, s, i), treemap)
    ensures ContentsOf(WithChained(st, x, s, i)) == ContentsOf(st)[x := s]
  {
    ChainedOk(st, x, s, i);
  }

  lemma HangEffect(st: State, treemap: nat, x: Addr, s: nat, i: nat)
    requires AllOk(st, treemap) && x != 0 && x !in st.node && MIN_LARGE_SIZE <= s < WORD
    requires i == Index(s) < NTREEBINS && ShiftRight(s, OpenBits(i)) == Prefix(i)
    requires st.tries[i].Node? && s !in Sizes(st.tries[i])
    ensures Links(st.node, st.tries[i])
    ensures AllOk(WithHung(st, x, s, i), treemap)
    ensures ContentsOf(WithHung(st, x, s, i)) == ContentsOf(st)[x := s] && s !in st.rings
  {
    SizeKnown(st, treemap, s);
    assert BinOk(st, i);
    HungOk(st, x, s, i);
    HungBin(st, x, s, i);
    AddHome(st.home, s);
  }

  // ----- what each kind of unlinking does to the whole

  lemma DropHome(home: map<nat, nat>, s: nat)
    requires HomeOk(home)
    ensures HomeOk(home - {s})
  {
    var home' := home - {s};
    forall z {:trigger SizeHome(home', z)} ensures SizeHome(home', z) {
      assert SizeHome(home, z);
    }
  }

  lemma LessContents(st: State, st': State, x: Addr)
    requires OneChunkLess(st.node, st'.node, x)
    ensures ContentsOf(st') == ContentsOf(st) - {x}
  {
  }

  lemma UnchainEffect(st: State, treemap: nat, x: Addr)
    requires AllOk(st, treemap) && x in st.node && st.node[x].parent.Null?
    ensures x in st.fd && x in st.bk && st.bk[x] != x && st.node[x].size in st.rings
    ensures x in st.rings[st.node[x].size] && |st.rings[st.node[x].size]| > 1
    ensures AllOk(WithoutChained(st, x), treemap)
    ensures ContentsOf(WithoutChained(st, x)) == ContentsOf(st) - {x}
  {
    Binned(st, x);
    UnchainedOk(st, x);
  }

  lemma PromoteEffect(st: State, treemap: nat, x: Addr)
    requires AllOk(st, treemap) && x in st.node && !st.node[x].parent.Null? && x in st.bk && st.bk[x] != x
    ensures x in st.fd && st.node[x].index < NTREEBINS && CanRelink(st.node, x, st.bk[x])
    ensures st.node[x].size in st.rings && x in st.rings[st.node[x].size] && |st.rings[st.node[x].size]| > 1
    ensures Find(st.tries[st.node[x].index], st.node[x].size, OpenBits(st.node[x].index)).Node? && st.bk[x] != 0
    ensures AllOk(WithPromoted(st, x), treemap)
    ensures ContentsOf(WithPromoted(st, x)) == ContentsOf(st) - {x}
  {
    Successor(st, x);
    PromotedOk(st, x);
    LessContents(st, WithPromoted(st, x), x);
  }

  lemma DropEffect(st: State, treemap: nat, x: Addr)
    requires AllOk(st, treemap) && x in st.node && !st.node[x].parent.Null? && x in st.bk && st.bk[x] == x
    ensures st.node[x].index < NTREEBINS
    ensures var sub := Find(st.tries[st.node[x].index], st.node[x].size, OpenBits(st.node[x].index));
            && sub.Node? && sub.head == x && Links(st.node, sub)
            && CanRelink(BeforeDrop(st.node, sub), x, Root(DropNode(sub)))
            && BeforeDrop(st.node, sub)[x].parent == st.node[x].parent
            && AllOk(WithDropped(st, x),
                     if st.node[x].parent.Slot? && Root(DropNode(sub)) == 0 then Clear(treemap, st.node[x].index) else treemap)
    ensures ContentsOf(WithDropped(st, x)) == ContentsOf(st) - {x}
    ensures st.node[x].size in st.rings && |st.rings[st.node[x].size]| == 1
  {
    Binned(st, x);
    TreeMember(st, x);
    DroppedOk(st, x);
    LessContents(st, WithDropped(st, x), x);
    ClearMap(treemap, st.marks, st.node[x].index);
    DropHome(st.home, st.node[x].size);
  }

  // ----- the insertion walk

  /** The walk for size `s` has come to tree chunk `t`, the root of `sub`, with `n` bits left in the key word `k`. */
  ghost predicate Walking(st: State, x: Addr, s: nat, i: nat, t: Addr, k: nat, sub: Trie, n: nat, p: nat)
    requires i < |st.tries| && st.tries[i].Node? && Links(st.node, st.tries[i]) && s < WORD
  {
    && n <= 32 && sub.Node? && sub.head == t && t in st.node && st.node[t].size == sub.size
    && Links(st.node, sub) && HeadsOk(sub, st.rings) && TrieOk(sub, n, p)
    && ShiftRight(s, n) == p && k == ShiftLeft(s, 32 - n)
    && (s in Sizes(sub) <==> s in Sizes(st.tries[i]))
    && HangMem(st.node, sub, x, s, n, i) == HangMem(st.node, st.tries[i], x, s, OpenBits(i), i)
  }

  lemma HangStep(m: Nodes, t: Trie, x: Addr, s: nat, n: nat, i: nat)
    requires t.Node? && Links(m, t) && t.size != s && n > 0
    ensures var right := GoesRight(s, n);
            var c := if right then t.right else t.left;
            HangMem(m, t, x, s, n, i) ==
            if c.Empty? then m[t.head := SetChild(m[t.head], right, x)][x := TreeChunk(s, 0, 0, At(t.head), i)]
            else HangMem(m, c, x, s, n - 1, i)
  {
  }

  lemma WalkStep(st: State, x: Addr, s: nat, i: nat, t: Addr, k: nat, sub: Trie, n: nat, p: nat)
    requires i < |st.tries| && st.tries[i].Node? && Links(st.node, st.tries[i]) && s < WORD
    requires Walking(st, x, s, i, t, k, sub, n, p) && sub.size != s
    ensures n > 0
    ensures var right := k >= SIGN;
            var c, sub' := if right then st.node[t].child1 else st.node[t].child0, if right then sub.right else sub.left;
            if c != 0 then
              sub'.Node? && Walking(st, x, s, i, c, (2 * k) % WORD, sub', n - 1, if right then 2 * p + 1 else 2 * p)
            else
              && s !in Sizes(st.tries[i])
              && HangMem(st.node, st.tries[i], x, s, OpenBits(i), i) ==
                 st.node[t := SetChild(st.node[t], right, x)][x := TreeChunk(s, 0, 0, At(t), i)]
  {
    Descend(sub, n, p, s);
    KeyStep(s, k, n);
    HangStep(st.node, sub, x, s, n, i);
    var right := k >= SIGN;
    assert right == GoesRight(s, n);
    var sub' := if right then sub.right else sub.left;
    assert Links(st.node, sub') && HeadsOk(sub', st.rings);
    assert Root(sub') == if right then st.node[t].child1 else st.node[t].child0;
    assert sub'.Node? ==> sub'.head != 0;
  }

  // ----- the order of the chunks

  /** The chunks of each size, tree member first, once `x` of size `s` has come. */
  function With(rings: map<nat, seq<Addr>>, x: Addr, s: nat): map<nat, seq<Addr>> {
    rings[s := if s in rings then Inserted(rings[s], x) else [x]]
  }

  /** The same once `x` of size `s` has gone. */
  function Less(rings: map<nat, seq<Addr>>, x: Addr, s: nat): map<nat, seq<Addr>> {
    if s in rings && |rings[s]| > 1 then rings[s := Without(rings[s], x)] else rings - {s}
  }

  /** Chunk `x` is the tree member of size `s`. */
  predicate IsFirst(rings: map<nat, seq<Addr>>, x: Addr, s: nat) {
    s in rings && |rings[s]| > 0 && rings[s][0] == x
  }

  /** Chunk `a`, if any, is in the tree. */
  ghost predicate InTree(st: State, a: Addr) {
    a != 0 ==> a in st.node && !st.node[a].parent.Null?
  }

  lemma TreeMemberFirst(st: State, treemap: nat, a: Addr)
    requires AllOk(st, treemap) && a != 0 && InTree(st, a)
    ensures IsFirst(st.rings, a, st.node[a].size)
  {
    assert ChunkOk(st, a);
    assert RingAt(st, st.node[a].size, st.rings[st.node[a].size]);
  }

  lemma ChildrenInTree(st: State, t: Trie)
    requires t.Node? && Links(st.node, t)
    ensures InTree(st, st.node[t.head].child0) && InTree(st, st.node[t.head].child1)
  {
  }

  class TreeBins {
    var node: Nodes
    var fd: map<Addr, Addr>
    var bk: map<Addr, Addr>
    var bins: seq<Addr>
    var treemap: nat

    ghost var marks: set<nat>
    ghost var tries: seq<Trie>
    ghost var rings: map<nat, seq<Addr>>
    ghost var home: map<nat, nat>

    ghost function St(): State
      reads this
    {
      State(node, fd, bk, bins, marks, tries, rings, home)
    }

    ghost predicate Valid()
      reads this
    {
      AllOk(St(), treemap)
    }

    ghost function Contents(): map<Addr, nat>
      reads this
    {
      ContentsOf(St())
    }

    constructor ()
      ensures Valid() && Contents() == map[] && rings == map[]
    {
      node, fd, bk := map[], map[], map[];
      bins := seq(NTREEBINS, i => 0);
      treemap := 0;
      marks, rings, home := {}, map[], map[];
      tries := seq(NTREEBINS, i => Empty);
      new;
      forall i: nat | i < NTREEBINS ensures BinOk(St(), i) && !Marked(treemap, i) {
        MarkedZero(i);
      }
    }

    // ----- insert_large_chunk

    /** `x` becomes the root of an empty bin. */
    method LinkNewBin(x: Addr, s: nat, i: nat)
      requires |bins| == |tries| == NTREEBINS && i < NTREEBINS
      modifies this
      ensures St() == WithNewBin(old(St()), x, s, i) && treemap == Mark(old(treemap), i)
    {
      treemap, bins := Mark(treemap, i), bins[i := x];
      node := node[x := TreeChunk(s, 0, 0, Slot(i), i)];
      fd, bk := fd[x := x], bk[x := x];
      marks, tries := marks + {i}, tries[i := Node(x, s, Empty, Empty)];
      rings, home := rings[s := [x]], home[s := i];
    }

    /** `x` joins the ring of its size behind the tree member `t`. */
    method LinkChained(t: Addr, x: Addr, s: nat, i: nat)
      requires s in rings && |rings[s]| > 0 && t == rings[s][0] && t in fd
      modifies this
      ensures St() == WithChained(old(St()), x, s, i) && treemap == old(treemap)
    {
      var f := fd[t];
      fd, bk := fd[t := x], bk[f := x];
      fd, bk := fd[x := f], bk[x := t];
      node := node[x := TreeChunk(s, 0, 0, Null, i)];
      rings := rings[s := Inserted(rings[s], x)];
    }

    /** `x`, the first chunk of a new size, becomes a child of tree node `t`. */
    method LinkHung(t: Addr, right: bool, x: Addr, s: nat, i: nat)
      requires |bins| == |tries| == NTREEBINS && i < NTREEBINS && tries[i].Node? && Links(node, tries[i]) && t in node
      requires HangMem(node, tries[i], x, s, OpenBits(i), i) ==
               node[t := SetChild(node[t], right, x)][x := TreeChunk(s, 0, 0, At(t), i)]
      modifies this
      ensures St() == WithHung(old(St()), x, s, i) && treemap == old(treemap)
    {
      node := node[t := SetChild(node[t], right, x)];
      node := node[x := TreeChunk(s, 0, 0, At(t), i)];
      fd, bk := fd[x := x], bk[x := x];
      tries := tries[i := Tries.Insert(tries[i], x, s, OpenBits(i))];
      rings, home := rings[s := [x]], home[s := i];
    }

    method Insert(x: Addr, s: nat)
      requires Valid() && x != 0 && x !in Contents() && MIN_LARGE_SIZE <= s < WORD
      modifies this
      ensures Valid() && Contents() == old(Contents())[x := s] && rings == With(old(rings), x, s)
    {
      var i := Index(s);
      IndexInterval(s);
      BinPrefix(s, i);
      ghost var st := St();
      if !Marked(treemap, i) {
        NewBinEffect(st, treemap, x, s, i);
        LinkNewBin(x, s, i);
      } else {
        InsertMarked(x, s, i);
      }
    }

    /** Walk down the trie of a non-empty bin, one size bit per level. */
    method InsertMarked(x: Addr, s: nat, i: nat)
      requires Valid() && x != 0 && x !in Contents() && MIN_LARGE_SIZE <= s < WORD
      requires i == Index(s) < NTREEBINS && ShiftRight(s, OpenBits(i)) == Prefix(i) && LeftShift(i) == 32 - OpenBits(i)
      requires Marked(treemap, i)
      modifies this
      ensures Valid() && Contents() == old(Contents())[x := s] && rings == With(old(rings), x, s)
    {
      ghost var st := St();
      assert BinOk(st, i);
      SizeKnown(st, treemap, s);
      var t: Addr := bins[i];
      var k: nat := ShiftLeft(s, LeftShift(i));
      ghost var sub, n: nat, p: nat := tries[i], OpenBits(i), Prefix(i);
      while true
        invariant St() == st && treemap == old(treemap)
        invariant Walking(st, x, s, i, t, k, sub, n, p)
        decreases sub
      {
        if node[t].size != s {
          WalkStep(st, x, s, i, t, k, sub, n, p);
          var right := k >= SIGN;
          k := (2 * k) % WORD;
          var c := if right then node[t].child1 else node[t].child0;
          if c != 0 {
            t := c;
            sub, n, p := if right then sub.right else sub.left, n - 1, if right then 2 * p + 1 else 2 * p;
          } else {
            HangEffect(st, treemap, x, s, i);
            LinkHung(t, right, x, s, i);
            return;
          }
        } else {
          ChainEffect(st, treemap, x, s, i);
          LinkChained(t, x, s, i);
          return;
        }
      }
    }

    // ----- unlink_large_chunk

    /** Take `x` off the ring of its size; its predecessor is to replace it. */
    method CloseRing(x: Addr) returns (r: Addr)
      requires x in fd && x in bk
      modifies this`fd, this`bk
      ensures r == old(bk)[x]
      ensures fd == old(fd)[old(bk)[x] := old(fd)[x]] && bk == old(bk)[old(fd)[x] := old(bk)[x]]
    {
      var f := fd[x];
      r := bk[x];
      bk := bk[f := r];
      fd := fd[r := f];
    }

    /** Cut off the rightmost leaf below `x`, if there is one; it is to replace `x`. */
    method CutBelow(x: Addr, ghost sub: Trie) returns (r: Addr)
      requires sub.Node? && sub.head == x && Links(node, sub)
      modifies this`node
      ensures node == BeforeDrop(old(node), sub) && r == Root(DropNode(sub))
    {
      var right := node[x].child1 != 0;
      r := if right then node[x].child1 else node[x].child0;
      if r == 0 {
        return;
      }
      var owner := x;
      ghost var cur := if sub.right.Node? then sub.right else sub.left;
      while node[r].child1 != 0 || node[r].child0 != 0
        invariant node == old(node)
        invariant cur.Node? && cur.head == r && Links(node, cur) && owner in node
        invariant RightLeaf(cur) == RightLeaf(sub)
        invariant LeafSlot(sub) == if IsLeaf(cur) then (owner, right) else LeafSlot(cur)
        decreases cur
      {
        owner := r;
        right := node[r].child1 != 0;
        r := if right then node[r].child1 else node[r].child0;
        cur := if cur.right.Node? then cur.right else cur.left;
      }
      node := node[owner := SetChild(node[owner], right, 0)];
    }

    /** `r` (0 for none) takes the place of tree member `x`. */
    method TakePlace(x: Addr, i: nat, r: Addr)
      requires CanRelink(node, x, r) && !node[x].parent.Null? && i < |bins| && i < NTREEBINS
      requires node[x].parent.Slot? <==> bins[i] == x
      modifies this`node, this`bins, this`treemap
      ensures node == Relink(old(node), x, r)
      ensures bins == if old(node)[x].parent.Slot? then old(bins)[i := r] else old(bins)
      ensures treemap == if old(node)[x].parent.Slot? && r == 0 then Clear(old(treemap), i) else old(treemap)
    {
      var xp := node[x].parent;
      if x == bins[i] {
        bins := bins[i := r];
        if r == 0 {
          treemap := Clear(treemap, i);
        }
      } else {
        node := node[xp.addr := Redirect(node[xp.addr], x, r)];
      }
      if r != 0 {
        var c0, c1 := node[x].child0, node[x].child1;
        node := node[r := node[r].(parent := xp)];
        if c0 != 0 {
          node := node[r := node[r].(child0 := c0)];
          node := node[c0 := node[c0].(parent := At(r))];
        }
        if c1 != 0 {
          node := node[r := node[r].(child1 := c1)];
          node := node[c1 := node[c1].(parent := At(r))];
        }
      }
      node := node - {x};
    }

    method Unlink(x: Addr)
      requires Valid() && x in Contents()
      modifies this
      ensures Valid() && Contents() == old(Contents()) - {x} && rings == Less(old(rings), x, old(Contents())[x])
    {
      ghost var st := St();
      Binned(st, x);
      var i := node[x].index;
      var chained := node[x].parent.Null?;
      if chained {
        UnchainEffect(st, treemap, x);
        var _ := CloseRing(x);
        node := node - {x};
        rings := rings[st.node[x].size := Removed(rings[st.node[x].size], Position(rings[st.node[x].size], x))];
        assert St() == WithoutChained(st, x);
      } else if bk[x] != x {
        Promote(x, i);
      } else {
        Drop(x, i);
      }
    }

    method Promote(x: Addr, i: nat)
      requires Valid() && x in node && !node[x].parent.Null? && x in bk && bk[x] != x && i == node[x].index
      modifies this
      ensures Valid() && Contents() == old(Contents()) - {x} && rings == Less(old(rings), x, old(Contents())[x])
    {
      ghost var st := St();
      PromoteEffect(st, treemap, x);
      RootOrInner(st, x);
      var r := CloseRing(x);
      TakePlace(x, i, r);
      ghost var s := st.node[x].size;
      tries := tries[i := ReplaceAt(tries[i], s, OpenBits(i), Find(tries[i], s, OpenBits(i)).(head := r))];
      rings := rings[s := Removed(rings[s], Position(rings[s], x))];
      assert St() == WithPromoted(st, x);
    }

    method Drop(x: Addr, i: nat)
      requires Valid() && x in node && !node[x].parent.Null? && x in bk && bk[x] == x && i == node[x].index
      modifies this
      ensures Valid() && Contents() == old(Contents()) - {x} && rings == Less(old(rings), x, old(Contents())[x])
    {
      ghost var st := St();
      DropEffect(st, treemap, x);
      RootOrInner(st, x);
      ghost var s := st.node[x].size;
      ghost var sub := Find(tries[i], s, OpenBits(i));
      var r := CutBelow(x, sub);
      TakePlace(x, i, r);
      tries := tries[i := ReplaceAt(tries[i], s, OpenBits(i), DropNode(sub))];
      marks := if st.node[x].parent.Slot? && r == 0 then marks - {i} else marks;
      rings, home := rings - {s}, home - {s};
      assert St() == WithDropped(st, x);
    }

    // ----- the search of tmalloc_large

    /** A chunk of the smallest size that is at least `nb`, or 0 if every binned chunk is too small. */
    method BestFit(nb: nat) returns (v: Addr, rsize: nat)
      requires Valid() && MIN_LARGE_SIZE <= nb < WORD
      ensures v == 0 <==> forall a :: a in Contents() ==> Contents()[a] < nb
      ensures v != 0 ==>
                && v in Contents() && Contents()[v] == nb + rsize
                && forall a :: a in Contents() && Contents()[a] >= nb ==> Contents()[v] <= Contents()[a]
      ensures v != 0 ==> IsFirst(rings, v, nb + rsize)
    {
      ghost var st := St();
      var idx := Index(nb);
      IndexInterval(nb);
      BinPrefix(nb, idx);
      assert BinOk(st, idx);
      var t: Addr := bins[idx];
      v, rsize := 0, WORD - nb;
      ghost var rest := Empty;
      if t != 0 {
        t, v, rsize, rest := Seek(nb, idx);
      }
      if t == 0 && v == 0 {
        t, rest := NextBin(nb, idx);
      }
      v, rsize := WalkLeft(t, nb, v, rsize, rest);
      if v != 0 {
        TreeMemberFirst(st, treemap, v);
      }
    }

    /** Compare one chunk with the best so far. */
    method Look(t: Addr, nb: nat, v: Addr, rsize: nat) returns (v': Addr, rsize': nat)
      requires Valid() && 0 < nb < WORD && t != 0 && t in node && Best(St(), nb, v, rsize)
      ensures Best(St(), nb, v', rsize') && (v' == v || v' == t)
      ensures node[t].size >= nb ==> AtMost(St(), v', node[t].size)
      ensures forall z :: AtMost(St(), v, z) ==> AtMost(St(), v', z)
      ensures rsize' == 0 <==> v' != 0 && node[v'].size == nb
    {
      ghost var st := St();
      SizeOfChunk(st, treemap, t);
      if v != 0 { SizeOfChunk(st, treemap, v); }
      Consider(st, nb, v, rsize, t);
      var trem := Excess(node[t].size, nb);
      v', rsize' := v, rsize;
      if trem < rsize {
        v', rsize' := t, trem;
      }
    }

    /** The walk towards size `nb` in its own bin; it ends at an exact fit or at the deepest untaken right subtree. */
    method Seek(nb: nat, idx: nat) returns (t: Addr, v: Addr, rsize: nat, ghost rest: Trie)
      requires Valid() && MIN_LARGE_SIZE <= nb < WORD && idx < NTREEBINS && InBin(nb, idx)
      requires ShiftRight(nb, OpenBits(idx)) == Prefix(idx) && LeftShift(idx) == 32 - OpenBits(idx) && bins[idx] != 0
      ensures t == Root(rest)
      ensures t == 0 && v == 0 ==> rsize == WORD - nb && forall z :: z in Sizes(tries[idx]) ==> z < nb
      ensures t != 0 || v != 0 ==> Finishing(St(), nb, rest, v, rsize)
      ensures InTree(St(), t) && InTree(St(), v)
    {
      ghost var st := St();
      SeekStart(st, treemap, nb, idx);
      assert BinOk(st, idx);
      t, v, rsize := bins[idx], 0, WORD - nb;
      var sizebits: nat := ShiftLeft(nb, LeftShift(idx));
      var rst: Addr := 0;
      ghost var h := Path(tries[idx], OpenBits(idx), Prefix(idx), sizebits, Empty, 0, 0);
      while true
        invariant On(st, nb, idx, h, v, rsize)
        invariant t == h.sub.head && rst == Root(h.rsub) && sizebits == h.k
        invariant InTree(st, t) && InTree(st, rst) && InTree(st, v)
        decreases h.sub
      {
        ghost var v0, rsize0 := v, rsize;
        v, rsize := Look(t, nb, v, rsize);
        if rsize == 0 {
          SeekFound(st, treemap, nb, idx, v, h.sub, h.n, h.p);
          rest := h.sub;
          return;
        }
        SeekPointers(node, h);
        ChildrenInTree(st, h.sub);
        SeekStep(st, nb, idx, h, v0, rsize0, v, rsize);
        var rt := node[t].child1;
        t := if sizebits >= SIGN then node[t].child1 else node[t].child0;
        if rt != 0 && rt != t {
          rst := rt;
        }
        h := NextPath(h);
        if t == 0 {
          SeekEnds(st, treemap, nb, idx, h, v, rsize);
          t, rest := rst, h.rsub;
          return;
        }
        sizebits := (2 * sizebits) % WORD;
      }
    }

    /** The root of the first non-empty bin after `idx`. */
    method NextBin(nb: nat, idx: nat) returns (t: Addr, ghost rest: Trie)
      requires Valid() && MIN_LARGE_SIZE <= nb < WORD && idx < NTREEBINS && InBin(nb, idx)
      requires forall z :: z in Sizes(tries[idx]) ==> z < nb
      ensures t == Root(rest) && Finishing(St(), nb, rest, 0, WORD - nb) && InTree(St(), t)
    {
      ghost var st := St();
      t, rest := 0, Empty;
      Pow2Word(idx);
      var leftbits := And(LeftBits(Pow2(idx)), treemap);
      NoLaterBin(treemap, idx);
      if leftbits != 0 {
        FirstLaterBin(treemap, idx);
        var i := Bsf(LeastBit(leftbits));
        assert BinOk(st, i);
        forall j: nat | idx < j < i ensures j !in marks {
          assert !Marked(treemap, j);
        }
        FinishLater(st, treemap, nb, idx, i);
        t, rest := bins[i], tries[i];
      } else {
        forall j: nat | idx < j < NTREEBINS ensures j !in marks {
          assert !Marked(treemap, j);
        }
        NoneLater(st, treemap, nb, idx);
      }
    }

    /** The leftmost walk from `t`: it meets the smallest size of that subtree. */
    method WalkLeft(t0: Addr, nb: nat, v0: Addr, rsize0: nat, ghost rest: Trie) returns (v: Addr, rsize: nat)
      requires Valid() && 0 < nb < WORD && t0 == Root(rest) && Finishing(St(), nb, rest, v0, rsize0)
      requires InTree(St(), t0) && InTree(St(), v0)
      ensures InTree(St(), v)
      ensures v == 0 <==> forall a :: a in Contents() ==> Contents()[a] < nb
      ensures v != 0 ==>
                && v in Contents() && Contents()[v] == nb + rsize
                && forall a :: a in Contents() && Contents()[a] >= nb ==> Contents()[v] <= Contents()[a]
    {
      ghost var st := St();
      ghost var sub := rest;
      var t := t0;
      v, rsize := v0, rsize0;
      while t != 0
        invariant t == Root(sub) && Finishing(st, nb, sub, v, rsize) && InTree(st, t) && InTree(st, v)
        decreases sub
      {
        ghost var v1, rsize1 := v, rsize;
        v, rsize := Look(t, nb, v, rsize);
        FinishStep(st, nb, sub, v1, rsize1, v, rsize);
        ChildrenInTree(st, sub);
        t := if node[t].child0 != 0 then node[t].child0 else node[t].child1;
        sub := Leftmost(sub);
      }
      forall a | a in Contents() ensures Contents()[a] in st.home {
        SizeOfChunk(st, treemap, a);
      }
      assert v != 0 ==> Contents()[v] >= nb;
    }

    // ----- the search of tmalloc_small

    /** The smallest chunk of all; every binned chunk fits a small request. */
    method Smallest(nb: nat) returns (v: Addr, rsize: nat)
      requires Valid() && 0 < nb < MIN_LARGE_SIZE && treemap != 0
      ensures v != 0 && v in Contents() && Contents()[v] == nb + rsize
      ensures forall a :: a in Contents() ==> Contents()[v] <= Contents()[a]
      ensures IsFirst(rings, v, nb + rsize)
    {
      ghost var st := St();
      FirstBin(treemap);
      var i := Bsf(LeastBit(treemap));
      forall j: nat | j < i ensures j !in marks {
        assert !Marked(treemap, j);
      }
      FinishFirst(st, treemap, nb, i);
      assert BinOk(st, i);
      var t := bins[i];
      SizeOfChunk(st, treemap, t);
      v, rsize := t, node[t].size - nb;
      FinishStep(st, nb, tries[i], 0, WORD - nb, v, rsize);
      ChildrenInTree(st, tries[i]);
      t := if node[t].child0 != 0 then node[t].child0 else node[t].child1;
      v, rsize := WalkLeft(t, nb, v, rsize, Leftmost(tries[i]));
      forall a | a in Contents() ensures Contents()[a] >= nb {
        SizeOfChunk(st, treemap, a);
      }
      assert bins[i] in Contents();
      TreeMemberFirst(st, treemap, v);
    }
  }
}
