/**
  Unlinking a chunk from the tree bins: the three shapes of unlink_large_chunk and the states
  they lead to.
 */
module TreeBinUnlink {
  import opened Chunks
  import opened Rings
  import opened TreeBinState
  import opened TreeIndex
  import opened TrieLinks
  import opened TrieRelink
  import opened Tries
  import opened Words

  // ----- the rings

  /** Chunk `a` has the status of its place on its ring: the first one is in the tree, others are chained. */
  ghost predicate StatusOk(st: State, a: Addr)
    requires a in st.node
  {
    var c := st.node[a];
    && c.size in st.rings && |st.rings[c.size]| > 0
    && if a == st.rings[c.size][0] then !c.parent.Null? else Chained(c)
  }

  /** The chunks other than `x` stay, with their sizes and bin indices. */
  ghost predicate OneChunkLess(m: Nodes, m': Nodes, x: Addr) {
    && x in m && x !in m'
    && (forall a :: a in m' ==> a in m)
    && (forall a :: a in m && a != x ==> a in m' && m'[a].size == m[a].size && m'[a].index == m[a].index)
  }

  /** `x` is taken off a ring on which other chunks remain. */
  ghost predicate RingShrinks(st: State, st': State, x: Addr)
    requires x in st.node
  {
    var s := st.node[x].size;
    && s in st.rings && x in st.rings[s] && |st.rings[s]| > 1 && x in st.fd && x in st.bk
    && st'.fd == st.fd[st.bk[x] := st.fd[x]] && st'.bk == st.bk[st.fd[x] := st.bk[x]]
    && st'.rings == st.rings[s := Removed(st.rings[s], Position(st.rings[s], x))]
    && st'.home == st.home
  }

  lemma ShorterRingAt(st: State, st': State, x: Addr, z: nat)
    requires RingsOk(st) && x in st.node && RingShrinks(st, st', x) && OneChunkLess(st.node, st'.node, x)
    requires z in st.rings
    ensures RingAt(st', z, st'.rings[z])
    ensures forall a :: a in st'.rings[z] <==> a in st.rings[z] && a != x
  {
    var s := st.node[x].size;
    var ring := st.rings[s];
    assert RingAt(st, s, ring) && RingAt(st, z, st.rings[z]);
    RemoveKeepsRing(st.fd, st.bk, ring, Position(ring, x));
    if z != s {
      assert st.node[st.bk[x]].size == s && st.node[st.fd[x]].size == s;
      RingAtFrame(st, st', z, st.rings[z]);
    }
  }

  lemma ShorterRing(st: State, st': State, x: Addr)
    requires RingsOk(st) && x in st.node && RingShrinks(st, st', x) && OneChunkLess(st.node, st'.node, x)
    requires forall a :: a in st'.node ==> StatusOk(st', a)
    ensures RingsOk(st')
  {
    forall z | z in st'.rings ensures RingAt(st', z, st'.rings[z]) {
      ShorterRingAt(st, st', x, z);
    }
    forall a | a in st'.node ensures ChunkOk(st', a) {
      assert ChunkOk(st, a) && StatusOk(st', a);
      ShorterRingAt(st, st', x, st.node[a].size);
    }
  }

  /** `x` was the last chunk of its size. */
  lemma LastOfSize(st: State, st': State, x: Addr)
    requires RingsOk(st) && x in st.node
    requires var s := st.node[x].size;
             && s in st.rings && st.rings[s] == [x]
             && st'.fd == st.fd && st'.bk == st.bk
             && st'.rings == st.rings - {s} && st'.home == st.home - {s}
    requires OneChunkLess(st.node, st'.node, x) && forall a :: a in st'.node ==> StatusOk(st', a)
    ensures RingsOk(st')
  {
    var s := st.node[x].size;
    forall z | z in st'.rings ensures RingAt(st', z, st'.rings[z]) {
      RingAtFrame(st, st', z, st.rings[z]);
    }
    forall a | a in st'.node ensures ChunkOk(st', a) {
      assert ChunkOk(st, a) && StatusOk(st', a);
    }
  }

  // ----- a chained chunk

  ghost function WithoutChained(st: State, x: Addr): State
    requires x in st.node && x in st.fd && x in st.bk && st.node[x].size in st.rings
    requires x in st.rings[st.node[x].size] && |st.rings[st.node[x].size]| > 1
  {
    var s := st.node[x].size;
    st.(node := st.node - {x},
        fd := st.fd[st.bk[x] := st.fd[x]], bk := st.bk[st.fd[x] := st.bk[x]],
        rings := st.rings[s := Removed(st.rings[s], Position(st.rings[s], x))])
  }

  /** The facts about a binned chunk that the cases below start from. */
  lemma Binned(st: State, x: Addr)
    requires Ok(st) && x in st.node
    ensures var s := st.node[x].size;
            && x != 0 && s in st.rings && x in st.rings[s] && |st.rings[s]| > 0 && RingAt(st, s, st.rings[s])
            && x in st.fd && x in st.bk && (|st.rings[s]| == 1 <==> st.bk[x] == x)
            && s in st.home && st.node[x].index == st.home[s] && st.home[s] < NTREEBINS
            && s in Sizes(st.tries[st.home[s]])
            && (x == st.rings[s][0] <==> !st.node[x].parent.Null?)
  {
    assert ChunkOk(st, x);
    var ring := st.rings[st.node[x].size];
    assert RingAt(st, st.node[x].size, ring) && HomeAt(st, st.node[x].size);
    RingLinks(st.fd, st.bk, ring, Position(ring, x));
  }

  lemma UnchainedOk(st: State, x: Addr)
    requires Ok(st) && x in st.node && st.node[x].parent.Null?
    ensures x in st.fd && x in st.bk && st.node[x].size in st.rings
    ensures x in st.rings[st.node[x].size] && |st.rings[st.node[x].size]| > 1
    ensures Ok(WithoutChained(st, x))
  {
    Binned(st, x);
    var s := st.node[x].size;
    var i := st.home[s];
    assert BinOk(st, i);
    UnchainedRings(st, x);
    UnchainedBin(st, x, i);
    Assemble(st, WithoutChained(st, x), i, s);
  }

  lemma UnchainedRings(st: State, x: Addr)
    requires RingsOk(st) && x in st.node && x in st.fd && x in st.bk && st.node[x].size in st.rings
    requires x in st.rings[st.node[x].size] && x != st.rings[st.node[x].size][0]
    ensures RingsOk(WithoutChained(st, x))
  {
    var st' := WithoutChained(st, x);
    var s := st.node[x].size;
    assert st'.rings[s][0] == st.rings[s][0];
    forall a | a in st'.node ensures StatusOk(st', a) {
      assert ChunkOk(st, a);
    }
    ShorterRing(st, st', x);
  }

  lemma UnchainedBin(st: State, x: Addr, i: nat)
    requires |st.bins| == |st.tries| == NTREEBINS && i < NTREEBINS && BinOk(st, i)
    requires x in st.node && x in st.fd && x in st.bk && st.node[x].size in st.rings
    requires x in st.rings[st.node[x].size] && x != st.rings[st.node[x].size][0]
    ensures BinOk(WithoutChained(st, x), i)
    ensures SameElsewhere(st, WithoutChained(st, x), i, st.node[x].size)
  {
    var st' := WithoutChained(st, x);
    var s := st.node[x].size;
    assert st'.rings[s][0] == st.rings[s][0];
    forall a | a in Heads(st.tries[i]) ensures a != x {
      HeadLeads(st.node, st.tries[i], st.rings, a);
    }
    SameTrie(st, st', i);
  }

  // ----- a tree member

  /** `x` leaves its place in the trie of bin `i` to the subtree `sub'`; `m` is memory just before relinking. */
  ghost function WithReplaced(st: State, m: Nodes, i: nat, x: Addr, s: nat, sub': Trie): State
    requires i < |st.bins| && i < |st.tries| && x in st.node && CanRelink(m, x, Root(sub'))
  {
    var r := Root(sub');
    var atRoot := st.node[x].parent.Slot?;
    st.(node := Relink(m, x, r),
        bins := if atRoot then st.bins[i := r] else st.bins,
        marks := if atRoot && r == 0 then st.marks - {i} else st.marks,
        tries := st.tries[i := ReplaceAt(st.tries[i], s, OpenBits(i), sub')])
  }

  lemma OtherRoots(st: State, m: Nodes, i: nat, x: Addr, s: nat, sub': Trie)
    requires |st.bins| == |st.tries| == NTREEBINS && i < NTREEBINS && x in st.node && CanRelink(m, x, Root(sub'))
    ensures var w := WithReplaced(st, m, i, x, s, sub');
            && |w.bins| == |w.tries| == NTREEBINS
            && forall j: nat :: j < NTREEBINS && j != i ==>
                 w.tries[j] == st.tries[j] && w.bins[j] == st.bins[j] && (j in w.marks <==> j in st.marks)
  {
  }

  lemma ReplaceHeadsStep(t: Trie, rings: map<nat, seq<Addr>>, rings': map<nat, seq<Addr>>, right: bool, c': Trie)
    requires t.Node? && HeadsOk(t, rings) && SameLead(rings, rings', t.size)
    requires HeadsOk(c', rings') && HeadsOk(if right then t.left else t.right, rings')
    ensures HeadsOk(if right then t.(right := c') else t.(left := c'), rings')
  {
  }

  lemma {:induction false} ReplaceHeads(t: Trie, rings: map<nat, seq<Addr>>, rings': map<nat, seq<Addr>>,
                                        s: nat, n: nat, p: nat, sub': Trie)
    requires HeadsOk(t, rings) && TrieOk(t, n, p) && ShiftRight(s, n) == p && s in Sizes(t)
    requires HeadsOk(sub', rings') && forall z :: z != s ==> SameLead(rings, rings', z)
    ensures HeadsOk(ReplaceAt(t, s, n, sub'), rings')
    decreases t
  {
    if t.size != s {
      Descend(t, n, p, s);
      StepTowards(t, s, n, sub');
      var right := GoesRight(s, n);
      var c, o := if right then t.right else t.left, if right then t.left else t.right;
      ReplaceHeads(c, rings, rings', s, n - 1, if right then 2 * p + 1 else 2 * p, sub');
      HeadsFrame(o, rings, rings');
      ReplaceHeadsStep(t, rings, rings', right, ReplaceAt(c, s, n - 1, sub'));
    }
  }

  /** The heads of a trie with one subtree replaced. */
  lemma {:induction false} ReplacedHeads(t: Trie, s: nat, n: nat, sub': Trie, a: Addr)
    requires a in Heads(t) && a !in Heads(Find(t, s, n))
    ensures a in Heads(ReplaceAt(t, s, n, sub'))
    decreases t
  {
    if t.size != s && n > 0 {
      var c := if GoesRight(s, n) then t.right else t.left;
      if a in Heads(c) {
        ReplacedHeads(c, s, n - 1, sub', a);
      }
    }
  }

  lemma {:induction false} NewHeads(t: Trie, s: nat, n: nat, p: nat, sub': Trie, a: Addr)
    requires TrieOk(t, n, p) && ShiftRight(s, n) == p && s in Sizes(t) && a in Heads(sub')
    ensures a in Heads(ReplaceAt(t, s, n, sub'))
    decreases t
  {
    if t.size != s {
      Descend(t, n, p, s);
      NewHeads(if GoesRight(s, n) then t.right else t.left, s, n - 1,
               if GoesRight(s, n) then 2 * p + 1 else 2 * p, sub', a);
    }
  }

  /** Below the root, every head has a tree node above it. */
  lemma {:induction false} HeadHasParent(m: Nodes, t: Trie, a: Addr)
    requires Links(m, t) && a in Heads(t) && a != t.head
    ensures a in m && m[a].parent.At?
    decreases t
  {
    var c := if a in Heads(t.left) then t.left else t.right;
    if a != c.head {
      HeadHasParent(m, c, a);
    }
  }

  /** The tree's own chunks are tree members afterwards, everything else is untouched. */
  ghost predicate TreeStatus(m0: Nodes, m': Nodes, t: Trie, r: Addr) {
    forall a :: a in m' ==>
      a in m0 && if a in Heads(t) || a == r then !m'[a].parent.Null? else m'[a] == m0[a]
  }

  /** Everything about one tree member's departure that does not depend on what replaces it. */
  ghost predicate Departing(st: State, m: Nodes, i: nat, s: nat, sub': Trie)
    requires |st.bins| == |st.tries| == NTREEBINS && i < NTREEBINS
  {
    var t, n := st.tries[i], OpenBits(i);
    var sub, d := Find(t, s, n), DepthBits(t, s, n);
    && BinOk(st, i) && s in Sizes(t) && ShiftRight(s, n) == Prefix(i)
    && Prepared(st.node, m, t, sub, sub', d, ShiftRight(s, d))
    && (forall a :: a in Heads(sub) && a != sub.head ==> a in Heads(sub'))
    && (forall a :: a in Heads(sub') ==> a in Heads(sub) || a == Root(sub'))
  }

  lemma DepartingCan(st: State, m: Nodes, i: nat, s: nat, sub': Trie)
    requires |st.bins| == |st.tries| == NTREEBINS && i < NTREEBINS && Departing(st, m, i, s, sub')
    ensures var sub := Find(st.tries[i], s, OpenBits(i));
            sub.Node? && sub.head in st.node && CanRelink(m, sub.head, Root(sub'))
  {
    var t, n := st.tries[i], OpenBits(i);
    var d := DepthBits(t, s, n);
    PreparedCanRelink(st.node, m, t, Find(t, s, n), sub', d, ShiftRight(s, d));
  }

  /** The layout of the bin's trie after the departure. */
  lemma DepartedLinks(st: State, m: Nodes, i: nat, s: nat, sub': Trie, x: Addr)
    requires |st.bins| == |st.tries| == NTREEBINS && i < NTREEBINS && Departing(st, m, i, s, sub')
    requires x == Root(Find(st.tries[i], s, OpenBits(i))) && x in st.node && CanRelink(m, x, Root(sub'))
    ensures var m', t, t' := Relink(m, x, Root(sub')), st.tries[i], ReplaceAt(st.tries[i], s, OpenBits(i), sub');
            && Links(m', t')
            && (st.node[x].parent.Slot? <==> t.size == s)
            && (t.size == s ==> t' == sub')
            && (t.size != s ==> Root(t') == t.head)
            && (t'.Node? ==> m'[t'.head].parent == Slot(i))
  {
    var t, n, p := st.tries[i], OpenBits(i), Prefix(i);
    var sub, d := Find(t, s, n), DepthBits(t, s, n);
    RelinkReplaces(st.node, m, t, sub, sub', d, ShiftRight(s, d));
    ReachesHeld(st.node, t, s, n, p);
    ReplaceLinks(st.node, Relink(m, x, Root(sub')), t, s, n, sub');
    FindParent(st.node, t, s, n);
  }

  lemma DepartedBin(st: State, m: Nodes, i: nat, s: nat, sub': Trie, x: Addr, st': State, gone: set<nat>)
    requires |st.bins| == |st.tries| == NTREEBINS && i < NTREEBINS && Departing(st, m, i, s, sub')
    requires x == Root(Find(st.tries[i], s, OpenBits(i))) && x in st.node && CanRelink(m, x, Root(sub'))
    requires var w := WithReplaced(st, m, i, x, s, sub');
             st'.node == w.node && st'.bins == w.bins && st'.marks == w.marks && st'.tries == w.tries
    requires gone <= {s} && Sizes(sub') == Sizes(Find(st.tries[i], s, OpenBits(i))) - gone
    requires HeadsOk(sub', st'.rings) && forall z :: z != s ==> SameLead(st.rings, st'.rings, z)
    requires forall z :: z in st.home && z !in gone ==> z in st'.home && st'.home[z] == st.home[z]
    requires sub'.Node? ==> var d := DepthBits(st.tries[i], s, OpenBits(i)); TrieOk(sub', d, ShiftRight(s, d))
    ensures BinOk(st', i) && Sizes(st'.tries[i]) == Sizes(st.tries[i]) - gone
  {
    var t, n, p := st.tries[i], OpenBits(i), Prefix(i);
    DepartedLinks(st, m, i, s, sub', x);
    ReplaceOk(t, s, n, p, sub', gone);
    ReplaceHeads(t, st.rings, st'.rings, s, n, p, sub');
  }

  lemma DepartedStatus(st: State, m: Nodes, i: nat, s: nat, sub': Trie, x: Addr)
    requires 0 !in st.node && |st.bins| == |st.tries| == NTREEBINS && i < NTREEBINS && Departing(st, m, i, s, sub')
    requires x == Root(Find(st.tries[i], s, OpenBits(i))) && x in st.node && CanRelink(m, x, Root(sub'))
    ensures TreeStatus(st.node, Relink(m, x, Root(sub')), st.tries[i], Root(sub'))
    ensures OneChunkLess(st.node, Relink(m, x, Root(sub')), x)
  {
    var t, n := st.tries[i], OpenBits(i);
    var sub, d := Find(t, s, n), DepthBits(t, s, n);
    var m', t' := Relink(m, x, Root(sub')), ReplaceAt(t, s, n, sub');
    RelinkedSubtree(st.node, m, t, sub, sub', d, ShiftRight(s, d));
    DepartedLinks(st, m, i, s, sub', x);
    forall a | a in m' ensures a in st.node &&
        if a in Heads(t) || a == Root(sub') then !m'[a].parent.Null? else m'[a] == st.node[a]
    {
      if a in Heads(t) || a == Root(sub') {
        if a in Heads(t) && a !in Heads(sub) {
          ReplacedHeads(t, s, n, sub', a);
        } else {
          assert a in Heads(sub');
          NewHeads(t, s, n, Prefix(i), sub', a);
        }
        if a != t'.head {
          HeadHasParent(m', t', a);
        }
      } else {
        assert a !in Heads(sub');
      }
    }
  }

  /** Chunks of other sizes keep the status of their place. */
  lemma OtherSizesStatus(st: State, st': State, i: nat, s: nat, r: Addr, a: Addr)
    requires Ok(st) && i < NTREEBINS && TreeStatus(st.node, st'.node, st.tries[i], r)
    requires a in st'.node && a in st.node && st'.node[a].size == st.node[a].size != s
    requires var z := st.node[a].size; z in st.rings && z in st'.rings && st'.rings[z] == st.rings[z]
    requires a == r ==> r in Heads(st.tries[i])
    ensures StatusOk(st', a)
  {
    assert ChunkOk(st, a) && BinOk(st, i);
    var z := st.node[a].size;
    if a in Heads(st.tries[i]) {
      HeadLeads(st.node, st.tries[i], st.rings, a);
    }
  }

  // ----- a tree member with others of its size: the newest of them takes its place

  ghost function WithPromoted(st: State, x: Addr): State
    requires x in st.node && x in st.fd && x in st.bk && st.node[x].index < |st.bins| == |st.tries|
    requires st.node[x].size in st.rings && x in st.rings[st.node[x].size] && |st.rings[st.node[x].size]| > 1
    requires CanRelink(st.node, x, st.bk[x]) && Find(st.tries[st.node[x].index], st.node[x].size, OpenBits(st.node[x].index)).Node?
  {
    var s, i, r := st.node[x].size, st.node[x].index, st.bk[x];
    var sub := Find(st.tries[i], s, OpenBits(i));
    WithReplaced(st, st.node, i, x, s, sub.(head := r)).(
      fd := st.fd[st.bk[x] := st.fd[x]], bk := st.bk[st.fd[x] := st.bk[x]],
      rings := st.rings[s := Removed(st.rings[s], Position(st.rings[s], x))])
  }

  /** Where `x` sits in its bin's trie. */
  lemma TreeMember(st: State, x: Addr)
    requires Ok(st) && x in st.node && !st.node[x].parent.Null?
    ensures var s, i := st.node[x].size, st.node[x].index;
            && i < NTREEBINS && s in Sizes(st.tries[i]) && BinOk(st, i) && ShiftRight(s, OpenBits(i)) == Prefix(i)
            && var sub, d := Find(st.tries[i], s, OpenBits(i)), DepthBits(st.tries[i], s, OpenBits(i));
               && sub.Node? && sub.head == x && sub.size == s && TrieOk(sub, d, ShiftRight(s, d))
               && Links(st.node, sub) && HeadsOk(sub, st.rings) && Heads(sub) <= Heads(st.tries[i])
               && (st.node[x].parent.At? ==>
                     st.node[x].parent.addr in Heads(st.tries[i]) && st.node[x].parent.addr !in Heads(sub))
  {
    Binned(st, x);
    var s, i := st.node[x].size, st.node[x].index;
    assert BinOk(st, i);
    var t, n, p := st.tries[i], OpenBits(i), Prefix(i);
    SizesHavePrefix(t, n, p, s);
    FindOk(t, s, n, p);
    FindLinks(st.node, t, st.rings, s, n);
    ReachesHeld(st.node, t, s, n, p);
    FindParent(st.node, t, s, n);
  }

  lemma {:induction false} FindLinks(m: Nodes, t: Trie, rings: map<nat, seq<Addr>>, s: nat, n: nat)
    requires Links(m, t) && HeadsOk(t, rings)
    ensures Links(m, Find(t, s, n)) && HeadsOk(Find(t, s, n), rings)
    decreases t
  {
    if t.Node? && t.size != s && n > 0 {
      FindLinks(m, if GoesRight(s, n) then t.right else t.left, rings, s, n - 1);
    }
  }

  /** The predecessor of a tree member on its ring is chained, and leads the ring afterwards. */
  lemma Successor(st: State, x: Addr)
    requires Ok(st) && x in st.node && !st.node[x].parent.Null? && x in st.bk && st.bk[x] != x
    ensures var s, r := st.node[x].size, st.bk[x];
            && r in st.node && r != 0 && st.node[r].size == s && Chained(st.node[r])
            && (forall t: Trie :: Links(st.node, t) && HeadsOk(t, st.rings) ==> r !in Heads(t))
            && s in st.rings && x in st.rings[s] && |st.rings[s]| > 1
            && Removed(st.rings[s], Position(st.rings[s], x))[0] == r
  {
    Binned(st, x);
    var s, r := st.node[x].size, st.bk[x];
    var ring := st.rings[s];
    RingLinks(st.fd, st.bk, ring, 0);
    assert Position(ring, x) == 0 && r == ring[|ring| - 1];
    assert r in ring && ChunkOk(st, r);
    forall t: Trie | Links(st.node, t) && HeadsOk(t, st.rings) ensures r !in Heads(t) {
      if r in Heads(t) {
        HeadLeads(st.node, t, st.rings, r);
      }
    }
  }

  lemma PromotePrepared(st: State, x: Addr, r: Addr, t: Trie, sub: Trie, d: nat, p: nat)
    requires Links(st.node, t) && Links(st.node, sub) && sub.Node? && Heads(sub) <= Heads(t) && TrieOk(sub, d, p)
    requires sub.head == x && r !in Heads(t) && r in st.node && r != 0
    requires st.node[r].size == sub.size && Chained(st.node[r])
    requires st.node[x].parent.At? ==> st.node[x].parent.addr in Heads(t) && st.node[x].parent.addr !in Heads(sub)
    ensures Prepared(st.node, st.node, t, sub, sub.(head := r), d, p)
    ensures forall a :: a in Heads(sub.(head := r)) <==> (a in Heads(sub) && a != x) || a == r
  {
    NodeDisjoint(st.node, sub, d, p);
    assert x in Heads(sub);
  }

  lemma PromoteDeparts(st: State, x: Addr)
    requires Ok(st) && x in st.node && !st.node[x].parent.Null? && x in st.bk && st.bk[x] != x
    ensures var s, i, r := st.node[x].size, st.node[x].index, st.bk[x];
            && i < NTREEBINS && s in Sizes(st.tries[i]) && ShiftRight(s, OpenBits(i)) == Prefix(i)
            && var sub := Find(st.tries[i], s, OpenBits(i));
               && sub.Node? && sub.head == x && Departing(st, st.node, i, s, sub.(head := r))
  {
    TreeMember(st, x);
    Successor(st, x);
    var s, i, r := st.node[x].size, st.node[x].index, st.bk[x];
    var sub, d := Find(st.tries[i], s, OpenBits(i)), DepthBits(st.tries[i], s, OpenBits(i));
    PromotePrepared(st, x, r, st.tries[i], sub, d, ShiftRight(s, d));
  }

  lemma PromoteStatus(st: State, x: Addr, st': State)
    requires Ok(st) && x in st.node && !st.node[x].parent.Null? && x in st.bk && st.bk[x] != x
    requires st.node[x].index < NTREEBINS
    requires TreeStatus(st.node, st'.node, st.tries[st.node[x].index], st.bk[x]) && OneChunkLess(st.node, st'.node, x)
    requires RingShrinks(st, st', x)
    ensures RingsOk(st')
  {
    Binned(st, x);
    Successor(st, x);
    var s, i, r := st.node[x].size, st.node[x].index, st.bk[x];
    assert BinOk(st, i);
    forall a | a in st'.node ensures StatusOk(st', a) {
      assert ChunkOk(st, a);
      if st.node[a].size != s {
        OtherSizesStatus(st, st', i, s, r, a);
      } else if a != r && a in Heads(st.tries[i]) {
        HeadLeads(st.node, st.tries[i], st.rings, a);
      }
    }
    ShorterRing(st, st', x);
  }

  /** The bin after the promotion of `r`. */
  lemma PromotedBin(st: State, st': State, i: nat, s: nat, r: Addr, sub: Trie)
    requires |st.bins| == |st.tries| == NTREEBINS && i < NTREEBINS
    requires sub == Find(st.tries[i], s, OpenBits(i)) && sub.Node? && sub.head in st.node && r != 0
    requires sub.size == s && HeadsOk(sub, st.rings)
    requires Departing(st, st.node, i, s, sub.(head := r)) && CanRelink(st.node, sub.head, r)
    requires var w := WithReplaced(st, st.node, i, sub.head, s, sub.(head := r));
             st'.node == w.node && st'.bins == w.bins && st'.marks == w.marks && st'.tries == w.tries
    requires s in st'.rings && |st'.rings[s]| > 0 && st'.rings[s][0] == r && st'.home == st.home
    requires forall z :: z != s ==> SameLead(st.rings, st'.rings, z)
    ensures BinOk(st', i) && Sizes(st'.tries[i]) == Sizes(st.tries[i])
  {
    var d := DepthBits(st.tries[i], s, OpenBits(i));
    FindOk(st.tries[i], s, OpenBits(i), Prefix(i));
    HeadsFrame(sub.left, st.rings, st'.rings);
    HeadsFrame(sub.right, st.rings, st'.rings);
    DepartedBin(st, st.node, i, s, sub.(head := r), sub.head, st', {});
  }

  lemma PromotedOk(st: State, x: Addr)
    requires Ok(st) && x in st.node && !st.node[x].parent.Null? && x in st.bk && st.bk[x] != x
    ensures x in st.fd && st.node[x].index < NTREEBINS && CanRelink(st.node, x, st.bk[x])
    ensures st.node[x].size in st.rings && x in st.rings[st.node[x].size] && |st.rings[st.node[x].size]| > 1
    ensures Find(st.tries[st.node[x].index], st.node[x].size, OpenBits(st.node[x].index)).Node?
    ensures Ok(WithPromoted(st, x)) && OneChunkLess(st.node, WithPromoted(st, x).node, x)
  {
    Binned(st, x);
    TreeMember(st, x);
    PromoteDeparts(st, x);
    Successor(st, x);
    var s, i, r := st.node[x].size, st.node[x].index, st.bk[x];
    var sub := Find(st.tries[i], s, OpenBits(i));
    DepartingCan(st, st.node, i, s, sub.(head := r));
    var st' := WithPromoted(st, x);
    PromotedRest(st, st', x, i, s, r, sub);
    PromotedBin(st, st', i, s, r, sub);
    Assemble(st, st', i, s);
  }

  lemma PromotedRest(st: State, st': State, x: Addr, i: nat, s: nat, r: Addr, sub: Trie)
    requires Ok(st) && x in st.node && !st.node[x].parent.Null? && x in st.bk && r == st.bk[x] != x
    requires i == st.node[x].index < NTREEBINS && s == st.node[x].size
    requires sub == Find(st.tries[i], s, OpenBits(i)) && sub.Node? && sub.head == x
    requires Departing(st, st.node, i, s, sub.(head := r)) && CanRelink(st.node, x, r)
    requires RingShrinks(st, st', x) && r in st.node && st.node[r].size == s
    requires var w := WithReplaced(st, st.node, i, x, s, sub.(head := r));
             st'.node == w.node && st'.bins == w.bins && st'.marks == w.marks && st'.tries == w.tries
    ensures RingsOk(st') && SameElsewhere(st, st', i, s) && OneChunkLess(st.node, st'.node, x)
  {
    forall a | a in st.node ensures a != 0 {
      assert ChunkOk(st, a);
    }
    DepartedStatus(st, st.node, i, s, sub.(head := r), x);
    PromoteStatus(st, x, st');
    OtherRoots(st, st.node, i, x, s, sub.(head := r));
    DepartedElsewhere(st, st', x, i, s, r);
  }

  lemma DepartedElsewhere(st: State, st': State, x: Addr, i: nat, s: nat, r: Addr)
    requires |st.bins| == |st.tries| == NTREEBINS && i < NTREEBINS && |st'.bins| == |st'.tries| == NTREEBINS
    requires TreeStatus(st.node, st'.node, st.tries[i], r)
    requires r in st.node ==> r in Heads(st.tries[i]) || st.node[r].size == s
    requires OneChunkLess(st.node, st'.node, x) && st.node[x].size == s
    requires forall j: nat :: j < NTREEBINS && j != i ==>
               st'.tries[j] == st.tries[j] && st'.bins[j] == st.bins[j] && (j in st'.marks <==> j in st.marks)
    requires forall z :: z in st.rings && z != s ==> z in st'.rings && st'.rings[z] == st.rings[z]
    requires forall z :: z in st.home && z != s ==> z in st'.home && st'.home[z] == st.home[z]
    ensures SameElsewhere(st, st', i, s)
  {
  }

  // ----- the last chunk of its size: a leaf below takes its place

  /** Memory just before relinking: the leaf has been cut off. */
  ghost function BeforeDrop(m: Nodes, sub: Trie): Nodes
    requires sub.Node? && Links(m, sub)
  {
    if IsLeaf(sub) then m else CutMem(m, sub)
  }

  ghost function WithDropped(st: State, x: Addr): State
    requires x in st.node && st.node[x].index < |st.bins| == |st.tries|
    requires var sub := Find(st.tries[st.node[x].index], st.node[x].size, OpenBits(st.node[x].index));
             sub.Node? && Links(st.node, sub) && CanRelink(BeforeDrop(st.node, sub), x, Root(DropNode(sub)))
  {
    var s, i := st.node[x].size, st.node[x].index;
    var sub := Find(st.tries[i], s, OpenBits(i));
    WithReplaced(st, BeforeDrop(st.node, sub), i, x, s, DropNode(sub)).(
      rings := st.rings - {s}, home := st.home - {s})
  }

  lemma DropAdoptable(m: Nodes, sub: Trie, d: nat, p: nat)
    requires sub.Node? && Links(m, sub) && TrieOk(sub, d, p) && !IsLeaf(sub)
    ensures Adoptable(CutMem(m, sub), sub.head, DropNode(sub), d, p)
    ensures Heads(DropNode(sub)) == Heads(sub) - {sub.head}
  {
    var c, leaf, m' := CutLeaf(sub), RightLeaf(sub), CutMem(m, sub);
    CutLinks(m, sub, d, p);
    CutHeads(m, sub, d, p);
    CutLeafOk(sub, d, p);
    DropNodeOk(sub, d, p);
    NodeDisjoint(m', c, d, p);
    RightLeafBelow(sub);
    assert leaf.head != sub.head;
    assert Heads(c) == {c.head} + Heads(c.left) + Heads(c.right);
    assert Heads(c.left) + Heads(c.right) == Heads(sub) - {leaf.head} - {sub.head};
    var rest := Heads(c.left) + Heads(c.right);
    assert {leaf.head} + rest == Heads(sub) - {sub.head};
    assert {leaf.head} + Heads(c.left) + Heads(c.right) == {leaf.head} + rest;
  }

  lemma DropPrepared(st: State, x: Addr, t: Trie, sub: Trie, d: nat, p: nat)
    requires Links(st.node, t) && Links(st.node, sub) && sub.Node? && Heads(sub) <= Heads(t) && TrieOk(sub, d, p)
    requires sub.head == x
    requires st.node[x].parent.At? ==> st.node[x].parent.addr in Heads(t) && st.node[x].parent.addr !in Heads(sub)
    ensures Prepared(st.node, BeforeDrop(st.node, sub), t, sub, DropNode(sub), d, p)
    ensures Heads(DropNode(sub)) == Heads(sub) - {x}
  {
    if IsLeaf(sub) {
      assert Heads(sub) == {x};
    } else {
      DropAdoptable(st.node, sub, d, p);
      assert LeafSlot(sub).0 in Heads(sub);
      HeadSize(st.node, sub, LeafSlot(sub).0);
    }
  }

  lemma DropDeparts(st: State, x: Addr)
    requires Ok(st) && x in st.node && !st.node[x].parent.Null?
    ensures var s, i := st.node[x].size, st.node[x].index;
            && i < NTREEBINS && s in Sizes(st.tries[i]) && ShiftRight(s, OpenBits(i)) == Prefix(i)
            && var sub := Find(st.tries[i], s, OpenBits(i));
               && sub.Node? && sub.head == x && Links(st.node, sub)
               && Departing(st, BeforeDrop(st.node, sub), i, s, DropNode(sub))
               && (DropNode(sub).Node? ==> DropNode(sub).head in Heads(st.tries[i]))
  {
    TreeMember(st, x);
    var s, i := st.node[x].size, st.node[x].index;
    var sub, d := Find(st.tries[i], s, OpenBits(i)), DepthBits(st.tries[i], s, OpenBits(i));
    DropPrepared(st, x, st.tries[i], sub, d, ShiftRight(s, d));
    assert DropNode(sub).Node? ==> DropNode(sub).head in Heads(DropNode(sub));
  }

  lemma DropStatus(st: State, x: Addr, st': State, r: Addr)
    requires Ok(st) && x in st.node && !st.node[x].parent.Null? && x in st.bk && st.bk[x] == x
    requires st.node[x].index < NTREEBINS && (r != 0 ==> r in Heads(st.tries[st.node[x].index]))
    requires TreeStatus(st.node, st'.node, st.tries[st.node[x].index], r) && OneChunkLess(st.node, st'.node, x)
    requires st'.fd == st.fd && st'.bk == st.bk
    requires st'.rings == st.rings - {st.node[x].size} && st'.home == st.home - {st.node[x].size}
    ensures RingsOk(st')
  {
    Binned(st, x);
    var s, i := st.node[x].size, st.node[x].index;
    assert st.rings[s] == [x];
    forall a | a in st'.node ensures StatusOk(st', a) {
      assert ChunkOk(st, a);
      assert st.node[a].size != s;
      OtherSizesStatus(st, st', i, s, r, a);
    }
    LastOfSize(st, st', x);
  }

  lemma DroppedBin(st: State, st': State, i: nat, s: nat, sub: Trie)
    requires |st.bins| == |st.tries| == NTREEBINS && i < NTREEBINS
    requires sub == Find(st.tries[i], s, OpenBits(i)) && sub.Node? && sub.head in st.node && sub.size == s
    requires Links(st.node, sub) && HeadsOk(sub, st.rings)
    requires Departing(st, BeforeDrop(st.node, sub), i, s, DropNode(sub))
    requires CanRelink(BeforeDrop(st.node, sub), sub.head, Root(DropNode(sub)))
    requires var w := WithReplaced(st, BeforeDrop(st.node, sub), i, sub.head, s, DropNode(sub));
             st'.node == w.node && st'.bins == w.bins && st'.marks == w.marks && st'.tries == w.tries
    requires st'.rings == st.rings - {s} && st'.home == st.home - {s}
    ensures BinOk(st', i) && Sizes(st'.tries[i]) == Sizes(st.tries[i]) - {s}
  {
    var d := DepthBits(st.tries[i], s, OpenBits(i));
    FindOk(st.tries[i], s, OpenBits(i), Prefix(i));
    DropNodeOk(sub, d, ShiftRight(s, d));
    forall z | z != s ensures SameLead(st.rings, st'.rings, z) {
    }
    DropHeadsOk(sub, d, ShiftRight(s, d), st.rings, st'.rings);
    DepartedBin(st, BeforeDrop(st.node, sub), i, s, DropNode(sub), sub.head, st', {s});
  }

  /** The heads below a dropped node still lead their rings. */
  lemma DropHeadsOk(t: Trie, n: nat, p: nat, rings: map<nat, seq<Addr>>, rings': map<nat, seq<Addr>>)
    requires t.Node? && TrieOk(t, n, p) && HeadsOk(t, rings)
    requires forall z :: z != t.size ==> SameLead(rings, rings', z)
    ensures HeadsOk(DropNode(t), rings')
  {
    if !IsLeaf(t) {
      CutHeadsOk(t, rings);
      CutLeafOk(t, n, p);
      RightLeafBelow(t);
      var c := CutLeaf(t);
      HeadsFrame(c.left, rings, rings');
      HeadsFrame(c.right, rings, rings');
      assert SameLead(rings, rings', RightLeaf(t).size);
    }
  }

  lemma {:induction false} CutHeadsOk(t: Trie, rings: map<nat, seq<Addr>>)
    requires t.Node? && HeadsOk(t, rings)
    ensures HeadsOk(CutLeaf(t), rings) && HeadsOk(RightLeaf(t), rings)
  {
    if t.right.Node? {
      CutHeadsOk(t.right, rings);
    } else if t.left.Node? {
      CutHeadsOk(t.left, rings);
    }
  }

  lemma DroppedOk(st: State, x: Addr)
    requires Ok(st) && x in st.node && !st.node[x].parent.Null? && x in st.bk && st.bk[x] == x
    ensures st.node[x].index < NTREEBINS
    ensures var sub := Find(st.tries[st.node[x].index], st.node[x].size, OpenBits(st.node[x].index));
            sub.Node? && Links(st.node, sub) && CanRelink(BeforeDrop(st.node, sub), x, Root(DropNode(sub)))
    ensures Ok(WithDropped(st, x)) && OneChunkLess(st.node, WithDropped(st, x).node, x)
  {
    TreeMember(st, x);
    DropDeparts(st, x);
    Binned(st, x);
    var s, i := st.node[x].size, st.node[x].index;
    var sub := Find(st.tries[i], s, OpenBits(i));
    var m, sub' := BeforeDrop(st.node, sub), DropNode(sub);
    DepartingCan(st, m, i, s, sub');
    var st' := WithDropped(st, x);
    forall a | a in st.node ensures a != 0 {
      assert ChunkOk(st, a);
    }
    DroppedRest(st, st', x, i, s, sub);
    DroppedBin(st, st', i, s, sub);
    Assemble(st, st', i, s);
  }

  lemma DroppedRest(st: State, st': State, x: Addr, i: nat, s: nat, sub: Trie)
    requires Ok(st) && x in st.node && !st.node[x].parent.Null? && x in st.bk && st.bk[x] == x
    requires i == st.node[x].index < NTREEBINS && s == st.node[x].size && 0 !in st.node
    requires sub == Find(st.tries[i], s, OpenBits(i)) && sub.Node? && sub.head == x && Links(st.node, sub)
    requires Departing(st, BeforeDrop(st.node, sub), i, s, DropNode(sub))
    requires CanRelink(BeforeDrop(st.node, sub), x, Root(DropNode(sub)))
    requires DropNode(sub).Node? ==> DropNode(sub).head in Heads(st.tries[i])
    requires st'.fd == st.fd && st'.bk == st.bk && st'.rings == st.rings - {s} && st'.home == st.home - {s}
    requires var w := WithReplaced(st, BeforeDrop(st.node, sub), i, x, s, DropNode(sub));
             st'.node == w.node && st'.bins == w.bins && st'.marks == w.marks && st'.tries == w.tries
    ensures RingsOk(st') && SameElsewhere(st, st', i, s) && OneChunkLess(st.node, st'.node, x)
  {
    DepartedStatus(st, BeforeDrop(st.node, sub), i, s, DropNode(sub), x);
    DropStatus(st, x, st', Root(DropNode(sub)));
    OtherRoots(st, BeforeDrop(st.node, sub), i, x, s, DropNode(sub));
    DepartedElsewhere(st, st', x, i, s, Root(DropNode(sub)));
  }

  /** A tree member is its bin's root exactly when its parent pointer leads to the bin. */
  lemma RootOrInner(st: State, x: Addr)
    requires Ok(st) && x in st.node && !st.node[x].parent.Null?
    ensures st.node[x].index < NTREEBINS
    ensures st.node[x].parent.Slot? <==> st.bins[st.node[x].index] == x
  {
    TreeMember(st, x);
    var s, i := st.node[x].size, st.node[x].index;
    ReachesHeld(st.node, st.tries[i], s, OpenBits(i), Prefix(i));
    FindParent(st.node, st.tries[i], s, OpenBits(i));
  }
}
