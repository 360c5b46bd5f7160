/**
  The tree bins of the allocator as one value: chunk fields and bin roots, together with the
  tries and same-size rings that they represent. `Ok` is the invariant that the debug checks
  do_check_tree and do_check_treebin describe.
 */
module TreeBinState {
  import opened Chunks
  import opened Rings
  import opened TreeIndex
  import opened TrieLinks
  import opened Tries
  import opened Words

  datatype State = State(
    node: Nodes,                 // size, children, parent and index of each binned chunk
    fd: map<Addr, Addr>,
    bk: map<Addr, Addr>,
    bins: seq<Addr>,             // the roots
    marks: set<nat>,             // the bins marked in the bin map
    tries: seq<Trie>,            // what the pointers represent
    rings: map<nat, seq<Addr>>,  // the chunks of each size, tree member first
    home: map<nat, nat>)         // the bin of each size

  /** A chunk that is on a ring but not in the tree. */
  predicate Chained(c: TreeChunk) {
    c.parent.Null? && c.child0 == 0 && c.child1 == 0
  }

  /** All chunks of size `s`, circularly linked. */
  ghost predicate RingAt(st: State, s: nat, ring: seq<Addr>) {
    && IsRing(st.fd, st.bk, ring)
    && (forall a {:trigger a in ring} :: a in ring ==> a in st.node && st.node[a].size == s)
  }

  /** A binned chunk is on the ring of its size, and only the first one of a ring is in the tree. */
  ghost predicate ChunkOk(st: State, a: Addr)
    requires a in st.node
  {
    var c := st.node[a];
    && a != 0 && c.size in st.rings && a in st.rings[c.size]
    && c.size in st.home && c.index == st.home[c.size]
    && if a == st.rings[c.size][0] then !c.parent.Null? else Chained(c)
  }

  ghost predicate RingsOk(st: State) {
    && (forall s {:trigger RingAt(st, s, st.rings[s])} :: s in st.rings ==> RingAt(st, s, st.rings[s]))
    && (forall a {:trigger ChunkOk(st, a)} :: a in st.node ==> ChunkOk(st, a))
  }

  /** The tree member of each size leads that size's ring. */
  ghost predicate HeadsOk(t: Trie, rings: map<nat, seq<Addr>>)
    decreases t
  {
    t.Node? ==>
      && t.size in rings && |rings[t.size]| > 0 && rings[t.size][0] == t.head
      && HeadsOk(t.left, rings) && HeadsOk(t.right, rings)
  }

  ghost predicate BinOk(st: State, i: nat)
    requires i < NTREEBINS && |st.bins| == |st.tries| == NTREEBINS
  {
    var t := st.tries[i];
    && Links(st.node, t) && TrieOk(t, OpenBits(i), Prefix(i)) && HeadsOk(t, st.rings)
    && st.bins[i] == Root(t)
    && (t.Node? ==> st.node[t.head].parent == Slot(i))
    && (i in st.marks <==> t.Node?)
    && (forall s :: s in Sizes(t) ==> s in st.home && st.home[s] == i)
  }

  /** A size is in the trie of its bin. */
  ghost predicate HomeAt(st: State, s: nat) {
    s in st.home ==> st.home[s] < |st.tries| && s in Sizes(st.tries[st.home[s]])
  }

  ghost predicate Ok(st: State) {
    && |st.bins| == |st.tries| == NTREEBINS
    && RingsOk(st)
    && (forall i: nat {:trigger BinOk(st, i)} :: i < NTREEBINS ==> BinOk(st, i))
    && st.rings.Keys == st.home.Keys
    && (forall s {:trigger HomeAt(st, s)} :: HomeAt(st, s))
  }

  // ----- the invariant with the machine words

  /** Each map bit is set exactly when its bin is non-empty. */
  ghost predicate MapOk(treemap: nat, marks: set<nat>) {
    && treemap < WORD
    && forall i: nat {:trigger Marked(treemap, i)} :: i < NTREEBINS ==> (Marked(treemap, i) <==> i in marks)
  }

  /** The recorded bin of a size is the one compute_tree_index gives. */
  ghost predicate SizeHome(home: map<nat, nat>, s: nat) {
    s in home ==> MIN_LARGE_SIZE <= s < WORD && home[s] == Index(s)
  }

  ghost predicate HomeOk(home: map<nat, nat>) {
    forall s {:trigger SizeHome(home, s)} :: SizeHome(home, s)
  }

  ghost predicate AllOk(st: State, treemap: nat) {
    Ok(st) && MapOk(treemap, st.marks) && HomeOk(st.home)
  }

  /** The binned chunks with their sizes. */
  ghost function ContentsOf(st: State): map<Addr, nat> {
    map a | a in st.node :: st.node[a].size
  }

  // ----- frames

  /** The ring of size `s`, if any, has the same first chunk. */
  ghost predicate SameLead(rings: map<nat, seq<Addr>>, rings': map<nat, seq<Addr>>, s: nat) {
    s in rings && |rings[s]| > 0 ==> s in rings' && |rings'[s]| > 0 && rings'[s][0] == rings[s][0]
  }

  lemma {:induction false} HeadsFrame(t: Trie, rings: map<nat, seq<Addr>>, rings': map<nat, seq<Addr>>)
    requires HeadsOk(t, rings) && forall s :: s in Sizes(t) ==> SameLead(rings, rings', s)
    ensures HeadsOk(t, rings')
    decreases t
  {
    if t.Node? {
      assert SameLead(rings, rings', t.size);
      HeadsFrame(t.left, rings, rings');
      HeadsFrame(t.right, rings, rings');
    }
  }

  /** A head is the first chunk of its size's ring. */
  lemma {:induction false} HeadLeads(m: Nodes, t: Trie, rings: map<nat, seq<Addr>>, a: Addr)
    requires Links(m, t) && HeadsOk(t, rings) && a in Heads(t)
    ensures a in m && m[a].size in rings && |rings[m[a].size]| > 0 && a == rings[m[a].size][0]
    ensures m[a].size in Sizes(t)
    decreases t
  {
    if a != t.head {
      if a in Heads(t.left) {
        HeadLeads(m, t.left, rings, a);
      } else {
        HeadLeads(m, t.right, rings, a);
      }
    }
  }

  /** A bin whose heads, rings and root are untouched stays in order. */
  lemma BinFrame(st: State, st': State, j: nat)
    requires |st.bins| == |st.tries| == NTREEBINS && |st'.bins| == |st'.tries| == NTREEBINS
    requires j < NTREEBINS && BinOk(st, j)
    requires st'.tries[j] == st.tries[j] && st'.bins[j] == st.bins[j] && (j in st'.marks <==> j in st.marks)
    requires SameOn(st.node, st'.node, Heads(st.tries[j]))
    requires forall s :: s in Sizes(st.tries[j]) && s in st.rings ==> s in st'.rings && st'.rings[s] == st.rings[s]
    requires forall s :: s in Sizes(st.tries[j]) && s in st.home ==> s in st'.home && st'.home[s] == st.home[s]
    ensures BinOk(st', j)
  {
    LinksFrame(st.node, st'.node, st.tries[j]);
    HeadsFrame(st.tries[j], st.rings, st'.rings);
    assert st.tries[j].Node? ==> st.tries[j].head in Heads(st.tries[j]);
  }

  /** The two states agree outside size `s` and the tree members of bin `i`. */
  ghost predicate SameElsewhere(st: State, st': State, i: nat, s: nat)
    requires i < NTREEBINS && |st.bins| == |st.tries| == NTREEBINS && |st'.bins| == |st'.tries| == NTREEBINS
  {
    && (forall j: nat :: j < NTREEBINS && j != i ==>
          st'.tries[j] == st.tries[j] && st'.bins[j] == st.bins[j] && (j in st'.marks <==> j in st.marks))
    && (forall a :: a in st.node && st.node[a].size != s && a !in Heads(st.tries[i]) ==>
          a in st'.node && st'.node[a] == st.node[a])
    && (forall z :: z in st.rings && z != s ==> z in st'.rings && st'.rings[z] == st.rings[z])
    && (forall z :: z in st.home && z != s ==> z in st'.home && st'.home[z] == st.home[z])
  }

  lemma OtherBin(st: State, st': State, i: nat, s: nat, j: nat)
    requires |st.bins| == |st.tries| == NTREEBINS && |st'.bins| == |st'.tries| == NTREEBINS
    requires i < NTREEBINS && j < NTREEBINS && i != j && BinOk(st, i) && BinOk(st, j)
    requires SameElsewhere(st, st', i, s) && s !in Sizes(st.tries[j])
    ensures BinOk(st', j)
  {
    var t := st.tries[j];
    forall a | a in Heads(t) ensures a in st.node && a in st'.node && st'.node[a] == st.node[a] {
      HeadSize(st.node, t, a);
      if a in Heads(st.tries[i]) {
        HeadSize(st.node, st.tries[i], a);
      }
    }
    BinFrame(st, st', j);
  }

  /** A ring whose chunks keep their links and size stays in order. */
  lemma RingAtFrame(st: State, st': State, s: nat, ring: seq<Addr>)
    requires RingAt(st, s, ring)
    requires forall a :: a in st.node && st.node[a].size == s ==>
               && a in st'.node && st'.node[a].size == s
               && (a in st.fd ==> a in st'.fd && st'.fd[a] == st.fd[a])
               && (a in st.bk ==> a in st'.bk && st'.bk[a] == st.bk[a])
    ensures RingAt(st', s, ring)
  {
    RingFrame(st.fd, st.bk, st'.fd, st'.bk, ring);
  }

  /** The invariant, bin by bin, after a change to size `s` of bin `i`. */
  lemma Assemble(st: State, st': State, i: nat, s: nat)
    requires Ok(st) && i < NTREEBINS && |st'.bins| == |st'.tries| == NTREEBINS
    requires s in st.home ==> st.home[s] == i
    requires SameElsewhere(st, st', i, s) && RingsOk(st') && BinOk(st', i)
    requires st'.rings.Keys == st'.home.Keys
    requires forall z :: z in st'.home && z != s ==> z in st.home
    requires Sizes(st.tries[i]) - {s} <= Sizes(st'.tries[i])
    requires s in st'.home ==> st'.home[s] == i && s in Sizes(st'.tries[i])
    ensures Ok(st')
  {
    assert BinOk(st, i);
    assert HomeAt(st, s);
    forall j: nat | j < NTREEBINS && j != i ensures BinOk(st', j) {
      assert BinOk(st, j);
      OtherBin(st, st', i, s, j);
    }
    forall z ensures HomeAt(st', z) {
      assert HomeAt(st, z);
    }
  }

  /** A chunk keeps its size, its index and its status as tree member or chained chunk. */
  predicate KeepsPlace(c: TreeChunk, c': TreeChunk) {
    && c'.size == c.size && c'.index == c.index
    && (!c.parent.Null? ==> !c'.parent.Null?) && (Chained(c) ==> Chained(c'))
  }

  // ----- insertion

  /** First chunk of an empty bin. */
  function WithNewBin(st: State, x: Addr, s: nat, i: nat): State
    requires |st.bins| == |st.tries| == NTREEBINS && i < NTREEBINS
  {
    State(st.node[x := TreeChunk(s, 0, 0, Slot(i), i)], st.fd[x := x], st.bk[x := x],
          st.bins[i := x], st.marks + {i}, st.tries[i := Node(x, s, Empty, Empty)],
          st.rings[s := [x]], st.home[s := i])
  }

  lemma NewBinOk(st: State, x: Addr, s: nat, i: nat)
    requires Ok(st) && x !in st.node && x != 0 && i < NTREEBINS && i !in st.marks && s !in st.home
    requires ShiftRight(s, OpenBits(i)) == Prefix(i)
    ensures Ok(WithNewBin(st, x, s, i))
  {
    assert BinOk(st, i);
    NewBinRing(st, x, s, i);
    NewBinElsewhere(st, x, s, i);
    SingletonBin(WithNewBin(st, x, s, i), x, s, i);
    Assemble(st, WithNewBin(st, x, s, i), i, s);
  }

  lemma NewBinRing(st: State, x: Addr, s: nat, i: nat)
    requires |st.bins| == |st.tries| == NTREEBINS && i < NTREEBINS
    requires RingsOk(st) && s !in st.rings && s !in st.home && x !in st.node && x != 0
    ensures RingsOk(WithNewBin(st, x, s, i))
  {
    NewRing(st, WithNewBin(st, x, s, i), x, s, i);
  }

  lemma NewBinElsewhere(st: State, x: Addr, s: nat, i: nat)
    requires |st.bins| == |st.tries| == NTREEBINS && i < NTREEBINS && x !in st.node
    ensures SameElsewhere(st, WithNewBin(st, x, s, i), i, s)
  {
  }

  lemma SingletonBin(st: State, x: Addr, s: nat, i: nat)
    requires |st.bins| == |st.tries| == NTREEBINS && i < NTREEBINS && x != 0
    requires ShiftRight(s, OpenBits(i)) == Prefix(i)
    requires st.tries[i] == Node(x, s, Empty, Empty) && st.bins[i] == x && i in st.marks
    requires x in st.node && st.node[x] == TreeChunk(s, 0, 0, Slot(i), i)
    requires s in st.rings && st.rings[s] == [x] && s in st.home && st.home[s] == i
    ensures BinOk(st, i)
  {
    assert Sizes(Empty) == {} && Root(Empty) == 0;
    assert TrieOk(Empty, OpenBits(i) - 1, 2 * Prefix(i)) && TrieOk(Empty, OpenBits(i) - 1, 2 * Prefix(i) + 1);
    assert Links(st.node, Empty) && HeadsOk(Empty, st.rings);
    assert Sizes(st.tries[i]) == {s};
  }

  /** A fresh size adds one singleton ring and leaves the others alone. */
  lemma NewRing(st: State, st': State, x: Addr, s: nat, i: nat)
    requires RingsOk(st) && s !in st.rings && s !in st.home && x !in st.node && x != 0
    requires st'.rings == st.rings[s := [x]] && st'.home == st.home[s := i]
    requires st'.fd == st.fd[x := x] && st'.bk == st.bk[x := x]
    requires x in st'.node && st'.node[x].size == s && st'.node[x].index == i && !st'.node[x].parent.Null?
    requires forall a :: a in st'.node ==> a in st.node || a == x
    requires forall a :: a in st.node ==> a in st'.node && KeepsPlace(st.node[a], st'.node[a])
    ensures RingsOk(st')
  {
    SingletonRing(st.fd, st.bk, x);
    assert RingAt(st', s, [x]);
    forall z | z in st.rings ensures RingAt(st', z, st.rings[z]) {
      RingAtFrame(st, st', z, st.rings[z]);
    }
    forall a | a in st'.node ensures ChunkOk(st', a) {
      if a != x {
        assert ChunkOk(st, a);
      }
    }
  }

  // ----- insertion next to chunks of the same size

  function WithChained(st: State, x: Addr, s: nat, i: nat): State
    requires s in st.rings && |st.rings[s]| > 0 && st.rings[s][0] in st.fd
  {
    var h := st.rings[s][0];
    var f := st.fd[h];
    st.(node := st.node[x := TreeChunk(s, 0, 0, Null, i)],
        fd := st.fd[h := x][x := f], bk := st.bk[f := x][x := h],
        rings := st.rings[s := Inserted(st.rings[s], x)])
  }

  lemma ChainedRings(st: State, x: Addr, s: nat, i: nat)
    requires |st.bins| == |st.tries| == NTREEBINS && i < NTREEBINS
    requires RingsOk(st) && s in st.rings && s in st.home && st.home[s] == i && x !in st.node && x != 0
    ensures |st.rings[s]| > 0 && st.rings[s][0] in st.fd
    ensures RingsOk(WithChained(st, x, s, i))
  {
    var ring := st.rings[s];
    assert RingAt(st, s, ring) && x !in ring;
    InsertKeepsRing(st.fd, st.bk, ring, x);
    var st' := WithChained(st, x, s, i);
    assert ring[0] in ring && st.fd[ring[0]] in ring;
    assert forall a :: a in st.node && st.node[a].size != s ==> a != ring[0] && a != st.fd[ring[0]];
    forall z | z in st.rings ensures RingAt(st', z, st'.rings[z]) {
      if z != s {
        RingAtFrame(st, st', z, st.rings[z]);
      }
    }
    forall a | a in st'.node ensures ChunkOk(st', a) {
      if a != x {
        assert ChunkOk(st, a);
      }
    }
  }

  lemma ChainedElsewhere(st: State, x: Addr, s: nat, i: nat)
    requires |st.bins| == |st.tries| == NTREEBINS && i < NTREEBINS && x !in st.node
    requires s in st.rings && |st.rings[s]| > 0 && st.rings[s][0] in st.fd
    ensures SameElsewhere(st, WithChained(st, x, s, i), i, s)
  {
  }

  lemma ChainedOk(st: State, x: Addr, s: nat, i: nat)
    requires Ok(st) && x !in st.node && x != 0 && i < NTREEBINS && s in st.home && st.home[s] == i
    ensures |st.rings[s]| > 0 && st.rings[s][0] in st.fd
    ensures Ok(WithChained(st, x, s, i))
  {
    assert BinOk(st, i) && HomeAt(st, s);
    ChainedRings(st, x, s, i);
    ChainedElsewhere(st, x, s, i);
    SameTrie(st, WithChained(st, x, s, i), i);
    Assemble(st, WithChained(st, x, s, i), i, s);
  }

  /** A bin keeps its trie when a chunk outside the tree comes or goes. */
  lemma SameTrie(st: State, st': State, i: nat)
    requires |st.bins| == |st.tries| == NTREEBINS && i < NTREEBINS && BinOk(st, i)
    requires st'.bins == st.bins && st'.tries == st.tries && st'.marks == st.marks && st'.home == st.home
    requires forall a :: a in Heads(st.tries[i]) && a in st.node ==> a in st'.node && st'.node[a] == st.node[a]
    requires forall z :: z in Sizes(st.tries[i]) ==> SameLead(st.rings, st'.rings, z)
    ensures BinOk(st', i)
  {
    var t := st.tries[i];
    forall a | a in Heads(t) ensures a in st.node && a in st'.node && st'.node[a] == st.node[a] {
      HeadSize(st.node, t, a);
    }
    LinksFrame(st.node, st'.node, t);
    HeadsFrame(t, st.rings, st'.rings);
    assert t.Node? ==> t.head in Heads(t);
  }

  // ----- insertion of a new size below a tree node

  ghost function WithHung(st: State, x: Addr, s: nat, i: nat): State
    requires i < |st.tries| && st.tries[i].Node? && Links(st.node, st.tries[i])
  {
    var t, n := st.tries[i], OpenBits(i);
    st.(node := HangMem(st.node, t, x, s, n, i), fd := st.fd[x := x], bk := st.bk[x := x],
        tries := st.tries[i := Insert(t, x, s, n)], rings := st.rings[s := [x]], home := st.home[s := i])
  }

  lemma {:induction false} InsertHeads(t: Trie, rings: map<nat, seq<Addr>>, x: Addr, s: nat, n: nat)
    requires HeadsOk(t, rings) && s !in Sizes(t)
    ensures HeadsOk(Insert(t, x, s, n), rings[s := [x]])
    decreases t
  {
    if t.Node? {
      HeadsFrame(t.left, rings, rings[s := [x]]);
      HeadsFrame(t.right, rings, rings[s := [x]]);
      if n > 0 {
        InsertHeads(if GoesRight(s, n) then t.right else t.left, rings, x, s, n - 1);
      }
    }
  }

  lemma HungRings(st: State, x: Addr, s: nat, i: nat)
    requires |st.bins| == |st.tries| == NTREEBINS && i < NTREEBINS && BinOk(st, i) && st.tries[i].Node?
    requires RingsOk(st) && s !in st.rings && s !in st.home && x !in st.node && x != 0
    requires HangFrame(st.node, WithHung(st, x, s, i).node, st.tries[i], x, s, i)
    ensures RingsOk(WithHung(st, x, s, i))
  {
    var st' := WithHung(st, x, s, i);
    var t := st.tries[i];
    forall a | a in st.node ensures a in st'.node && KeepsPlace(st.node[a], st'.node[a]) {
      if a in Heads(t) {
        HeadLeads(st.node, t, st.rings, a);
        assert ChunkOk(st, a);
      }
    }
    NewRing(st, st', x, s, i);
  }

  lemma HungElsewhere(st: State, x: Addr, s: nat, i: nat)
    requires |st.bins| == |st.tries| == NTREEBINS && i < NTREEBINS
    requires st.tries[i].Node? && Links(st.node, st.tries[i])
    requires HangFrame(st.node, WithHung(st, x, s, i).node, st.tries[i], x, s, i)
    ensures SameElsewhere(st, WithHung(st, x, s, i), i, s)
  {
  }

  lemma HungBin(st: State, x: Addr, s: nat, i: nat)
    requires |st.bins| == |st.tries| == NTREEBINS && i < NTREEBINS && BinOk(st, i) && st.tries[i].Node?
    requires x !in st.node && x != 0 && s !in st.home && ShiftRight(s, OpenBits(i)) == Prefix(i)
    ensures HangFrame(st.node, WithHung(st, x, s, i).node, st.tries[i], x, s, i)
    ensures BinOk(WithHung(st, x, s, i), i)
    ensures Sizes(WithHung(st, x, s, i).tries[i]) == Sizes(st.tries[i]) + {s}
  {
    var t, n := st.tries[i], OpenBits(i);
    HangKeepsRest(st.node, t, x, s, n, Prefix(i), i);
    HangLinks(st.node, t, x, s, n, Prefix(i), i);
    InsertOk(t, x, s, n, Prefix(i));
    InsertHeads(t, st.rings, x, s, n);
  }

  lemma HungOk(st: State, x: Addr, s: nat, i: nat)
    requires Ok(st) && x !in st.node && x != 0 && i < NTREEBINS && i in st.marks && s !in st.home
    requires ShiftRight(s, OpenBits(i)) == Prefix(i)
    ensures st.tries[i].Node? && Links(st.node, st.tries[i])
    ensures Ok(WithHung(st, x, s, i))
  {
    assert BinOk(st, i);
    HungBin(st, x, s, i);
    HungRings(st, x, s, i);
    HungElsewhere(st, x, s, i);
    Assemble(st, WithHung(st, x, s, i), i, s);
  }
}
