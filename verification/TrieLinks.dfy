/**
  How a trie is laid out in tree chunks: child and parent pointers. Pointers are addresses,
  0 is null.
 */
module TrieLinks {
  import opened Chunks
  import opened Tries
  import opened Words

  /** What a chunk's `parent` field points to: nothing (a chained chunk), its bin, or a tree node. */
  datatype Parent = Null | Slot(bin: nat) | At(addr: Addr)

  datatype TreeChunk = TreeChunk(size: nat, child0: Addr, child1: Addr, parent: Parent, index: nat)

  type Nodes = map<Addr, TreeChunk>

  function Root(t: Trie): Addr {
    if t.Empty? then 0 else t.head
  }

  /** `m` holds the trie `t`, up to the parent pointer of its root. */
  ghost predicate Links(m: Nodes, t: Trie)
    decreases t
  {
    t.Node? ==>
      && t.head != 0 && t.head in m && m[t.head].size == t.size
      && m[t.head].child0 == Root(t.left) && m[t.head].child1 == Root(t.right)
      && Links(m, t.left) && Links(m, t.right)
      && (t.left.Node? ==> m[t.left.head].parent == At(t.head))
      && (t.right.Node? ==> m[t.right.head].parent == At(t.head))
  }

  ghost predicate SameOn(m: Nodes, m': Nodes, heads: set<Addr>) {
    forall a :: a in heads ==> a in m && a in m' && m'[a] == m[a]
  }

  /** A trie's layout depends only on its own heads. */
  lemma {:induction false} LinksFrame(m: Nodes, m': Nodes, t: Trie)
    requires Links(m, t) && SameOn(m, m', Heads(t))
    ensures Links(m', t)
    decreases t
  {
    if t.Node? {
      LinksFrame(m, m', t.left);
      LinksFrame(m, m', t.right);
      assert t.head in Heads(t);
      assert t.left.Node? ==> t.left.head in Heads(t.left);
      assert t.right.Node? ==> t.right.head in Heads(t.right);
    }
  }

  /** Every head is in memory, with one of the trie's sizes. */
  lemma {:induction false} HeadSize(m: Nodes, t: Trie, a: Addr)
    requires Links(m, t) && a in Heads(t)
    ensures a != 0 && a in m && m[a].size in Sizes(t)
  {
    if a != t.head {
      if a in Heads(t.left) {
        HeadSize(m, t.left, a);
      } else {
        HeadSize(m, t.right, a);
      }
    }
  }

  /** Chunks of different sizes are different. */
  lemma NotHead(m: Nodes, t: Trie, a: Addr)
    requires Links(m, t) && (a in m ==> m[a].size !in Sizes(t))
    ensures a !in Heads(t)
  {
    if a in Heads(t) {
      HeadSize(m, t, a);
    }
  }

  /** A node shares no head with its subtrees, nor they with each other. */
  ghost predicate Apart(t: Trie)
    requires t.Node?
  {
    t.head !in Heads(t.left) && t.head !in Heads(t.right) && Heads(t.left) !! Heads(t.right)
  }

  lemma NodeDisjoint(m: Nodes, t: Trie, n: nat, p: nat)
    requires t.Node? && Links(m, t) && TrieOk(t, n, p)
    ensures Apart(t)
  {
    NotHead(m, t.left, t.head);
    NotHead(m, t.right, t.head);
    SidesDisjoint(t, n, p);
    forall a | a in Heads(t.left) ensures a !in Heads(t.right) {
      HeadSize(m, t.left, a);
      NotHead(m, t.right, a);
    }
  }

  function SetChild(c: TreeChunk, right: bool, a: Addr): TreeChunk {
    if right then c.(child1 := a) else c.(child0 := a)
  }

  /** Giving one child of a node another subtree. */
  lemma SetChildLinks(m: Nodes, m': Nodes, t: Trie, right: bool, c': Trie)
    requires t.Node? && Links(m, t)
    requires Links(m', c') && (c'.Node? ==> m'[c'.head].parent == At(t.head))
    requires t.head in m' && m'[t.head] == SetChild(m[t.head], right, Root(c'))
    requires SameOn(m, m', Heads(if right then t.left else t.right))
    ensures Links(m', if right then t.(right := c') else t.(left := c'))
  {
    var o := if right then t.left else t.right;
    LinksFrame(m, m', o);
    assert o.Node? ==> o.head in Heads(o);
  }

  // ----- insertion

  /** Memory after the insertion walk for a new size, which ends by hanging `x` below one node. */
  ghost function HangMem(m: Nodes, t: Trie, x: Addr, s: nat, n: nat, idx: nat): Nodes
    requires t.Node? && Links(m, t)
    decreases t
  {
    if t.size == s || n == 0 then m
    else
      var right := GoesRight(s, n);
      var c := if right then t.right else t.left;
      if c.Empty?
      then m[t.head := SetChild(m[t.head], right, x)][x := TreeChunk(s, 0, 0, At(t.head), idx)]
      else HangMem(m, c, x, s, n - 1, idx)
  }

  /** What the insertion walk changes: one child pointer in the trie, and the new chunk. */
  ghost predicate HangFrame(m: Nodes, m': Nodes, t: Trie, x: Addr, s: nat, idx: nat) {
    && m'.Keys == m.Keys + {x}
    && m'[x].size == s && m'[x].index == idx && m'[x].child0 == 0 && m'[x].child1 == 0 && m'[x].parent.At?
    && (forall a :: a in m && a !in Heads(t) ==> m'[a] == m[a])
    && (forall a :: a in m ==>
          m'[a].size == m[a].size && m'[a].parent == m[a].parent && m'[a].index == m[a].index)
  }

  lemma {:induction false} HangKeepsRest(m: Nodes, t: Trie, x: Addr, s: nat, n: nat, p: nat, idx: nat)
    requires t.Node? && Links(m, t) && TrieOk(t, n, p) && ShiftRight(s, n) == p && s !in Sizes(t)
    requires x !in m
    ensures HangFrame(m, HangMem(m, t, x, s, n, idx), t, x, s, idx)
    decreases t
  {
    Descend(t, n, p, s);
    var right := GoesRight(s, n);
    var c := if right then t.right else t.left;
    if c.Node? {
      HangKeepsRest(m, c, x, s, n - 1, if right then 2 * p + 1 else 2 * p, idx);
    }
  }

  /** The in-place insertion lays out exactly the trie with `x` inserted. */
  lemma {:induction false} HangLinks(m: Nodes, t: Trie, x: Addr, s: nat, n: nat, p: nat, idx: nat)
    requires t.Node? && Links(m, t) && TrieOk(t, n, p) && ShiftRight(s, n) == p && s !in Sizes(t)
    requires x !in m && x != 0
    ensures Links(HangMem(m, t, x, s, n, idx), Insert(t, x, s, n))
    ensures Root(Insert(t, x, s, n)) == t.head
    decreases t
  {
    Descend(t, n, p, s);
    NodeDisjoint(m, t, n, p);
    var m' := HangMem(m, t, x, s, n, idx);
    var right := GoesRight(s, n);
    var c := if right then t.right else t.left;
    var o := if right then t.left else t.right;
    forall a | a in Heads(o) ensures a in m && a != x {
      HeadSize(m, o, a);
    }
    if c.Node? {
      var q := if right then 2 * p + 1 else 2 * p;
      HangLinks(m, c, x, s, n - 1, q, idx);
      HangKeepsRest(m, c, x, s, n - 1, q, idx);
      assert c.head in Heads(c);
    }
    SetChildLinks(m, m', t, right, Insert(c, x, s, n - 1));
  }

  // ----- the leaf that replaces a node

  /** The child slot through which the rightmost leaf hangs. */
  ghost function LeafSlot(t: Trie): (slot: (Addr, bool))
    requires t.Node? && !IsLeaf(t)
    ensures slot.0 in Heads(t)
  {
    if t.right.Node? then if IsLeaf(t.right) then (t.head, true) else LeafSlot(t.right)
    else if IsLeaf(t.left) then (t.head, false) else LeafSlot(t.left)
  }

  ghost function CutMem(m: Nodes, t: Trie): Nodes
    requires t.Node? && !IsLeaf(t) && Links(m, t)
  {
    var (owner, right) := LeafSlot(t);
    HeadSize(m, t, owner);
    m[owner := SetChild(m[owner], right, 0)]
  }

  /** Clearing that slot lays out the trie without the leaf. */
  lemma {:induction false} CutLinks(m: Nodes, t: Trie, n: nat, p: nat)
    requires t.Node? && !IsLeaf(t) && Links(m, t) && TrieOk(t, n, p)
    ensures Links(CutMem(m, t), CutLeaf(t)) && CutLeaf(t).Node? && CutLeaf(t).head == t.head
    decreases t
  {
    NodeDisjoint(m, t, n, p);
    var m' := CutMem(m, t);
    var right := t.right.Node?;
    var c, o := if right then t.right else t.left, if right then t.left else t.right;
    forall a | a in Heads(o) ensures a in m {
      HeadSize(m, o, a);
    }
    if !IsLeaf(c) {
      CutLinks(m, c, n - 1, if right then 2 * p + 1 else 2 * p);
    }
    SetChildLinks(m, m', t, right, CutLeaf(c));
  }

  /** The leaf itself is left alone, and is no longer in the rest. */
  lemma {:induction false} CutHeads(m: Nodes, t: Trie, n: nat, p: nat)
    requires t.Node? && Links(m, t) && TrieOk(t, n, p)
    ensures Heads(CutLeaf(t)) == Heads(t) - {RightLeaf(t).head}
    ensures RightLeaf(t).head in Heads(t) && Links(m, RightLeaf(t))
    ensures !IsLeaf(t) ==> LeafSlot(t).0 != RightLeaf(t).head
    decreases t
  {
    NodeDisjoint(m, t, n, p);
    if t.right.Node? {
      CutHeads(m, t.right, n - 1, 2 * p + 1);
    } else if t.left.Node? {
      CutHeads(m, t.left, n - 1, 2 * p);
    }
  }

  // ----- a chunk taking the place of a tree node

  /** `r` takes over the children of `x` and the parent `xp`. */
  function Adopt(m: Nodes, x: Addr, r: Addr, xp: Parent): Nodes
    requires x in m && r in m
    requires m[x].child0 != 0 ==> m[x].child0 in m
    requires m[x].child1 != 0 ==> m[x].child1 in m
  {
    var c0, c1 := m[x].child0, m[x].child1;
    var a := m[r := m[r].(parent := xp)];
    var b := if c0 == 0 then a else AdoptChild(a, r, false, c0);
    if c1 == 0 then b else AdoptChild(b, r, true, c1)
  }

  /** `c` becomes a child of `r`. */
  function AdoptChild(m: Nodes, r: Addr, right: bool, c: Addr): Nodes
    requires r in m && c in m
  {
    var a := m[r := SetChild(m[r], right, c)];
    a[c := a[c].(parent := At(r))]
  }

  /** Only the root's parent pointer may change without disturbing a trie's layout. */
  lemma Reparent(m: Nodes, m': Nodes, t: Trie, par: Parent, n: nat, p: nat)
    requires t.Node? && Links(m, t) && TrieOk(t, n, p)
    requires t.head in m' && m'[t.head] == m[t.head].(parent := par)
    requires SameOn(m, m', Heads(t) - {t.head})
    ensures Links(m', t)
  {
    NodeDisjoint(m, t, n, p);
    LinksFrame(m, m', t.left);
    LinksFrame(m, m', t.right);
    assert t.left.Node? ==> t.left.head in Heads(t.left);
    assert t.right.Node? ==> t.right.head in Heads(t.right);
  }

  lemma AdoptEffect(m: Nodes, x: Addr, r: Addr, xp: Parent)
    requires x in m && r in m
    requires var c0, c1 := m[x].child0, m[x].child1;
             (c0 != 0 ==> c0 in m && c0 != r && c0 != c1) && (c1 != 0 ==> c1 in m && c1 != r)
    requires m[r].child0 == 0 && m[r].child1 == 0
    ensures var m', c0, c1 := Adopt(m, x, r, xp), m[x].child0, m[x].child1;
            && m'.Keys == m.Keys
            && m'[r] == m[r].(parent := xp, child0 := c0, child1 := c1)
            && (c0 != 0 ==> m'[c0] == m[c0].(parent := At(r)))
            && (c1 != 0 ==> m'[c1] == m[c1].(parent := At(r)))
            && (forall a :: a in m && a != r && a != c0 && a != c1 ==> m'[a] == m[a])
            && (forall a :: a in m ==> m'[a].size == m[a].size && m'[a].index == m[a].index)
  {
  }

  /** A subtree rooted at `r` whose parts are laid out, with `r` itself not yet linked in. */
  ghost predicate Adoptable(m: Nodes, x: Addr, nt: Trie, n: nat, p: nat) {
    && nt.Node? && TrieOk(nt, n, p) && nt.head != 0 && x != nt.head
    && x in m && m[x].child0 == Root(nt.left) && m[x].child1 == Root(nt.right)
    && nt.head in m && m[nt.head].size == nt.size && m[nt.head].child0 == 0 && m[nt.head].child1 == 0
    && Links(m, nt.left) && Links(m, nt.right)
  }

  lemma AdoptableHeads(m: Nodes, x: Addr, nt: Trie, n: nat, p: nat)
    requires Adoptable(m, x, nt, n, p)
    ensures nt.head !in Heads(nt.left) && nt.head !in Heads(nt.right) && Heads(nt.left) !! Heads(nt.right)
    ensures nt.left.Node? ==> nt.left.head in Heads(nt.left) && nt.left.head in m
    ensures nt.right.Node? ==> nt.right.head in Heads(nt.right) && nt.right.head in m
    ensures forall a :: a in Heads(nt) ==> a in m
  {
    NotHead(m, nt.left, nt.head);
    NotHead(m, nt.right, nt.head);
    SidesDisjoint(nt, n, p);
    forall a | a in Heads(nt.left) ensures a in m && a !in Heads(nt.right) {
      HeadSize(m, nt.left, a);
      NotHead(m, nt.right, a);
    }
    forall a | a in Heads(nt.right) ensures a in m {
      HeadSize(m, nt.right, a);
    }
  }

  /** Linking chunk `r` in, in place of `x`, completes the layout of the new subtree. */
  lemma AdoptLinks(m: Nodes, m': Nodes, x: Addr, xp: Parent, nt: Trie, n: nat, p: nat)
    requires Adoptable(m, x, nt, n, p)
    requires m[x].child0 != 0 ==> m[x].child0 in m
    requires m[x].child1 != 0 ==> m[x].child1 in m
    requires m' == Adopt(m, x, nt.head, xp)
    ensures Links(m', nt) && m'[nt.head].parent == xp && m'.Keys == m.Keys
    ensures forall a :: a in m && a !in Heads(nt) ==> m'[a] == m[a]
    ensures forall a :: a in m ==> m'[a].size == m[a].size && m'[a].index == m[a].index
  {
    AdoptableHeads(m, x, nt, n, p);
    AdoptEffect(m, x, nt.head, xp);
    if nt.left.Node? {
      Reparent(m, m', nt.left, At(nt.head), n - 1, 2 * p);
    }
    if nt.right.Node? {
      Reparent(m, m', nt.right, At(nt.head), n - 1, 2 * p + 1);
    }
  }

  // ----- replacing a subtree in place

  /** The child slot that held `from` now holds `to`. */
  function Redirect(c: TreeChunk, from: Addr, to: Addr): TreeChunk {
    if c.child0 == from then c.(child0 := to) else c.(child1 := to)
  }

  /** `m'` is `m` with the heads of `sub` rearranged into `sub'`, and its parent re-pointed. */
  ghost predicate Replaced(m: Nodes, m': Nodes, t: Trie, sub: Trie, sub': Trie) {
    && Links(m', sub') && sub.Node? && sub.head in m
    && (sub'.Node? ==> m'[sub'.head].parent == m[sub.head].parent)
    && (forall a :: a in Heads(t) && a !in Heads(sub) ==>
          && a in m && a in m'
          && m'[a] == if m[sub.head].parent == At(a) then Redirect(m[a], sub.head, Root(sub')) else m[a])
  }

  /** The walk towards size `s` ends at its node. */
  ghost predicate Reaches(t: Trie, s: nat, n: nat)
    decreases t
  {
    && t.Node?
    && (t.size != s ==> n > 0 && Apart(t) && Reaches(if GoesRight(s, n) then t.right else t.left, s, n - 1))
  }

  lemma {:induction false} ReachesHeld(m: Nodes, t: Trie, s: nat, n: nat, p: nat)
    requires Links(m, t) && TrieOk(t, n, p) && ShiftRight(s, n) == p && s in Sizes(t)
    ensures Reaches(t, s, n)
    decreases t
  {
    if t.size != s {
      Descend(t, n, p, s);
      NodeDisjoint(m, t, n, p);
      ReachesHeld(m, if GoesRight(s, n) then t.right else t.left, s, n - 1, if GoesRight(s, n) then 2 * p + 1 else 2 * p);
    }
  }

  /** Below the root, a node's parent pointer leads to a node of the same trie, outside its subtree. */
  lemma {:induction false} FindParent(m: Nodes, t: Trie, s: nat, n: nat)
    requires Links(m, t) && Reaches(t, s, n)
    ensures var sub := Find(t, s, n);
            && sub.Node? && sub.head in m && Heads(sub) <= Heads(t)
            && (t.size != s ==>
                  && m[sub.head].parent.At?
                  && m[sub.head].parent.addr in Heads(t)
                  && m[sub.head].parent.addr !in Heads(sub))
    decreases t
  {
    if t.size != s {
      StepTowards(t, s, n, Empty);
      FindParent(m, if GoesRight(s, n) then t.right else t.left, s, n - 1);
    }
  }

  /** The replaced subtree hangs right below the root of `t`. */
  lemma ReplaceChild(m: Nodes, m': Nodes, t: Trie, right: bool, sub': Trie)
    requires t.Node? && Links(m, t) && Apart(t)
    requires Replaced(m, m', t, if right then t.right else t.left, sub')
    ensures Links(m', if right then t.(right := sub') else t.(left := sub'))
    ensures t.head in m && t.head in m' && m'[t.head].parent == m[t.head].parent
  {
    var c, o := if right then t.right else t.left, if right then t.left else t.right;
    assert c.head in Heads(c) && (o.Node? ==> o.head in Heads(o));
    SetChildLinks(m, m', t, right, sub');
  }

  /** The replaced subtree lies deeper, so the root of `t` and its other side stay as they are. */
  lemma ReplaceDeeper(m: Nodes, m': Nodes, t: Trie, right: bool, sub: Trie, sub': Trie, c': Trie)
    requires t.Node? && Links(m, t) && Apart(t)
    requires var c := if right then t.right else t.left;
             && c.Node? && Heads(sub) <= Heads(c) && Replaced(m, m', t, sub, sub')
             && m[sub.head].parent.At? && m[sub.head].parent.addr in Heads(c)
             && c.head in m && c.head in m' && m'[c.head].parent == m[c.head].parent
             && Links(m', c') && Root(c') == c.head
    ensures Links(m', if right then t.(right := c') else t.(left := c'))
    ensures t.head in m && t.head in m' && m'[t.head].parent == m[t.head].parent
  {
    var c, o := if right then t.right else t.left, if right then t.left else t.right;
    assert c.head in Heads(c) && t.head in Heads(t);
    assert forall a :: a in Heads(o) ==> a in Heads(t) && a !in Heads(c);
    assert m'[t.head] == m[t.head];
    SetChildLinks(m, m', t, right, c');
  }

  lemma ReplacedBelow(m: Nodes, m': Nodes, t: Trie, c: Trie, sub: Trie, sub': Trie)
    requires Replaced(m, m', t, sub, sub') && Heads(c) <= Heads(t)
    ensures Replaced(m, m', c, sub, sub')
  {
  }

  /** Rearranging one subtree in place lays out the trie with that subtree replaced. */
  lemma {:induction false} ReplaceLinks(m: Nodes, m': Nodes, t: Trie, s: nat, n: nat, sub': Trie)
    requires Links(m, t) && Reaches(t, s, n)
    requires Replaced(m, m', t, Find(t, s, n), sub')
    ensures Links(m', ReplaceAt(t, s, n, sub'))
    ensures t.size != s ==>
              && t.head in m && t.head in m' && m'[t.head].parent == m[t.head].parent
              && Root(ReplaceAt(t, s, n, sub')) == t.head
    decreases t
  {
    if t.size != s {
      var right := GoesRight(s, n);
      var c := if right then t.right else t.left;
      StepTowards(t, s, n, sub');
      if c.size == s {
        ReplaceChild(m, m', t, right, sub');
      } else {
        FindParent(m, c, s, n - 1);
        ReplacedBelow(m, m', t, c, Find(c, s, n - 1), sub');
        ReplaceLinks(m, m', c, s, n - 1, sub');
        ReplaceDeeper(m, m', t, right, Find(c, s, n - 1), sub', ReplaceAt(c, s, n - 1, sub'));
      }
    }
  }
}
