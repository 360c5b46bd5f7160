/**
  The last step of unlink_large_chunk: chunk `x` leaves the tree and `r` (0 for none) takes its place.
 */
module TrieRelink {
  import opened Chunks
  import opened Tries
  import opened TrieLinks
  import opened Words

  /** The pointers that Relink follows lead to tree chunks. */
  predicate CanRelink(m: Nodes, x: Addr, r: Addr) {
    && x in m && x != r
    && (m[x].parent.At? ==> m[x].parent.addr in m && m[x].parent.addr != x)
    && (r != 0 ==>
          && r in m
          && (m[x].child0 != 0 ==> m[x].child0 in m)
          && (m[x].child1 != 0 ==> m[x].child1 in m))
  }

  /** The node above `x` is re-pointed to `r`. */
  function PointToNew(m: Nodes, x: Addr, r: Addr): (m': Nodes)
    requires CanRelink(m, x, r)
    ensures m'.Keys == m.Keys && (m[x].parent.At? ==> m'[x] == m[x])
  {
    if m[x].parent.At? then m[m[x].parent.addr := Redirect(m[m[x].parent.addr], x, r)] else m
  }

  function Relink(m: Nodes, x: Addr, r: Addr): Nodes
    requires CanRelink(m, x, r)
  {
    var m1 := PointToNew(m, x, r);
    (if r == 0 then m1 else Adopt(m1, x, r, m[x].parent)) - {x}
  }

  /** What is known before relinking: subtree `sub` of `t`, rooted at `x`, is to become `sub'`. */
  ghost predicate Prepared(m0: Nodes, m: Nodes, t: Trie, sub: Trie, sub': Trie, n: nat, p: nat) {
    && Links(m0, t) && Links(m0, sub) && sub.Node? && Heads(sub) <= Heads(t)
    && m.Keys == m0.Keys && (forall a :: a in m0 && a !in Heads(sub) ==> m[a] == m0[a])
    && (forall a :: a in m0 ==> m[a].size == m0[a].size && m[a].index == m0[a].index)
    && sub.head in m0 && m[sub.head].parent == m0[sub.head].parent
    && (m0[sub.head].parent.At? ==>
          m0[sub.head].parent.addr in Heads(t) && m0[sub.head].parent.addr !in Heads(sub))
    && (sub'.Node? ==> Adoptable(m, sub.head, sub', n, p))
    && (forall a :: a in Heads(sub') ==> a != sub.head && (a in Heads(sub) || a !in Heads(t)))
  }

  lemma PreparedCanRelink(m0: Nodes, m: Nodes, t: Trie, sub: Trie, sub': Trie, n: nat, p: nat)
    requires Prepared(m0, m, t, sub, sub', n, p)
    ensures CanRelink(m, sub.head, Root(sub'))
  {
    var x := sub.head;
    assert x in Heads(sub);
    if m0[x].parent.At? {
      HeadSize(m0, t, m0[x].parent.addr);
    }
    if sub'.Node? {
      AdoptableHeads(m, x, sub', n, p);
    }
  }

  /** The re-pointed parent is outside the subtree, so the parts of `sub'` are still laid out. */
  lemma PointKeepsAdoptable(m0: Nodes, m: Nodes, t: Trie, sub: Trie, sub': Trie, n: nat, p: nat)
    requires Prepared(m0, m, t, sub, sub', n, p) && sub'.Node? && CanRelink(m, sub.head, sub'.head)
    ensures Adoptable(PointToNew(m, sub.head, sub'.head), sub.head, sub', n, p)
  {
    var m1 := PointToNew(m, sub.head, sub'.head);
    AdoptableHeads(m, sub.head, sub', n, p);
    assert forall a :: a in Heads(sub') ==> m1[a] == m[a];
    LinksFrame(m, m1, sub'.left);
    LinksFrame(m, m1, sub'.right);
    assert sub.head in Heads(sub);
  }

  lemma RelinkedSubtree(m0: Nodes, m: Nodes, t: Trie, sub: Trie, sub': Trie, n: nat, p: nat)
    requires Prepared(m0, m, t, sub, sub', n, p) && CanRelink(m, sub.head, Root(sub'))
    ensures var m' := Relink(m, sub.head, Root(sub'));
            && Links(m', sub') && (sub'.Node? ==> m'[sub'.head].parent == m0[sub.head].parent)
            && m'.Keys == m0.Keys - {sub.head}
            && (forall a :: a in m' ==> m'[a].size == m0[a].size && m'[a].index == m0[a].index)
            && (forall a :: a in m' && a !in Heads(sub') ==> m'[a] == PointToNew(m, sub.head, Root(sub'))[a])
  {
    var x, r := sub.head, Root(sub');
    var m1 := PointToNew(m, x, r);
    if sub'.Node? {
      PointKeepsAdoptable(m0, m, t, sub, sub', n, p);
      AdoptLinks(m1, Adopt(m1, x, r, m[x].parent), x, m[x].parent, sub', n, p);
      AdoptableHeads(m, x, sub', n, p);
      LinksFrame(Adopt(m1, x, r, m[x].parent), Relink(m, x, r), sub');
      assert r in Heads(sub');
    }
  }

  /** Relinking replaces the subtree in place. */
  lemma RelinkReplaces(m0: Nodes, m: Nodes, t: Trie, sub: Trie, sub': Trie, n: nat, p: nat)
    requires Prepared(m0, m, t, sub, sub', n, p) && CanRelink(m, sub.head, Root(sub'))
    ensures Replaced(m0, Relink(m, sub.head, Root(sub')), t, sub, sub')
  {
    RelinkedSubtree(m0, m, t, sub, sub', n, p);
    var m' := Relink(m, sub.head, Root(sub'));
    forall a | a in Heads(t) && a !in Heads(sub) ensures
      && a in m0 && a in m'
      && m'[a] == if m0[sub.head].parent == At(a) then Redirect(m0[a], sub.head, Root(sub')) else m0[a]
    {
      HeadSize(m0, t, a);
      assert sub.head in Heads(sub);
    }
  }
}
