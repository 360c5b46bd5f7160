/**
  The bitwise digital trees of the allocator's tree bins, as values.

  A node stands for one chunk size; `head` is the one chunk of that size that is linked into
  the tree. At a node with `n` open size bits, the next bit decides between the left and the
  right subtree, so every level fixes one more bit.
 */
module Tries {
  import opened Chunks
  import opened Words

  datatype Trie = Empty | Node(head: Addr, size: nat, left: Trie, right: Trie)

  function Sizes(t: Trie): set<nat> {
    match t
    case Empty => {}
    case Node(_, size, l, r) => {size} + Sizes(l) + Sizes(r)
  }

  function Heads(t: Trie): set<Addr> {
    match t
    case Empty => {}
    case Node(head, _, l, r) => {head} + Heads(l) + Heads(r)
  }

  function Height(t: Trie): nat {
    match t
    case Empty => 0
    case Node(_, _, l, r) => 1 + if Height(l) < Height(r) then Height(r) else Height(l)
  }

  /** All sizes in `t` have prefix `p` above their `n` low bits, each size once, split by the next bit. */
  ghost predicate TrieOk(t: Trie, n: nat, p: nat)
    decreases t
  {
    match t
    case Empty => true
    case Node(_, size, l, r) =>
      && ShiftRight(size, n) == p
      && size !in Sizes(l) && size !in Sizes(r)
      && if n == 0 then l.Empty? && r.Empty?
         else TrieOk(l, n - 1, 2 * p) && TrieOk(r, n - 1, 2 * p + 1)
  }

  // ----- what the invariant says about sizes

  lemma {:induction false} SizesHavePrefix(t: Trie, n: nat, p: nat, s: nat)
    requires TrieOk(t, n, p) && s in Sizes(t)
    ensures ShiftRight(s, n) == p
  {
    if s != t.size {
      ShiftRightStep(s, n - 1);
      if s in Sizes(t.left) {
        SizesHavePrefix(t.left, n - 1, 2 * p, s);
      } else {
        SizesHavePrefix(t.right, n - 1, 2 * p + 1, s);
      }
    }
  }

  /** Left subtree sizes are below right subtree sizes. */
  lemma LeftBelowRight(t: Trie, n: nat, p: nat, a: nat, b: nat)
    requires t.Node? && TrieOk(t, n, p) && a in Sizes(t.left) && b in Sizes(t.right)
    ensures a < b
  {
    SizesHavePrefix(t.left, n - 1, 2 * p, a);
    SizesHavePrefix(t.right, n - 1, 2 * p + 1, b);
    ShiftRightMono(a, b, n - 1);
  }

  /** Each level consumes a bit, so walks down a trie are bounded by the open bits. */
  lemma {:induction false} HeightBound(t: Trie, n: nat, p: nat)
    requires TrieOk(t, n, p)
    ensures Height(t) <= n + 1
  {
    if t.Node? && n > 0 {
      HeightBound(t.left, n - 1, 2 * p);
      HeightBound(t.right, n - 1, 2 * p + 1);
    }
  }

  /** The subtree a size belongs to, and its prefix there. */
  predicate GoesRight(s: nat, n: nat)
    requires n > 0
  {
    Marked(s, n - 1)
  }

  lemma ChildPrefix(s: nat, n: nat, p: nat)
    requires n > 0 && ShiftRight(s, n) == p
    ensures ShiftRight(s, n - 1) == if GoesRight(s, n) then 2 * p + 1 else 2 * p
  {
    ShiftRightStep(s, n - 1);
  }

  /** A size other than the node's, with the node's prefix, still has a bit to tell them apart. */
  lemma OpenBitLeft(t: Trie, n: nat, p: nat, s: nat)
    requires t.Node? && TrieOk(t, n, p) && ShiftRight(s, n) == p && s != t.size
    ensures n > 0
  {
  }

  /** The other subtree does not hold the size. */
  lemma NotInOther(t: Trie, n: nat, p: nat, s: nat)
    requires t.Node? && TrieOk(t, n, p) && ShiftRight(s, n) == p && n > 0
    ensures s !in Sizes(if GoesRight(s, n) then t.left else t.right)
  {
    ChildPrefix(s, n, p);
    if GoesRight(s, n) {
      if s in Sizes(t.left) { SizesHavePrefix(t.left, n - 1, 2 * p, s); }
    } else {
      if s in Sizes(t.right) { SizesHavePrefix(t.right, n - 1, 2 * p + 1, s); }
    }
  }

  /** One step of a walk towards size `s`: the bit that decides is still open, and only that side can hold `s`. */
  lemma Descend(t: Trie, n: nat, p: nat, s: nat)
    requires t.Node? && TrieOk(t, n, p) && ShiftRight(s, n) == p && t.size != s
    ensures n > 0
    ensures var right := GoesRight(s, n);
            var q := if right then 2 * p + 1 else 2 * p;
            && TrieOk(if right then t.right else t.left, n - 1, q) && ShiftRight(s, n - 1) == q
            && s !in Sizes(if right then t.left else t.right)
            && (s in Sizes(t) <==> s in Sizes(if right then t.right else t.left))
  {
    OpenBitLeft(t, n, p, s);
    ChildPrefix(s, n, p);
    NotInOther(t, n, p, s);
  }

  // ----- insertion

  function Insert(t: Trie, x: Addr, s: nat, n: nat): Trie
    decreases t
  {
    if t.Empty? then Node(x, s, Empty, Empty)
    else if t.size == s || n == 0 then t
    else if GoesRight(s, n) then t.(right := Insert(t.right, x, s, n - 1))
    else t.(left := Insert(t.left, x, s, n - 1))
  }

  lemma {:induction false} InsertOk(t: Trie, x: Addr, s: nat, n: nat, p: nat)
    requires TrieOk(t, n, p) && ShiftRight(s, n) == p
    ensures TrieOk(Insert(t, x, s, n), n, p)
    ensures Sizes(Insert(t, x, s, n)) == Sizes(t) + {s}
    ensures Insert(t, x, s, n).Node?
    decreases t
  {
    if t.Node? && t.size != s {
      Descend(t, n, p, s);
      if GoesRight(s, n) {
        InsertOk(t.right, x, s, n - 1, 2 * p + 1);
      } else {
        InsertOk(t.left, x, s, n - 1, 2 * p);
      }
    }
  }

  // ----- the node of a size, and replacing it

  /** The subtree whose root has size `s`; `Empty` if the trie does not hold `s`. */
  function Find(t: Trie, s: nat, n: nat): Trie
    decreases t
  {
    if t.Empty? || t.size == s then t
    else if n == 0 then Empty
    else Find(if GoesRight(s, n) then t.right else t.left, s, n - 1)
  }

  /** `t` with the subtree at `s` replaced. */
  function ReplaceAt(t: Trie, s: nat, n: nat, sub: Trie): Trie
    decreases t
  {
    if t.Empty? || t.size == s then sub
    else if n == 0 then t
    else if GoesRight(s, n) then t.(right := ReplaceAt(t.right, s, n - 1, sub))
    else t.(left := ReplaceAt(t.left, s, n - 1, sub))
  }

  /** Away from the node of `s`, looking up and replacing just move on to one child. */
  lemma StepTowards(t: Trie, s: nat, n: nat, sub: Trie)
    requires t.Node? && t.size != s && n > 0
    ensures var right := GoesRight(s, n);
            var c := if right then t.right else t.left;
            var c' := ReplaceAt(c, s, n - 1, sub);
            && Find(t, s, n) == Find(c, s, n - 1)
            && DepthBits(t, s, n) == DepthBits(c, s, n - 1)
            && ReplaceAt(t, s, n, sub) == if right then t.(right := c') else t.(left := c')
  {
  }

  /** The open bits left at the node of size `s`. */
  function DepthBits(t: Trie, s: nat, n: nat): nat
    decreases t
  {
    if t.Empty? || t.size == s || n == 0 then n
    else DepthBits(if GoesRight(s, n) then t.right else t.left, s, n - 1)
  }

  lemma {:induction false} FindOk(t: Trie, s: nat, n: nat, p: nat)
    requires TrieOk(t, n, p) && ShiftRight(s, n) == p
    ensures Find(t, s, n).Node? <==> s in Sizes(t)
    ensures Find(t, s, n).Node? ==> Find(t, s, n).size == s
    ensures var m := DepthBits(t, s, n);
            TrieOk(Find(t, s, n), m, ShiftRight(s, m))
    ensures Heads(Find(t, s, n)) <= Heads(t) && Sizes(Find(t, s, n)) <= Sizes(t)
    decreases t
  {
    if t.Node? && t.size != s {
      Descend(t, n, p, s);
      if GoesRight(s, n) {
        FindOk(t.right, s, n - 1, 2 * p + 1);
      } else {
        FindOk(t.left, s, n - 1, 2 * p);
      }
    }
  }

  /** Replacing the node of `s` by a subtree with the same sizes, or all but `s`, keeps the invariant. */
  lemma {:induction false} ReplaceOk(t: Trie, s: nat, n: nat, p: nat, sub: Trie, gone: set<nat>)
    requires TrieOk(t, n, p) && ShiftRight(s, n) == p && s in Sizes(t)
    requires var m := DepthBits(t, s, n); TrieOk(sub, m, ShiftRight(s, m))
    requires gone <= {s} && Sizes(sub) == Sizes(Find(t, s, n)) - gone
    ensures TrieOk(ReplaceAt(t, s, n, sub), n, p)
    ensures Sizes(ReplaceAt(t, s, n, sub)) == Sizes(t) - gone
    decreases t
  {
    if t.size != s {
      Descend(t, n, p, s);
      if GoesRight(s, n) {
        ReplaceOk(t.right, s, n - 1, 2 * p + 1, sub, gone);
      } else {
        ReplaceOk(t.left, s, n - 1, 2 * p, sub, gone);
      }
    }
  }

  lemma SidesDisjoint(t: Trie, n: nat, p: nat)
    requires t.Node? && TrieOk(t, n, p)
    ensures Sizes(t.left) !! Sizes(t.right)
  {
    forall a | a in Sizes(t.left) && a in Sizes(t.right) ensures false {
      LeftBelowRight(t, n, p, a, a);
    }
  }

  // ----- removal

  predicate IsLeaf(t: Trie) {
    t.Node? && t.left.Empty? && t.right.Empty?
  }

  /** The rightmost descendant that is a leaf. */
  function RightLeaf(t: Trie): (r: Trie)
    requires t.Node?
    ensures IsLeaf(r)
  {
    if t.right.Node? then RightLeaf(t.right)
    else if t.left.Node? then RightLeaf(t.left)
    else t
  }

  /** `t` without that leaf. */
  function CutLeaf(t: Trie): Trie
    requires t.Node?
  {
    if t.right.Node? then t.(right := CutLeaf(t.right))
    else if t.left.Node? then t.(left := CutLeaf(t.left))
    else Empty
  }

  lemma {:induction false} CutLeafOk(t: Trie, n: nat, p: nat)
    requires t.Node? && TrieOk(t, n, p)
    ensures TrieOk(CutLeaf(t), n, p)
    ensures RightLeaf(t).size in Sizes(t)
    ensures Sizes(CutLeaf(t)) == Sizes(t) - {RightLeaf(t).size}
  {
    if t.right.Node? {
      CutLeafOk(t.right, n - 1, 2 * p + 1);
      SidesDisjoint(t, n, p);
    } else if t.left.Node? {
      CutLeafOk(t.left, n - 1, 2 * p);
    }
  }

  /** Remove the last chunk of a node's size: a leaf below takes the node's place. */
  function DropNode(t: Trie): Trie
    requires t.Node?
  {
    if IsLeaf(t) then Empty
    else
      var c := CutLeaf(t);
      Node(RightLeaf(t).head, RightLeaf(t).size, c.left, c.right)
  }

  lemma DropNodeOk(t: Trie, n: nat, p: nat)
    requires t.Node? && TrieOk(t, n, p)
    ensures TrieOk(DropNode(t), n, p)
    ensures Sizes(DropNode(t)) == Sizes(t) - {t.size}
  {
    if !IsLeaf(t) {
      var c, leaf := CutLeaf(t), RightLeaf(t).size;
      CutLeafOk(t, n, p);
      SizesHavePrefix(t, n, p, leaf);
      RightLeafBelow(t);
      assert Sizes(c) == {t.size} + Sizes(c.left) + Sizes(c.right);
      assert Sizes(c.left) + Sizes(c.right) == Sizes(t) - {leaf} - {t.size};
      assert leaf in Sizes(t) - {t.size};
      var rest := Sizes(c.left) + Sizes(c.right);
      assert {leaf} + rest == Sizes(t) - {t.size};
      assert {leaf} + Sizes(c.left) + Sizes(c.right) == {leaf} + rest;
    }
  }

  lemma RightLeafBelow(t: Trie)
    requires t.Node? && !IsLeaf(t)
    ensures RightLeaf(t).size in Sizes(t.left) + Sizes(t.right)
  {
    if t.right.Node? {
      RightLeafIn(t.right);
    } else {
      RightLeafIn(t.left);
    }
  }

  lemma {:induction false} RightLeafIn(t: Trie)
    requires t.Node?
    ensures RightLeaf(t).size in Sizes(t)
    ensures RightLeaf(t).head in Heads(t)
  {
    if t.right.Node? {
      RightLeafIn(t.right);
    } else if t.left.Node? {
      RightLeafIn(t.left);
    }
  }

  // ----- the smallest size

  /** The subtree that leftmost_child steps to. */
  function Leftmost(t: Trie): Trie
    requires t.Node?
  {
    if t.left.Node? then t.left else t.right
  }

  /** The least size on the path that keeps to the left. */
  function LeftMin(t: Trie): nat
    requires t.Node?
  {
    var c := Leftmost(t);
    if c.Node? && LeftMin(c) < t.size then LeftMin(c) else t.size
  }

  /** That path holds the smallest size of the whole trie. */
  lemma {:induction false} LeftMinIsLeast(t: Trie, n: nat, p: nat, s: nat)
    requires t.Node? && TrieOk(t, n, p) && s in Sizes(t)
    ensures LeftMin(t) <= s && LeftMin(t) in Sizes(t)
  {
    if t.left.Node? {
      LeftMinIsLeast(t.left, n - 1, 2 * p, t.left.size);
      if s in Sizes(t.left) {
        LeftMinIsLeast(t.left, n - 1, 2 * p, s);
      } else if s in Sizes(t.right) {
        LeftBelowRight(t, n, p, LeftMin(t.left), s);
      }
    } else if t.right.Node? {
      LeftMinIsLeast(t.right, n - 1, 2 * p + 1, t.right.size);
      if s in Sizes(t.right) {
        LeftMinIsLeast(t.right, n - 1, 2 * p + 1, s);
      }
    }
  }
}
