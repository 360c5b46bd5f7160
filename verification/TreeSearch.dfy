/**
  The best-fit search of tmalloc_large: one path towards the requested size, then one leftmost path.
 */
module TreeSearch {
  import opened Chunks
  import opened TreeBinState
  import opened TreeIndex
  import opened TrieLinks
  import opened Tries
  import opened Words

  const SIGN: nat := 0x8000_0000

  /** `size - nb` as the unsigned difference the code computes. */
  function Excess(size: nat, nb: nat): nat
    requires size < WORD && nb < WORD
  {
    (size + WORD - nb) % WORD
  }

  /** The best chunk so far, if any, and how much larger than the request it is. */
  ghost predicate Best(st: State, nb: nat, v: Addr, rsize: nat) {
    if v == 0 then rsize == WORD - nb
    else v in st.node && nb <= st.node[v].size && rsize == st.node[v].size - nb
  }

  /** The best chunk so far is at most `z`. */
  ghost predicate AtMost(st: State, v: Addr, z: nat) {
    v != 0 && v in st.node && st.node[v].size <= z
  }

  /** Looking at chunk `t`: it becomes the best one exactly when it fits and is smaller. */
  lemma Consider(st: State, nb: nat, v: Addr, rsize: nat, t: Addr)
    requires Best(st, nb, v, rsize) && 0 < nb < WORD && t != 0 && t in st.node && 0 < st.node[t].size < WORD
    requires v != 0 ==> st.node[v].size < WORD
    ensures var trem := Excess(st.node[t].size, nb);
            var v', rsize' := if trem < rsize then t else v, if trem < rsize then trem else rsize;
            && Best(st, nb, v', rsize')
            && (st.node[t].size >= nb ==> AtMost(st, v', st.node[t].size))
            && (forall z :: AtMost(st, v, z) ==> AtMost(st, v', z))
            && (v' == v || v' == t)
            && (rsize' == 0 <==> v' != 0 && st.node[v'].size == nb)
  {
    var size := st.node[t].size;
    if size >= nb {
      assert Excess(size, nb) == size - nb;
    } else {
      assert Excess(size, nb) == size + WORD - nb;
    }
  }

  // ----- the path towards the requested size

  /** The sign of the key word is the next size bit; shifting it brings up the one after. */
  lemma KeyStep(s: nat, k: nat, n: nat)
    requires s < WORD && 0 < n <= 32 && k == ShiftLeft(s, 32 - n)
    ensures k >= SIGN <==> GoesRight(s, n)
    ensures (2 * k) % WORD == ShiftLeft(s, 32 - (n - 1))
  {
    SignOfShift(s, 32 - n);
    assert 32 - (n - 1) - 1 == 32 - n;
  }

  /** All sizes that fit are among those still ahead, or no better than what has been found. */
  ghost predicate Covered(st: State, nb: nat, t: Trie, sub: Trie, v: Addr, rsub: Trie) {
    forall z :: z in Sizes(t) && z >= nb ==>
      z in Sizes(sub) || AtMost(st, v, z) || (rsub.Node? && LeftMin(rsub) <= z)
  }

  /** `rsub` is the deepest untaken right subtree: it fits, and lies above everything on the path. */
  ghost predicate Untaken(t: Trie, sub: Trie, rsub: Trie, nb: nat, rn: nat, rp: nat) {
    && TrieOk(rsub, rn, rp) && Sizes(rsub) <= Sizes(t)
    && (forall z :: z in Sizes(rsub) ==> z > nb)
    && (forall y, z :: y in Sizes(sub) && z in Sizes(rsub) ==> y < z)
  }

  ghost predicate Seeking(st: State, nb: nat, t: Trie, sub: Trie, n: nat, p: nat, k: nat,
                          v: Addr, rsize: nat, rsub: Trie, rn: nat, rp: nat)
    requires nb < WORD
  {
    && n <= 32 && sub.Node? && Links(st.node, sub) && TrieOk(sub, n, p) && Sizes(sub) <= Sizes(t)
    && ShiftRight(nb, n) == p && k == ShiftLeft(nb, 32 - n)
    && Links(st.node, rsub) && Untaken(t, sub, rsub, nb, rn, rp)
    && Best(st, nb, v, rsize) && (v != 0 ==> st.node[v].size in Sizes(t))
    && Covered(st, nb, t, sub, v, rsub)
  }

  /** Going right: everything on the left is too small. */
  lemma TooSmall(t: Trie, n: nat, p: nat, nb: nat, z: nat)
    requires t.Node? && n > 0 && TrieOk(t, n, p) && ShiftRight(nb, n) == p && GoesRight(nb, n) && z in Sizes(t.left)
    ensures z < nb
  {
    ChildPrefix(nb, n, p);
    SizesHavePrefix(t.left, n - 1, 2 * p, z);
    ShiftRightMono(z, nb, n - 1);
  }

  /** Going left: everything on the right fits. */
  lemma LargeEnough(t: Trie, n: nat, p: nat, nb: nat, z: nat)
    requires t.Node? && n > 0 && TrieOk(t, n, p) && ShiftRight(nb, n) == p && !GoesRight(nb, n) && z in Sizes(t.right)
    ensures z > nb
  {
    ChildPrefix(nb, n, p);
    SizesHavePrefix(t.right, n - 1, 2 * p + 1, z);
    ShiftRightMono(nb, z, n - 1);
  }

  lemma StepRight(st: State, nb: nat, t: Trie, sub: Trie, n: nat, p: nat, v: Addr, v': Addr, rsub: Trie)
    requires sub.Node? && n > 0 && TrieOk(sub, n, p) && ShiftRight(nb, n) == p && GoesRight(nb, n)
    requires Covered(st, nb, t, sub, v, rsub)
    requires forall z :: AtMost(st, v, z) ==> AtMost(st, v', z)
    requires sub.size >= nb ==> AtMost(st, v', sub.size)
    ensures Covered(st, nb, t, sub.right, v', rsub)
  {
    forall z | z in Sizes(t) && z >= nb
      ensures z in Sizes(sub.right) || AtMost(st, v', z) || (rsub.Node? && LeftMin(rsub) <= z)
    {
      if z in Sizes(sub.left) {
        TooSmall(sub, n, p, nb, z);
      }
    }
  }

  lemma StepLeft(st: State, nb: nat, t: Trie, sub: Trie, n: nat, p: nat, v: Addr, v': Addr, rsub: Trie, rn: nat, rp: nat)
    requires sub.Node? && n > 0 && TrieOk(sub, n, p) && sub.right.Node?
    requires Covered(st, nb, t, sub, v, rsub) && Untaken(t, sub, rsub, nb, rn, rp)
    requires forall z :: AtMost(st, v, z) ==> AtMost(st, v', z)
    requires sub.size >= nb ==> AtMost(st, v', sub.size)
    ensures Covered(st, nb, t, sub.left, v', sub.right)
  {
    BelowUntaken(t, sub, n, p, rsub, nb, rn, rp);
    var m := LeftMin(sub.right);
    forall z | z in Sizes(sub.right) ensures m <= z {
      LeftMinIsLeast(sub.right, n - 1, 2 * p + 1, z);
    }
    CoverLeft(st, nb, t, sub, v, v', rsub, m);
  }

  lemma BelowUntaken(t: Trie, sub: Trie, n: nat, p: nat, rsub: Trie, nb: nat, rn: nat, rp: nat)
    requires sub.Node? && n > 0 && TrieOk(sub, n, p) && sub.right.Node? && Untaken(t, sub, rsub, nb, rn, rp)
    ensures rsub.Node? ==> LeftMin(sub.right) < LeftMin(rsub)
  {
    LeftMinIsLeast(sub.right, n - 1, 2 * p + 1, sub.right.size);
    if rsub.Node? {
      LeftMinIsLeast(rsub, rn, rp, rsub.size);
      assert LeftMin(sub.right) in Sizes(sub) && LeftMin(rsub) in Sizes(rsub);
    }
  }

  lemma CoverLeft(st: State, nb: nat, t: Trie, sub: Trie, v: Addr, v': Addr, rsub: Trie, m: nat)
    requires sub.Node? && sub.right.Node? && m == LeftMin(sub.right) && Covered(st, nb, t, sub, v, rsub)
    requires rsub.Node? ==> m < LeftMin(rsub)
    requires forall z :: z in Sizes(sub.right) ==> m <= z
    requires forall z :: AtMost(st, v, z) ==> AtMost(st, v', z)
    requires sub.size >= nb ==> AtMost(st, v', sub.size)
    ensures Covered(st, nb, t, sub.left, v', sub.right)
  {
  }

  lemma StepLeftUntaken(nb: nat, t: Trie, sub: Trie, n: nat, p: nat)
    requires sub.Node? && n > 0 && TrieOk(sub, n, p) && Sizes(sub) <= Sizes(t)
    requires ShiftRight(nb, n) == p && !GoesRight(nb, n)
    ensures Untaken(t, sub.left, sub.right, nb, n - 1, 2 * p + 1)
  {
    forall z | z in Sizes(sub.right) ensures z > nb {
      LargeEnough(sub, n, p, nb, z);
    }
    forall y, z | y in Sizes(sub.left) && z in Sizes(sub.right) ensures y < z {
      LeftBelowRight(sub, n, p, y, z);
    }
  }

  lemma StepLeftOnly(st: State, nb: nat, t: Trie, sub: Trie, v: Addr, v': Addr, rsub: Trie)
    requires sub.Node? && sub.right.Empty? && Covered(st, nb, t, sub, v, rsub)
    requires forall z :: AtMost(st, v, z) ==> AtMost(st, v', z)
    requires sub.size >= nb ==> AtMost(st, v', sub.size)
    ensures Covered(st, nb, t, sub.left, v', rsub)
  {
    forall z | z in Sizes(t) && z >= nb
      ensures z in Sizes(sub.left) || AtMost(st, v', z) || (rsub.Node? && LeftMin(rsub) <= z)
    {
      assert Sizes(sub.right) == {};
      assert z in Sizes(sub) ==> z == sub.size || z in Sizes(sub.left);
    }
  }

  /** One node of the path has been looked at: `v'` and `rsize'` are the best so far. */
  ghost predicate Looked(st: State, nb: nat, t: Trie, sub: Trie, v: Addr, v': Addr, rsize': nat) {
    && Best(st, nb, v', rsize') && (v' != 0 ==> st.node[v'].size in Sizes(t))
    && (forall z :: AtMost(st, v, z) ==> AtMost(st, v', z))
    && (sub.Node? && sub.size >= nb ==> AtMost(st, v', sub.size))
  }

  // ----- the leftmost path

  /** The rest of the search: `sub` is what the leftmost walk still has ahead. */
  ghost predicate Finishing(st: State, nb: nat, sub: Trie, v: Addr, rsize: nat) {
    && Links(st.node, sub) && Best(st, nb, v, rsize)
    && ((v != 0 && st.node[v].size == nb) || (forall z :: z in Sizes(sub) ==> z >= nb))
    && (forall z :: z in st.home && z >= nb ==> AtMost(st, v, z) || (sub.Node? && LeftMin(sub) <= z))
  }

  lemma FinishStep(st: State, nb: nat, sub: Trie, v: Addr, rsize: nat, v': Addr, rsize': nat)
    requires Finishing(st, nb, sub, v, rsize) && sub.Node? && Best(st, nb, v', rsize')
    requires forall z :: AtMost(st, v, z) ==> AtMost(st, v', z)
    requires sub.size >= nb ==> AtMost(st, v', sub.size)
    ensures Finishing(st, nb, Leftmost(sub), v', rsize')
  {
    var c := Leftmost(sub);
    if v != 0 && st.node[v].size == nb {
      assert AtMost(st, v, nb);
      assert AtMost(st, v', nb);
    } else {
      assert sub.size in Sizes(sub);
      assert Sizes(c) <= Sizes(sub);
      forall z | z in st.home && z >= nb ensures AtMost(st, v', z) || (c.Node? && LeftMin(c) <= z) {
        if !AtMost(st, v, z) {
          assert LeftMin(sub) <= z;
        }
      }
    }
  }

  /** Every recorded size lies in its bin's interval, and its bin's trie holds it. */
  lemma SizePlace(st: State, treemap: nat, z: nat)
    requires AllOk(st, treemap) && z in st.home
    ensures st.home[z] < NTREEBINS && InBin(z, st.home[z]) && z in Sizes(st.tries[st.home[z]]) && MIN_LARGE_SIZE <= z < WORD
  {
    assert SizeHome(st.home, z) && HomeAt(st, z);
    IndexInterval(z);
  }

  /** When bin `idx` holds a chunk that fits, the leftmost walk can finish there: later bins hold only larger ones. */
  lemma FinishHere(st: State, treemap: nat, nb: nat, idx: nat, v: Addr, rsize: nat, sub: Trie, n: nat, p: nat)
    requires AllOk(st, treemap) && idx < NTREEBINS && InBin(nb, idx)
    requires Best(st, nb, v, rsize) && (v != 0 ==> st.node[v].size in Sizes(st.tries[idx]))
    requires Links(st.node, sub) && TrieOk(sub, n, p) && Sizes(sub) <= Sizes(st.tries[idx])
    requires (v != 0 && st.node[v].size == nb) || (forall z :: z in Sizes(sub) ==> z >= nb)
    requires forall z :: z in Sizes(st.tries[idx]) && z >= nb ==> AtMost(st, v, z) || (sub.Node? && LeftMin(sub) <= z)
    requires v != 0 || sub.Node?
    ensures Finishing(st, nb, sub, v, rsize)
  {
    if sub.Node? {
      LeftMinIsLeast(sub, n, p, sub.size);
    }
    var y := if v != 0 then st.node[v].size else LeftMin(sub);
    forall z | z in st.home && z >= nb ensures AtMost(st, v, z) || (sub.Node? && LeftMin(sub) <= z) {
      SizeElsewhere(st, treemap, nb, idx, y, z);
    }
  }

  /** A fitting size of another bin is larger than any size of the request's own bin. */
  lemma SizeElsewhere(st: State, treemap: nat, nb: nat, idx: nat, y: nat, z: nat)
    requires AllOk(st, treemap) && idx < NTREEBINS && InBin(nb, idx) && y in Sizes(st.tries[idx]) && z in st.home && z >= nb
    ensures z in Sizes(st.tries[idx]) || y <= z
  {
    assert BinOk(st, idx);
    SizePlace(st, treemap, z);
    SizePlace(st, treemap, y);
    var j := st.home[z];
    if j < idx {
      LaterBinsAreLarger(z, j, nb, idx);
    } else if idx < j {
      LaterBinsAreLarger(y, idx, z, j);
    }
  }

  /** When bin `idx` has nothing that fits, the smallest fit is the smallest chunk of the next non-empty bin. */
  lemma FinishLater(st: State, treemap: nat, nb: nat, idx: nat, i: nat)
    requires AllOk(st, treemap) && idx < NTREEBINS && InBin(nb, idx) && nb < WORD
    requires forall z :: z in Sizes(st.tries[idx]) ==> z < nb
    requires idx < i < NTREEBINS && i in st.marks && forall j: nat :: idx < j < i ==> j !in st.marks
    ensures st.tries[i].Node? && Finishing(st, nb, st.tries[i], 0, WORD - nb)
  {
    assert BinOk(st, i);
    var t := st.tries[i];
    LeftMinIsLeast(t, OpenBits(i), Prefix(i), t.size);
    forall z | z in Sizes(t) ensures z >= nb {
      SizePlace(st, treemap, z);
      LaterBinsAreLarger(nb, idx, z, i);
    }
    forall z | z in st.home && z >= nb ensures LeftMin(t) <= z {
      SizePlace(st, treemap, z);
      var j := st.home[z];
      assert BinOk(st, j);
      if j < idx {
        LaterBinsAreLarger(z, j, nb, idx);
      } else if j == i {
        LeftMinIsLeast(t, OpenBits(i), Prefix(i), z);
      } else if i < j {
        SizePlace(st, treemap, LeftMin(t));
        LaterBinsAreLarger(LeftMin(t), i, z, j);
      }
    }
  }

  /** Every binned chunk fits a small request, so its best fit is the smallest chunk of the first non-empty bin. */
  lemma FinishFirst(st: State, treemap: nat, nb: nat, i: nat)
    requires AllOk(st, treemap) && nb < MIN_LARGE_SIZE
    requires i < NTREEBINS && i in st.marks && forall j: nat :: j < i ==> j !in st.marks
    ensures st.tries[i].Node? && Finishing(st, nb, st.tries[i], 0, WORD - nb)
  {
    assert BinOk(st, i);
    var t := st.tries[i];
    LeftMinIsLeast(t, OpenBits(i), Prefix(i), t.size);
    forall z | z in Sizes(t) ensures z >= nb {
      SizePlace(st, treemap, z);
    }
    forall z | z in st.home && z >= nb ensures LeftMin(t) <= z {
      SizePlace(st, treemap, z);
      var j := st.home[z];
      assert BinOk(st, j);
      if j == i {
        LeftMinIsLeast(t, OpenBits(i), Prefix(i), z);
      } else {
        SizePlace(st, treemap, LeftMin(t));
        LaterBinsAreLarger(LeftMin(t), i, z, j);
      }
    }
  }

  lemma NoneLater(st: State, treemap: nat, nb: nat, idx: nat)
    requires AllOk(st, treemap) && idx < NTREEBINS && InBin(nb, idx) && nb < WORD
    requires forall z :: z in Sizes(st.tries[idx]) ==> z < nb
    requires forall j: nat :: idx < j < NTREEBINS ==> j !in st.marks
    ensures Finishing(st, nb, Empty, 0, WORD - nb)
  {
    forall z | z in st.home && z >= nb ensures false {
      SizePlace(st, treemap, z);
      assert BinOk(st, st.home[z]);
      if st.home[z] < idx {
        LaterBinsAreLarger(z, st.home[z], nb, idx);
      }
    }
  }

  /** A size is that of some binned chunk exactly when it is recorded. */
  lemma SizeOfChunk(st: State, treemap: nat, a: Addr)
    requires AllOk(st, treemap) && a in st.node
    ensures st.node[a].size in st.home && MIN_LARGE_SIZE <= st.node[a].size < WORD
  {
    assert ChunkOk(st, a) && SizeHome(st.home, st.node[a].size);
  }

  /** Where the walk towards the requested size stands. */
  datatype Path = Path(sub: Trie, n: nat, p: nat, k: nat, rsub: Trie, rn: nat, rp: nat)

  ghost predicate On(st: State, nb: nat, idx: nat, h: Path, v: Addr, rsize: nat) {
    && nb < WORD && idx < |st.tries|
    && Seeking(st, nb, st.tries[idx], h.sub, h.n, h.p, h.k, v, rsize, h.rsub, h.rn, h.rp)
  }

  ghost function NextPath(h: Path): Path
    requires h.sub.Node? && h.n > 0
  {
    var right := h.k >= SIGN;
    var taken := right || h.sub.right.Empty?;
    Path(if right then h.sub.right else h.sub.left, h.n - 1, if right then 2 * h.p + 1 else 2 * h.p, (2 * h.k) % WORD,
         if taken then h.rsub else h.sub.right, if taken then h.rn else h.n - 1, if taken then h.rp else 2 * h.p + 1)
  }

  lemma SeekStart(st: State, treemap: nat, nb: nat, idx: nat)
    requires AllOk(st, treemap) && MIN_LARGE_SIZE <= nb < WORD && idx < NTREEBINS && InBin(nb, idx)
    requires ShiftRight(nb, OpenBits(idx)) == Prefix(idx) && LeftShift(idx) == 32 - OpenBits(idx) && st.bins[idx] != 0
    ensures var h := Path(st.tries[idx], OpenBits(idx), Prefix(idx), ShiftLeft(nb, LeftShift(idx)), Empty, 0, 0);
            h.sub.Node? && h.sub.head == st.bins[idx] && On(st, nb, idx, h, 0, WORD - nb)
  {
    assert BinOk(st, idx);
    assert Sizes(Empty) == {} && Links(st.node, Empty) && TrieOk(Empty, 0, 0);
  }

  /** What holds after a step, whether or not the walk can go on. */
  ghost predicate Ahead(st: State, nb: nat, t: Trie, h: Path, v: Addr) {
    && Links(st.node, h.rsub) && TrieOk(h.rsub, h.rn, h.rp) && Sizes(h.rsub) <= Sizes(t)
    && (forall z :: z in Sizes(h.rsub) ==> z > nb)
    && Covered(st, nb, t, h.sub, v, h.rsub)
  }

  lemma SeekRight(st: State, nb: nat, idx: nat, h: Path, v: Addr, rsize: nat, v': Addr, rsize': nat)
    requires On(st, nb, idx, h, v, rsize) && h.n > 0 && Looked(st, nb, st.tries[idx], h.sub, v, v', rsize')
    requires (h.k >= SIGN <==> GoesRight(nb, h.n)) && (2 * h.k) % WORD == ShiftLeft(nb, 32 - (h.n - 1))
    requires GoesRight(nb, h.n)
    ensures Ahead(st, nb, st.tries[idx], NextPath(h), v')
    ensures NextPath(h).sub.Node? ==> On(st, nb, idx, NextPath(h), v', rsize')
  {
    StepRight(st, nb, st.tries[idx], h.sub, h.n, h.p, v, v', h.rsub);
    ChildPrefix(nb, h.n, h.p);
  }

  lemma SeekLeft(st: State, nb: nat, idx: nat, h: Path, v: Addr, rsize: nat, v': Addr, rsize': nat)
    requires On(st, nb, idx, h, v, rsize) && h.n > 0 && Looked(st, nb, st.tries[idx], h.sub, v, v', rsize')
    requires (h.k >= SIGN <==> GoesRight(nb, h.n)) && (2 * h.k) % WORD == ShiftLeft(nb, 32 - (h.n - 1))
    requires !GoesRight(nb, h.n) && h.sub.right.Node?
    ensures Ahead(st, nb, st.tries[idx], NextPath(h), v')
    ensures NextPath(h).sub.Node? ==> On(st, nb, idx, NextPath(h), v', rsize')
  {
    StepLeft(st, nb, st.tries[idx], h.sub, h.n, h.p, v, v', h.rsub, h.rn, h.rp);
    StepLeftUntaken(nb, st.tries[idx], h.sub, h.n, h.p);
    ChildPrefix(nb, h.n, h.p);
  }

  lemma SeekLeftOnly(st: State, nb: nat, idx: nat, h: Path, v: Addr, rsize: nat, v': Addr, rsize': nat)
    requires On(st, nb, idx, h, v, rsize) && h.n > 0 && Looked(st, nb, st.tries[idx], h.sub, v, v', rsize')
    requires (h.k >= SIGN <==> GoesRight(nb, h.n)) && (2 * h.k) % WORD == ShiftLeft(nb, 32 - (h.n - 1))
    requires !GoesRight(nb, h.n) && h.sub.right.Empty?
    ensures Ahead(st, nb, st.tries[idx], NextPath(h), v')
    ensures NextPath(h).sub.Node? ==> On(st, nb, idx, NextPath(h), v', rsize')
  {
    StepLeftOnly(st, nb, st.tries[idx], h.sub, v, v', h.rsub);
    ChildPrefix(nb, h.n, h.p);
  }

  /** One step of the walk, whichever way it goes. */
  lemma SeekStep(st: State, nb: nat, idx: nat, h: Path, v: Addr, rsize: nat, v': Addr, rsize': nat)
    requires On(st, nb, idx, h, v, rsize) && h.sub.size != nb
    requires Looked(st, nb, st.tries[idx], h.sub, v, v', rsize')
    ensures h.n > 0 && (h.k >= SIGN <==> GoesRight(nb, h.n))
    ensures Ahead(st, nb, st.tries[idx], NextPath(h), v')
    ensures NextPath(h).sub.Node? ==> On(st, nb, idx, NextPath(h), v', rsize')
  {
    Descend(h.sub, h.n, h.p, nb);
    KeyStep(nb, h.k, h.n);
    if GoesRight(nb, h.n) {
      SeekRight(st, nb, idx, h, v, rsize, v', rsize');
    } else if h.sub.right.Node? {
      SeekLeft(st, nb, idx, h, v, rsize, v', rsize');
    } else {
      SeekLeftOnly(st, nb, idx, h, v, rsize, v', rsize');
    }
  }

  /** An empty map means that nothing is binned. */
  lemma NothingBinned(st: State)
    requires AllOk(st, 0)
    ensures ContentsOf(st) == map[]
  {
    forall a | a in st.node ensures false {
      SizeOfChunk(st, 0, a);
      SizePlace(st, 0, st.node[a].size);
      var i := st.home[st.node[a].size];
      assert BinOk(st, i);
      MarkedZero(i);
    }
  }

  /** The pointers follow the walk. */
  lemma SeekPointers(m: Nodes, h: Path)
    requires h.sub.Node? && h.n > 0 && Links(m, h.sub) && TrieOk(h.sub, h.n, h.p)
    ensures h.sub.head in m && m[h.sub.head].size == h.sub.size && h.sub.head != 0
    ensures var h' := NextPath(h);
            var c0, c1 := m[h.sub.head].child0, m[h.sub.head].child1;
            var t := if h.k >= SIGN then c1 else c0;
            && Root(h'.sub) == t && (t != 0 <==> h'.sub.Node?)
            && Root(h'.rsub) == (if c1 != 0 && c1 != t then c1 else Root(h.rsub))
  {
    NodeDisjoint(m, h.sub, h.n, h.p);
    assert h.sub.left.Node? ==> h.sub.left.head in Heads(h.sub.left) && h.sub.left.head != 0;
    assert h.sub.right.Node? ==> h.sub.right.head in Heads(h.sub.right) && h.sub.right.head != 0;
  }

  /** The walk fell off the trie: what is left is the untaken right subtree, if any. */
  lemma SeekEnds(st: State, treemap: nat, nb: nat, idx: nat, h: Path, v: Addr, rsize: nat)
    requires AllOk(st, treemap) && idx < NTREEBINS && InBin(nb, idx) && h.sub.Empty?
    requires Best(st, nb, v, rsize) && (v != 0 ==> st.node[v].size in Sizes(st.tries[idx]))
    requires Ahead(st, nb, st.tries[idx], h, v)
    ensures v == 0 && h.rsub.Empty? ==> forall z :: z in Sizes(st.tries[idx]) ==> z < nb
    ensures v != 0 || h.rsub.Node? ==> Finishing(st, nb, h.rsub, v, rsize)
  {
    if v != 0 || h.rsub.Node? {
      FinishHere(st, treemap, nb, idx, v, rsize, h.rsub, h.rn, h.rp);
    }
  }

  lemma SeekFound(st: State, treemap: nat, nb: nat, idx: nat, v: Addr, sub: Trie, n: nat, p: nat)
    requires AllOk(st, treemap) && idx < NTREEBINS && InBin(nb, idx)
    requires v != 0 && v in st.node && st.node[v].size == nb && nb in Sizes(st.tries[idx])
    requires Links(st.node, sub) && TrieOk(sub, n, p) && Sizes(sub) <= Sizes(st.tries[idx])
    ensures Finishing(st, nb, sub, v, 0)
  {
    FinishHere(st, treemap, nb, idx, v, 0, sub, n, p);
  }

}
