/**
  Circular doubly-linked lists kept in two link maps, `fd` and `bk`.
  Small bins and the same-size chains of the tree bins are both of this shape.
 */
module Rings {

  ghost predicate Distinct<T>(r: seq<T>) {
    forall i, j :: 0 <= i < j < |r| ==> r[i] != r[j]
  }

  function Position<T(==)>(r: seq<T>, x: T): (k: nat)
    requires x in r
    ensures k < |r| && r[k] == x
  {
    if r[0] == x then 0 else 1 + Position(r[1..], x)
  }

  function Next(i: nat, n: nat): nat {
    if i + 1 == n then 0 else i + 1
  }

  function Prev(i: nat, n: nat): nat
    requires 0 < n
  {
    if i == 0 then n - 1 else i - 1
  }

  ghost predicate Forward<T>(fd: map<T, T>, r: seq<T>) {
    && |r| > 0
    && (forall x :: x in r ==> x in fd)
    && (forall i {:trigger fd[r[i]]} :: 0 <= i < |r| ==> fd[r[i]] == r[Next(i, |r|)])
  }

  ghost predicate Backward<T>(bk: map<T, T>, r: seq<T>) {
    && |r| > 0
    && (forall x :: x in r ==> x in bk)
    && (forall i {:trigger bk[r[i]]} :: 0 <= i < |r| ==> bk[r[i]] == r[Prev(i, |r|)])
  }

  /** `r` lists, in `fd` order, the elements of one circular list. */
  ghost predicate RingSpec<T>(fd: map<T, T>, bk: map<T, T>, r: seq<T>) {
    Distinct(r) && Forward(fd, r) && Backward(bk, r)
  }

  /** The ring after linking `x` in behind its first element. */
  function Inserted<T>(r: seq<T>, x: T): seq<T> {
    if r == [] then [x] else [r[0], x] + r[1..]
  }

  /** The ring after unlinking element `k`; when the first one goes, its predecessor leads. */
  function Removed<T>(r: seq<T>, k: nat): seq<T>
    requires k < |r| && |r| > 1
  {
    if k == 0 then [r[|r| - 1]] + r[1..|r| - 1] else r[..k] + r[k + 1..]
  }

  /** The ring, if there is one, without `x`. */
  function Without<T(==)>(r: seq<T>, x: T): seq<T> {
    if x in r && |r| > 1 then Removed(r, Position(r, x)) else []
  }

  lemma InsertedElements<T>(r: seq<T>, x: T)
    requires |r| > 0 && Distinct(r) && x !in r
    ensures Distinct(Inserted(r, x))
    ensures forall y :: y in Inserted(r, x) <==> y in r || y == x
  {
    var r' := Inserted(r, x);
    assert forall i :: 2 <= i < |r'| ==> r'[i] == r[i - 1];
    forall y ensures y in r' <==> y in r || y == x {
      if y in r {
        var i :| 0 <= i < |r| && r[i] == y;
        assert r'[if i == 0 then 0 else i + 1] == y;
      }
    }
  }

  lemma InsertForward<T>(fd: map<T, T>, r: seq<T>, x: T)
    requires Distinct(r) && Forward(fd, r) && x !in r
    ensures Forward(fd[r[0] := x][x := fd[r[0]]], Inserted(r, x))
  {
    var n := |r|;
    var fd', r' := fd[r[0] := x][x := fd[r[0]]], Inserted(r, x);
    forall i | 0 <= i < n + 1 ensures r'[i] in fd' && fd'[r'[i]] == r'[Next(i, n + 1)] {
      if i == 0 {
      } else if i == 1 {
        assert fd[r[0]] == r[Next(0, n)];
      } else {
        assert r'[i] == r[i - 1] && fd[r[i - 1]] == r[Next(i - 1, n)];
      }
    }
  }

  lemma InsertBackward<T>(bk: map<T, T>, r: seq<T>, x: T)
    requires Distinct(r) && Backward(bk, r) && x !in r
    ensures Backward(bk[r[Next(0, |r|)] := x][x := r[0]], Inserted(r, x))
  {
    var n := |r|;
    var bk', r' := bk[r[Next(0, n)] := x][x := r[0]], Inserted(r, x);
    forall i | 0 <= i < n + 1 ensures r'[i] in bk' && bk'[r'[i]] == r'[Prev(i, n + 1)] {
      if i == 0 {
        assert bk[r[0]] == r[Prev(0, n)];
      } else if i > 2 {
        assert r'[i] == r[i - 1] && bk[r[i - 1]] == r[i - 2];
      }
    }
  }

  /** Linking a new element in behind the first one. */
  lemma InsertKeepsSpec<T>(fd: map<T, T>, bk: map<T, T>, r: seq<T>, x: T)
    requires RingSpec(fd, bk, r) && x !in r
    ensures var f := fd[r[0]];
            RingSpec(fd[r[0] := x][x := f], bk[f := x][x := r[0]], Inserted(r, x))
  {
    InsertedElements(r, x);
    InsertForward(fd, r, x);
    InsertBackward(bk, r, x);
  }

  lemma RemovedElements<T>(r: seq<T>, k: nat)
    requires k < |r| && |r| > 1 && Distinct(r)
    ensures Distinct(Removed(r, k))
    ensures forall x :: x in Removed(r, k) <==> x in r && x != r[k]
  {
    var r' := Removed(r, k);
    forall x ensures x in r' <==> x in r && x != r[k] {
      if x in r && x != r[k] {
        var i :| 0 <= i < |r| && r[i] == x;
        if k == 0 {
          assert r'[if i == |r| - 1 then 0 else i] == x;
        } else {
          assert r'[if i < k then i else i - 1] == x;
        }
      }
    }
  }

  /** Where the elements of a ring with element `k` removed come from. */
  function Origin(i: nat, k: nat, n: nat): nat
    requires n > 1
  {
    if k == 0 then (if i == 0 then n - 1 else i) else if i < k then i else i + 1
  }

  lemma RemovedAt<T>(r: seq<T>, k: nat, i: nat)
    requires k < |r| && |r| > 1 && i < |r| - 1
    ensures Origin(i, k, |r|) < |r| && |Removed(r, k)| == |r| - 1
    ensures Removed(r, k)[i] == r[Origin(i, k, |r|)]
  {
  }

  lemma OriginNeighbours(i: nat, k: nat, n: nat)
    requires k < n && n > 1 && i < n - 1
    ensures Origin(i, k, n) != k
    ensures Origin(Next(i, n - 1), k, n) ==
            if Origin(i, k, n) == Prev(k, n) then Next(k, n) else Next(Origin(i, k, n), n)
    ensures Origin(Prev(i, n - 1), k, n) ==
            if Origin(i, k, n) == Next(k, n) then Prev(k, n) else Prev(Origin(i, k, n), n)
  {
  }

  lemma RemoveForwardAt<T>(fd: map<T, T>, r: seq<T>, k: nat, i: nat)
    requires Distinct(r) && Forward(fd, r) && k < |r| && 0 <= i < |r| - 1
    ensures var fd', r' := fd[r[Prev(k, |r|)] := fd[r[k]]], Removed(r, k);
            |r'| == |r| - 1 && r'[i] in fd' && fd'[r'[i]] == r'[Next(i, |r'|)]
  {
    var n := |r|;
    RemovedAt(r, k, i);
    RemovedAt(r, k, Next(i, n - 1));
    OriginNeighbours(i, k, n);
    var j := Origin(i, k, n);
    assert fd[r[j]] == r[Next(j, n)] && fd[r[k]] == r[Next(k, n)];
    if j != Prev(k, n) {
      assert r[j] != r[Prev(k, n)];
    }
  }

  lemma RemoveBackwardAt<T>(bk: map<T, T>, r: seq<T>, k: nat, i: nat)
    requires Distinct(r) && Backward(bk, r) && k < |r| && 0 <= i < |r| - 1
    ensures var bk', r' := bk[r[Next(k, |r|)] := bk[r[k]]], Removed(r, k);
            |r'| == |r| - 1 && r'[i] in bk' && bk'[r'[i]] == r'[Prev(i, |r'|)]
  {
    var n := |r|;
    RemovedAt(r, k, i);
    RemovedAt(r, k, Prev(i, n - 1));
    OriginNeighbours(i, k, n);
    var j := Origin(i, k, n);
    BackwardPast(bk, r, k, j);
  }

  lemma BackwardPast<T>(bk: map<T, T>, r: seq<T>, k: nat, j: nat)
    requires Distinct(r) && Backward(bk, r) && k < |r| && j < |r|
    ensures var bk' := bk[r[Next(k, |r|)] := bk[r[k]]];
            r[j] in bk' && bk'[r[j]] == if j == Next(k, |r|) then r[Prev(k, |r|)] else r[Prev(j, |r|)]
  {
    assert bk[r[j]] == r[Prev(j, |r|)] && bk[r[k]] == r[Prev(k, |r|)];
    if j != Next(k, |r|) {
      assert r[j] != r[Next(k, |r|)];
    }
  }

  /** Unlinking one element closes the list around it. */
  lemma RemoveKeepsSpec<T>(fd: map<T, T>, bk: map<T, T>, r: seq<T>, k: nat)
    requires RingSpec(fd, bk, r) && k < |r| && |r| > 1
    ensures var f, b := fd[r[k]], bk[r[k]];
            RingSpec(fd[b := f], bk[f := b], Removed(r, k))
  {
    RemovedElements(r, k);
    var fd', bk', r' := fd[bk[r[k]] := fd[r[k]]], bk[fd[r[k]] := bk[r[k]]], Removed(r, k);
    assert bk[r[k]] == r[Prev(k, |r|)] && fd[r[k]] == r[Next(k, |r|)];
    forall i | 0 <= i < |r'|
      ensures r'[i] in fd' && fd'[r'[i]] == r'[Next(i, |r'|)]
      ensures r'[i] in bk' && bk'[r'[i]] == r'[Prev(i, |r'|)]
    {
      RemoveForwardAt(fd, r, k, i);
      RemoveBackwardAt(bk, r, k, i);
    }
  }

  // ----- the same property, element by element

  /** The first `n` elements of `r` are linked to their neighbours and differ from one another. */
  ghost predicate RingTo<T>(fd: map<T, T>, bk: map<T, T>, r: seq<T>, n: nat)
    requires n <= |r|
  {
    n > 0 ==>
      && RingTo(fd, bk, r, n - 1)
      && r[n - 1] in fd && fd[r[n - 1]] == r[Next(n - 1, |r|)]
      && r[n - 1] in bk && bk[r[n - 1]] == r[Prev(n - 1, |r|)]
      && r[n - 1] !in r[..n - 1]
  }

  /** `r` lists the elements of one circular list. */
  ghost predicate IsRing<T>(fd: map<T, T>, bk: map<T, T>, r: seq<T>) {
    |r| > 0 && RingTo(fd, bk, r, |r|)
  }

  lemma {:induction false} RingToAt<T>(fd: map<T, T>, bk: map<T, T>, r: seq<T>, n: nat, k: nat)
    requires k < n <= |r| && RingTo(fd, bk, r, n)
    ensures r[k] in fd && fd[r[k]] == r[Next(k, |r|)] && r[k] in bk && bk[r[k]] == r[Prev(k, |r|)]
    ensures r[k] !in r[..k]
  {
    if k < n - 1 {
      RingToAt(fd, bk, r, n - 1, k);
    }
  }

  lemma {:induction false} RingToBuild<T>(fd: map<T, T>, bk: map<T, T>, r: seq<T>, n: nat)
    requires n <= |r| && RingSpec(fd, bk, r)
    ensures RingTo(fd, bk, r, n)
  {
    if n > 0 {
      RingToBuild(fd, bk, r, n - 1);
      assert fd[r[n - 1]] == r[Next(n - 1, |r|)] && bk[r[n - 1]] == r[Prev(n - 1, |r|)];
    }
  }

  lemma RingMeans<T>(fd: map<T, T>, bk: map<T, T>, r: seq<T>)
    ensures IsRing(fd, bk, r) <==> RingSpec(fd, bk, r)
  {
    if IsRing(fd, bk, r) {
      forall i {:trigger fd[r[i]]} | 0 <= i < |r| ensures r[i] in fd && fd[r[i]] == r[Next(i, |r|)] {
        RingToAt(fd, bk, r, |r|, i);
      }
      forall i {:trigger bk[r[i]]} | 0 <= i < |r| ensures r[i] in bk && bk[r[i]] == r[Prev(i, |r|)] {
        RingToAt(fd, bk, r, |r|, i);
      }
      forall x | x in r ensures x in fd && x in bk {
        var i :| 0 <= i < |r| && r[i] == x;
        RingToAt(fd, bk, r, |r|, i);
      }
      forall i, j | 0 <= i < j < |r| ensures r[i] != r[j] {
        RingToAt(fd, bk, r, |r|, j);
        assert r[..j][i] == r[i];
      }
    } else if RingSpec(fd, bk, r) {
      RingToBuild(fd, bk, r, |r|);
    }
  }

  lemma RingLinks<T>(fd: map<T, T>, bk: map<T, T>, r: seq<T>, k: nat)
    requires IsRing(fd, bk, r) && k < |r|
    ensures r[k] in fd && fd[r[k]] == r[Next(k, |r|)] && r[k] in bk && bk[r[k]] == r[Prev(k, |r|)]
    ensures fd[r[k]] in r && bk[r[k]] in r
    ensures |r| == 1 <==> bk[r[k]] == r[k]
    ensures Distinct(r)
  {
    RingMeans(fd, bk, r);
  }

  /** Linking a new element in behind the first one. */
  lemma InsertKeepsRing<T>(fd: map<T, T>, bk: map<T, T>, r: seq<T>, x: T)
    requires IsRing(fd, bk, r) && x !in r
    ensures r[0] in fd
    ensures var f := fd[r[0]];
            f in r && IsRing(fd[r[0] := x][x := f], bk[f := x][x := r[0]], Inserted(r, x))
    ensures forall y :: y in Inserted(r, x) <==> y in r || y == x
  {
    RingLinks(fd, bk, r, 0);
    RingMeans(fd, bk, r);
    InsertKeepsSpec(fd, bk, r, x);
    var f := fd[r[0]];
    RingMeans(fd[r[0] := x][x := f], bk[f := x][x := r[0]], Inserted(r, x));
    InsertedElements(r, x);
  }

  /** Unlinking one element closes the list around it. */
  lemma RemoveKeepsRing<T>(fd: map<T, T>, bk: map<T, T>, r: seq<T>, k: nat)
    requires IsRing(fd, bk, r) && k < |r| && |r| > 1
    ensures r[k] in fd && r[k] in bk
    ensures var f, b := fd[r[k]], bk[r[k]];
            f in r && b in r && IsRing(fd[b := f], bk[f := b], Removed(r, k))
    ensures forall x :: x in Removed(r, k) <==> x in r && x != r[k]
  {
    RingLinks(fd, bk, r, k);
    RingMeans(fd, bk, r);
    RemoveKeepsSpec(fd, bk, r, k);
    var f, b := fd[r[k]], bk[r[k]];
    RingMeans(fd[b := f], bk[f := b], Removed(r, k));
    RemovedElements(r, k);
  }

  lemma SingletonRing<T>(fd: map<T, T>, bk: map<T, T>, x: T)
    ensures IsRing(fd[x := x], bk[x := x], [x])
  {
    RingMeans(fd[x := x], bk[x := x], [x]);
  }

  /** A ring depends only on the links of its own elements. */
  lemma RingFrame<T>(fd: map<T, T>, bk: map<T, T>, fd': map<T, T>, bk': map<T, T>, r: seq<T>)
    requires IsRing(fd, bk, r)
    requires forall x :: x in r && x in fd && x in bk ==> x in fd' && fd'[x] == fd[x] && x in bk' && bk'[x] == bk[x]
    ensures IsRing(fd', bk', r)
  {
    RingMeans(fd, bk, r);
    RingMeans(fd', bk', r);
  }
}
