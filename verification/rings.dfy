/** Circular doubly linked lists with a list head, over two pointer tables indexed by node. */
module Rings {

  ghost predicate Distinct<T>(q: seq<T>) {
    forall i, j :: 0 <= i < j < |q| ==> q[i] != q[j]
  }

  /** Ith i of the circle: the head, then q[0], ..., q[|q| - 1], then the head again. */
  ghost function Ith(h: nat, q: seq<nat>, i: int): nat {
    if 1 <= i <= |q| then q[i - 1] else h
  }

  ghost predicate Ring(forw: seq<nat>, back: seq<nat>, h: nat, q: seq<nat>) {
    && |forw| == |back| && h < |forw|
    && (forall i :: 0 <= i < |q| ==> q[i] < |forw| && q[i] != h)
    && Distinct(q)
    && (forall i :: 0 <= i <= |q| ==> forw[Ith(h, q, i)] == Ith(h, q, i + 1))
    && (forall i :: 0 < i <= |q| + 1 ==> back[Ith(h, q, i)] == Ith(h, q, i - 1))
  }

  function Without<T>(q: seq<T>, k: nat): (r: seq<T>)
    requires k < |q|
  {
    q[..k] + q[k + 1..]
  }

  /** `x->back->forw = x->forw; x->forw->back = x->back` takes x out of its ring. */
  lemma Unlink(forw: seq<nat>, back: seq<nat>, h: nat, q: seq<nat>, k: nat)
    requires Ring(forw, back, h, q) && k < |q|
    ensures forw[q[k]] < |forw| && back[q[k]] < |forw|
    ensures Ring(forw[back[q[k]] := forw[q[k]]], back[forw[q[k]] := back[q[k]]], h, Without(q, k))
  {
    var x, r := q[k], Without(q, k);
    assert x == Ith(h, q, k + 1);
    assert forw[x] == Ith(h, q, k + 2) && back[x] == Ith(h, q, k);
    var f, b := forw[back[x] := forw[x]], back[forw[x] := back[x]];
    forall i | 0 <= i <= |r|
      ensures f[Ith(h, r, i)] == Ith(h, r, i + 1)
    {
      assert Ith(h, r, i) == Ith(h, q, if i <= k then i else i + 1);
      assert Ith(h, r, i + 1) == Ith(h, q, if i + 1 <= k then i + 1 else i + 2);
    }
    forall i | 0 < i <= |r| + 1
      ensures b[Ith(h, r, i)] == Ith(h, r, i - 1)
    {
      assert Ith(h, r, i) == Ith(h, q, if i <= k then i else i + 1);
      assert Ith(h, r, i - 1) == Ith(h, q, if i - 1 <= k then i - 1 else i);
    }
  }

  /** `forw->back = x; x->forw = head->forw; head->forw = x; x->back = head` puts x first. */
  lemma LinkFirst(forw: seq<nat>, back: seq<nat>, h: nat, q: seq<nat>, x: nat)
    requires Ring(forw, back, h, q) && x < |forw| && x != h && x !in q
    ensures forw[h] < |forw|
    ensures Ring(forw[x := forw[h]][h := x], back[forw[h] := x][x := h], h, [x] + q)
  {
    var r := [x] + q;
    assert forw[Ith(h, q, 0)] == Ith(h, q, 1);
    var f, b := forw[x := forw[h]][h := x], back[forw[h] := x][x := h];
    forall i | 0 <= i <= |r|
      ensures f[Ith(h, r, i)] == Ith(h, r, i + 1)
    {
      if i >= 1 {
        assert Ith(h, r, i + 1) == Ith(h, q, i);
        assert i >= 2 ==> Ith(h, r, i) == Ith(h, q, i - 1);
      }
    }
    forall i | 0 < i <= |r| + 1
      ensures b[Ith(h, r, i)] == Ith(h, r, i - 1)
    {
      if i >= 2 {
        assert Ith(h, r, i) == Ith(h, q, i - 1);
        assert i >= 3 ==> Ith(h, r, i - 1) == Ith(h, q, i - 2);
      }
    }
  }

  /** `back->forw = x; x->back = head->back; head->back = x; x->forw = head` puts x last. */
  lemma LinkLast(forw: seq<nat>, back: seq<nat>, h: nat, q: seq<nat>, x: nat)
    requires Ring(forw, back, h, q) && x < |forw| && x != h && x !in q
    ensures back[h] < |forw|
    ensures Ring(forw[back[h] := x][x := h], back[x := back[h]][h := x], h, q + [x])
  {
    var r := q + [x];
    assert back[Ith(h, q, |q| + 1)] == Ith(h, q, |q|);
    var f, b := forw[back[h] := x][x := h], back[x := back[h]][h := x];
    forall i | 0 <= i <= |r|
      ensures f[Ith(h, r, i)] == Ith(h, r, i + 1)
    {
      assert i <= |q| ==> Ith(h, r, i) == Ith(h, q, i);
      assert i < |q| ==> Ith(h, r, i + 1) == Ith(h, q, i + 1);
    }
    forall i | 0 < i <= |r| + 1
      ensures b[Ith(h, r, i)] == Ith(h, r, i - 1)
    {
      assert i <= |q| ==> Ith(h, r, i) == Ith(h, q, i);
      assert i - 1 <= |q| ==> Ith(h, r, i - 1) == Ith(h, q, i - 1);
    }
  }

  /** Pointer updates at nodes off a ring leave the ring alone. */
  lemma Apart(forw: seq<nat>, back: seq<nat>, forw': seq<nat>, back': seq<nat>, h: nat, q: seq<nat>)
    requires Ring(forw, back, h, q) && |forw'| == |forw| && |back'| == |back|
    requires forall n :: 0 <= n < |forw| && (n == h || n in q) ==> forw'[n] == forw[n] && back'[n] == back[n]
    ensures Ring(forw', back', h, q)
  {
    forall i | 0 <= i <= |q| + 1
      ensures Ith(h, q, i) == h || Ith(h, q, i) in q
    {
    }
  }
}
