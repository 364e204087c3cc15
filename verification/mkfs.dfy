/** v7fs_initfreelist: the interleaved free list of a new volume. */
module MakeFs {
  import opened Blocks
  import opened Rings
  import opened BufferCache
  import opened FreeList
  import opened Arithmetic

  ghost function Below(n: nat): (s: set<int>)
    ensures |s| == n && forall x :: x in s <==> 0 <= x < n
  {
    if n == 0 then {} else Below(n - 1) + {n - 1}
  }

  /** Fewer than n marks below n leave a place without one. */
  lemma Unmarked(s: set<int>, n: nat)
    requires |s| < n
    ensures exists u :: 0 <= u < n && u !in s
  {
    if Below(n) <= s {
      SubsetSize(Below(n), s);
    }
    var u :| u in Below(n) && u !in s;
  }

  lemma {:induction false} SubsetSize(r: set<int>, s: set<int>)
    requires r <= s
    ensures |r| <= |s|
  {
    assert s == r + (s - r);
  }

  /** adr lists 1..n in some order. */
  ghost predicate Permutes(adr: seq<int>, n: nat) {
    && |adr| == n
    && (forall j :: 0 <= j < n ==> 1 <= adr[j] <= n)
    && (forall j, k :: 0 <= j < k < n ==> adr[j] != adr[k])
    && forall x :: 1 <= x <= n ==> x in adr
  }

  /** Place y is the first from place x on, going round the n places, that has not been given out. */
  ghost predicate FirstFree(adr: seq<int>, n: nat, x: int, y: int) {
    && 0 <= y < n && !Given(adr, y)
    && if x <= y then forall z :: x <= z < y ==> Given(adr, z)
       else (forall z :: x <= z < n ==> Given(adr, z)) && forall z :: 0 <= z < y ==> Given(adr, z)
  }

  ghost predicate Given(adr: seq<int>, place: int) {
    place + 1 in adr
  }

  /** The first number is 1, and each next one is the first free place from m places further on. */
  ghost predicate Spread(adr: seq<int>, n: nat, m: nat)
    requires n >= 1
  {
    && (adr != [] ==> adr[0] == 1)
    && forall j, k :: 0 <= j < |adr| && k == j - 1 >= 0 ==> FirstFree(adr[..j], n, (adr[k] - 1 + m) % n, adr[j] - 1)
  }

  /** The loop that spreads the numbers 1..n at distance m, going on to the next free place when one is taken. */
  method Interleave(n: nat, m: nat) returns (adr: array<int>)
    requires n >= 1
    ensures fresh(adr) && adr.Length == n && Permutes(adr[..], n) && Spread(adr[..], n, m)
  {
    hide Flags, Listed, Permutes, FirstFree, Spread;
    NoneSpread(n, m);
    var flg := new bool[n](i => false);
    adr := new int[n];
    var i := 0;
    ghost var marks: set<int> := {};
    NoneListed(flg[..], n);
    for j := 0 to n
      invariant 0 <= i < n && |marks| == j
      invariant Flags(flg[..], marks) && Listed(adr[..j], marks, n)
      invariant Spread(adr[..j], n, m) && i == if j == 0 then 0 else (adr[j - 1] - 1 + m) % n
    {
      ghost var from := i;
      i := NextFree(flg, marks, i);
      ghost var before := adr[..j];
      FreeIs(before, marks, flg[..], n, from, i);
      FirstOfAll(before, n, i);
      SpreadNext(before, n, m, i);
      adr[j] := i + 1;
      assert adr[..j + 1] == before + [i + 1];
      ListNext(before, marks, n, i);
      FlagNext(flg[..], marks, i);
      flg[i] := true;
      marks := marks + {i};
      i := (i + m) % n;
    }
    assert adr[..] == adr[..n];
    ListedAll(adr[..], flg[..], marks, n);
  }

  lemma FreeIs(adr: seq<int>, marks: set<int>, flg: seq<bool>, n: nat, x: nat, y: nat)
    requires Listed(adr, marks, n) && Flags(flg, marks) && |flg| == n && y < n && y !in marks
    requires if x <= y then forall z :: x <= z < y ==> flg[z] else (forall z :: x <= z < n ==> flg[z]) && forall z :: 0 <= z < y ==> flg[z]
    ensures FirstFree(adr, n, x, y)
  {
    forall z | 0 <= z < n && flg[z]
      ensures Given(adr, z)
    {
      assert z in marks;
    }
    assert !Given(adr, y);
  }

  lemma FirstOfAll(adr: seq<int>, n: nat, y: nat)
    requires adr == [] ==> FirstFree(adr, n, 0, y)
    ensures adr == [] ==> y == 0
  {
    assert adr == [] && y > 0 ==> Given(adr, 0);
  }

  lemma SpreadNext(adr: seq<int>, n: nat, m: nat, y: nat)
    requires n >= 1 && Spread(adr, n, m) && (adr == [] ==> y == 0) && (adr != [] ==> FirstFree(adr, n, (adr[|adr| - 1] - 1 + m) % n, y))
    ensures Spread(adr + [y + 1], n, m)
  {
    hide FirstFree;
    var t := adr + [y + 1];
    forall j, k | 0 <= j < |t| && k == j - 1 >= 0
      ensures FirstFree(t[..j], n, (t[k] - 1 + m) % n, t[j] - 1)
    {
      if j < |adr| {
        assert t[..j] == adr[..j];
      } else {
        assert t[..j] == adr;
      }
    }
  }

  lemma NoneSpread(n: nat, m: nat)
    requires n >= 1
    ensures Spread([], n, m)
  {
  }

  lemma NoneListed(flg: seq<bool>, n: nat)
    requires forall x :: 0 <= x < |flg| ==> !flg[x]
    ensures Flags(flg, {}) && Listed([], {}, n)
  {
  }

  lemma FlagNext(flg: seq<bool>, marks: set<int>, i: nat)
    requires Flags(flg, marks) && i < |flg|
    ensures Flags(flg[i := true], marks + {i})
  {
  }

  lemma ListedAll(adr: seq<int>, flg: seq<bool>, marks: set<int>, n: nat)
    requires Listed(adr, marks, n) && Flags(flg, marks) && |flg| == n == |adr| == |marks|
    ensures Permutes(adr, n)
  {
    AllMarked(marks, n);
    forall x | 1 <= x <= n
      ensures x in adr
    {
      var y := x - 1;
      assert y in marks && y + 1 in adr;
    }
  }

  /** The numbers given out are different, and are those of the marked places. */
  ghost predicate Listed(adr: seq<int>, marks: set<int>, n: nat) {
    && (forall x :: x in marks <==> x + 1 in adr)
    && (forall k :: 0 <= k < |adr| ==> 1 <= adr[k] <= n)
    && forall k, l :: 0 <= k < l < |adr| ==> adr[k] != adr[l]
  }

  lemma ListNext(adr: seq<int>, marks: set<int>, n: nat, i: nat)
    requires Listed(adr, marks, n) && i < n && i !in marks
    ensures Listed(adr + [i + 1], marks + {i}, n)
  {
    assert i + 1 !in adr;
  }

  ghost predicate Flags(flg: seq<bool>, marks: set<int>) {
    && (forall x :: 0 <= x < |flg| ==> (flg[x] <==> x in marks))
    && forall x :: x in marks ==> 0 <= x < |flg|
  }

  /** The next place without a mark, going round. */
  method NextFree(flg: array<bool>, ghost marks: set<int>, from: nat) returns (i: nat)
    requires from < flg.Length && |marks| < flg.Length && Flags(flg[..], marks)
    ensures i < flg.Length && !flg[i] && i !in marks
    ensures if from <= i then forall z :: from <= z < i ==> flg[z]
            else (forall z :: from <= z < flg.Length ==> flg[z]) && forall z :: 0 <= z < i ==> flg[z]
  {
    var n := flg.Length;
    Unmarked(marks, n);
    ghost var u :| 0 <= u < n && u !in marks;
    i := from;
    while flg[i]
      invariant 0 <= i < n
      invariant if from <= i then forall z :: from <= z < i ==> flg[z]
                else (forall z :: from <= z < n ==> flg[z]) && forall z :: 0 <= z < i ==> flg[z]
      decreases if i <= u then u - i else u - i + n
    {
      Wrap(i, n);
      i := (i + 1) % n;
    }
  }

  lemma Wrap(i: nat, n: nat)
    requires i < n
    ensures (i + 1) % n == if i + 1 == n then 0 else i + 1
  {
    ModIs(i + 1, if i + 1 == n then 1 else 0, if i + 1 == n then 0 else i + 1, n);
  }

  lemma AllMarked(s: set<int>, n: nat)
    requires |s| == n && forall x :: x in s ==> 0 <= x < n
    ensures forall x :: 0 <= x < n ==> x in s
  {
    forall x | 0 <= x < n
      ensures x in s
    {
      if x !in s {
        SubsetSize(s, Below(n) - {x});
      }
    }
  }

  /** The blocks mkfs puts in circulation: the data blocks, without the last one when n divides its number. */
  predicate Circulates(b: nat, isize: nat, fsize: nat, n: nat)
    requires n > 0
  {
    isize <= b < fsize && !(b == fsize - 1 && b % n == 0)
  }

  lemma CirculatesAre(isize: nat, fsize: nat, n: nat)
    requires n > 0
    ensures forall b: nat :: Circulates(b, isize, fsize, n) <==> isize <= b < fsize && (b == fsize - 1 ==> b % n != 0)
  {
  }

  /** The stack has the data blocks numbered lo up to, but not including, hi. */
  ghost predicate Freed(st: seq<nat>, isize: nat, fsize: nat, lo: int, hi: int) {
    forall b: nat :: b in st <==> isize <= b < fsize && lo <= b < hi
  }

  /** Block b is freed before block c: in an earlier pass, which has higher numbers, or earlier in the same pass. */
  ghost predicate Precedes(adr: seq<int>, n: nat, b: nat, c: nat)
    requires n >= 1
  {
    b / n > c / n || (b / n == c / n && exists j, k :: 0 <= j < k < |adr| && adr[j] == n - b % n && adr[k] == n - c % n)
  }

  ghost predicate InOrder(adr: seq<int>, n: nat, st: seq<nat>)
    requires n >= 1
  {
    forall p, q :: 0 <= p < q < |st| ==> Precedes(adr, n, st[p], st[q])
  }

  /** The blocks on the stack while the pass below d has done its first i numbers come before the next one. */
  lemma PassOrder(adr: seq<int>, n: nat, d: nat, i: nat, e: nat)
    requires n >= 1 && Permutes(adr, n) && Multiple(d, n) && n <= d && i < n && (e >= d || d - e in adr[..i])
    ensures d - adr[i] >= 0 && Precedes(adr, n, e, d - adr[i])
  {
    var q := d / n;
    assert d == q * n;
    Quotient(d - adr[i], q - 1, n - adr[i], n);
    if e >= d {
      DivUp(e, d, n);
    } else {
      var k :| 0 <= k < i && adr[k] == d - e;
      Quotient(e, q - 1, n - adr[k], n);
    }
  }

  lemma Quotient(x: nat, q: int, r: nat, n: nat)
    requires n > 0 && r < n && x == q * n + r
    ensures x / n == q && x % n == r
  {
    ModIs(x, q, r, n);
    assert x == x / n * n + x % n;
    NotMore(x / n, q, n);
    NotMore(q, x / n, n);
  }

  lemma NotMore(a: int, b: int, n: nat)
    requires n > 0 && a * n <= b * n
    ensures a <= b
  {
    if a > b {
      assert (a - b) * n == a * n - b * n;
      AtLeast(a - b, n);
    }
  }

  lemma DivUp(e: nat, d: nat, n: nat)
    requires n > 0 && e >= d
    ensures e / n >= d / n
  {
    var a, b := e / n, d / n;
    assert e == a * n + e % n && d == b * n + d % n;
    if a < b {
      assert (b - a) * n == b * n - a * n;
      AtLeast(b - a, n);
    }
  }

  lemma OrderNext(adr: seq<int>, n: nat, d: nat, i: nat, st: seq<nat>)
    requires n >= 1 && Permutes(adr, n) && Multiple(d, n) && n <= d && i < n && InOrder(adr, n, st)
    requires forall e: nat :: e in st ==> e >= d || d - e in adr[..i]
    ensures d - adr[i] >= 0 && InOrder(adr, n, st + [d - adr[i]])
  {
    hide Precedes, Permutes, Multiple;
    PermutesAt(adr, n, i);
    forall p | 0 <= p < |st|
      ensures Precedes(adr, n, st[p], d - adr[i])
    {
      assert st[p] in st;
      PassOrder(adr, n, d, i, st[p]);
    }
  }

  lemma PermutesAt(adr: seq<int>, n: nat, i: nat)
    requires Permutes(adr, n) && i < n
    ensures |adr| == n && 1 <= adr[i] <= n
  {
  }

  /**
   Free every block of [isize, fsize) in interleaved order, from the top down: the stack is the passes one after the
   other, each in the order of the spread numbers.
   */
  method InitFreeList(fs: Super, n: nat, m: nat) returns (ghost order: seq<int>)
    requires n >= 1 && fs.Valid() && fs.stack == [] && |fs.Held()| < NBUF && (forall b :: fs.isize <= b < fs.fsize ==> !Holding(fs.Held(), b))
    modifies fs, fs.bio
    ensures fs.Valid() && fs.Held() == old(fs.Held()) && |fs.bio.view| == |old(fs.bio.view)|
    ensures forall b: nat :: b in fs.stack <==> Circulates(b, fs.isize, fs.fsize, n)
    ensures forall b: nat :: b in fs.stack <==> fs.isize <= b < fs.fsize && (b == fs.fsize - 1 ==> b % n != 0)
    ensures forall b: nat :: b in fs.stack ==> multiset(fs.stack)[b] == 1
    ensures |fs.stack| + 1 >= fs.fsize - fs.isize
    ensures Permutes(order, n) && Spread(order, n, m) && InOrder(order, n, fs.stack)
  {
    hide AvLinked, DevLinked, Sized, Coherent, Quiet, Chain, Ring, Cache.Valid, Grip, Freed, Proper, Permutes, Circulates, NextMultiple, Multiple,
         Spread, Precedes;
    var adr := Interleave(n, m);
    order := adr[..];
    var d := Round(fs.fsize - 1, n);
    ghost var top, p := d, adr[..];
    NoneFreed(fs.isize, fs.fsize, top);
    while d > 0
      invariant adr[..] == p
      invariant fs.Valid() && fs.Held() == old(fs.Held()) && |fs.bio.view| == |old(fs.bio.view)|
      invariant 0 <= d <= top && Multiple(d, n)
      invariant Freed(fs.stack, fs.isize, fs.fsize, d, top) && InOrder(p, n, fs.stack)
    {
      StepMod(d, n);
      FreePass(fs, adr, n, d, top);
      d := d - n;
    }
    AllFreed(fs.stack, fs.isize, fs.fsize, n, top);
    DistinctEach(fs.stack, fs.isize, fs.fsize);
    AtLeastMany(fs.stack, fs.isize, fs.fsize, n);
    CirculatesAre(fs.isize, fs.fsize, n);
  }

  /** So many different blocks make a stack at least so long. */
  lemma AtLeastMany(st: seq<nat>, isize: nat, fsize: nat, n: nat)
    requires n > 0 && isize <= fsize && forall b: nat :: b in st <==> Circulates(b, isize, fsize, n)
    ensures |st| + 1 >= fsize - isize
  {
    if isize < fsize {
      assert Below(isize) <= Below(fsize - 1);
      var t := ElemSet(st);
      forall b | b in Below(fsize - 1) - Below(isize)
        ensures b in t
      {
        assert Circulates(b, isize, fsize, n);
      }
      SubsetSize(Below(fsize - 1) - Below(isize), t);
    }
  }

  ghost function ElemSet(st: seq<nat>): (t: set<int>)
    ensures |t| <= |st| && forall b: nat :: b in t <==> b in st
    ensures forall b: int :: b in t ==> b >= 0
  {
    if st == [] then {} else ElemSet(st[..|st| - 1]) + {st[|st| - 1]}
  }

  ghost predicate Multiple(d: int, n: nat)
    requires n > 0
  {
    d % n == 0
  }

  /** d is the first multiple of n from x on. */
  ghost predicate NextMultiple(x: nat, n: nat, d: int)
    requires n > 0
  {
    d >= x && d % n == 0 && forall e :: x <= e < d ==> e % n != 0
  }

  /** The next multiple of n. */
  method Round(x: nat, n: nat) returns (d: nat)
    requires n > 0
    ensures NextMultiple(x, n, d) && Multiple(d, n)
  {
    d := x;
    ghost var q := x / n + 1;
    assert q * n == x / n * n + n;
    assert x == x / n * n + x % n;
    ModIs(q * n, q, 0, n);
    while d % n != 0
      invariant x <= d <= q * n && forall e :: x <= e < d ==> e % n != 0
      decreases q * n - d
    {
      d := d + 1;
    }
  }

  lemma StepMod(d: nat, n: nat)
    requires n > 0 && Multiple(d, n) && d > 0
    ensures d >= n && Multiple(d - n, n)
  {
    var q := d / n;
    assert d == q * n;
    assert d - n == (q - 1) * n;
    ModIs(d - n, q - 1, 0, n);
  }

  lemma NoneFreed(isize: nat, fsize: nat, top: nat)
    ensures Freed([], isize, fsize, top, top)
  {
  }

  lemma AllFreed(st: seq<nat>, isize: nat, fsize: nat, n: nat, top: nat)
    requires n > 0 && fsize > 0 && NextMultiple(fsize - 1, n, top)
    requires Freed(st, isize, fsize, 0, top)
    ensures forall b: nat :: b in st <==> Circulates(b, isize, fsize, n)
  {
    assert top > fsize - 1 <==> (fsize - 1) % n != 0;
  }

  lemma DistinctEach(s: seq<nat>, isize: nat, fsize: nat)
    requires Proper(s, isize, fsize)
    ensures forall b: nat :: b in s ==> multiset(s)[b] == 1
  {
    forall b: nat | b in s
      ensures multiset(s)[b] == 1
    {
      var k :| 0 <= k < |s| && s[k] == b;
      assert s == s[..k] + [b] + s[k + 1..];
    }
  }

  /** One pass: the n blocks below d. */
  method FreePass(fs: Super, adr: array<int>, n: nat, d: nat, ghost top: nat)
    requires adr.Length == n && Permutes(adr[..], n) && fs.Valid() && |fs.Held()| < NBUF && (forall b :: fs.isize <= b < fs.fsize ==> !Holding(fs.Held(), b))
    requires n >= 1 && Multiple(d, n) && n <= d <= top && Freed(fs.stack, fs.isize, fs.fsize, d, top) && InOrder(adr[..], n, fs.stack)
    modifies fs, fs.bio
    ensures fs.Valid() && fs.Held() == old(fs.Held()) && |fs.bio.view| == |old(fs.bio.view)|
    ensures Freed(fs.stack, fs.isize, fs.fsize, d - n, top) && InOrder(adr[..], n, fs.stack)
  {
    hide AvLinked, DevLinked, Sized, Coherent, Quiet, Chain, Ring, Cache.Valid, Grip, InOrder, Multiple;
    ghost var p := adr[..];
    for i := 0 to n
      invariant fs.Valid() && fs.Held() == old(fs.Held()) && |fs.bio.view| == |old(fs.bio.view)|
      invariant InOrder(p, n, fs.stack)
      invariant forall b: nat :: b in fs.stack <==> fs.isize <= b < fs.fsize && (d <= b < top || (b < d && d - b in p[..i]))
    {
      var f := d - adr[i];
      assert p[..i + 1] == p[..i] + [p[i]];
      assert adr[i] !in p[..i];
      OrderNext(p, n, d, i, fs.stack);
      if f < fs.fsize && f >= fs.isize {
        fs.Free(f);
      }
    }
    assert p[..n] == p;
  }
}
