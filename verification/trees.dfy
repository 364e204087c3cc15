/**
 The address trees of sys/subr.c and sys/iget.c: a block number of level 0 is a data block, one of
 level l > 0 an index block of NINDIR block numbers of level l - 1; zero is a hole.
 */
module Trees {
  import opened Blocks

  const NADDR := 13

  /** The number of data blocks below an address of level l. */
  function Span(l: nat): (n: nat)
    requires l <= 3
    ensures n > 0
  {
    if l == 0 then 1 else if l == 1 then 128 else if l == 2 then 16384 else 2097152
  }

  /** bmap's `(bn>>sh) & NMASK`: the entry of a level-l index block on the way to data block off. */
  function Digit(off: nat, l: nat): (i: nat)
    requires 0 < l <= 3
    ensures i < NINDIR
  {
    off / Span(l - 1) % 128
  }

  lemma Digits(off: nat)
    requires off < 2097152
    ensures off == Digit(off, 3) * 16384 + Digit(off, 2) * 128 + Digit(off, 1)
    ensures off < 16384 ==> Digit(off, 3) == 0
    ensures off < 128 ==> Digit(off, 2) == 0
  {
    assert off / 128 / 128 == off / 16384;
  }

  /** Every choice of indices is that of some offset. */
  lemma DigitsReach(d1: nat, d2: nat, d3: nat)
    requires d1 < 128 && d2 < 128 && d3 < 128
    ensures var off := d3 * 16384 + d2 * 128 + d1;
      && off < 2097152 && Digit(off, 1) == d1 && Digit(off, 2) == d2 && Digit(off, 3) == d3
      && (d3 == 0 ==> off < 16384) && (d3 == 0 && d2 == 0 ==> off < 128)
  {
    var off := d3 * 16384 + d2 * 128 + d1;
    assert off / 128 == d3 * 128 + d2;
    assert off / 16384 == d3;
  }

  /** The digits of an offset determine it. */
  lemma DigitsDetermine(off: nat, off': nat, l: nat)
    requires l <= 3 && off < Span(l) && off' < Span(l)
    requires forall k :: 0 < k <= l ==> Digit(off, k) == Digit(off', k)
    ensures off == off'
  {
    Digits(off);
    Digits(off');
    hide Digit;
    if l >= 1 { assert Digit(off, 1) == Digit(off', 1); }
    if l >= 2 { assert Digit(off, 2) == Digit(off', 2); }
    if l >= 3 { assert Digit(off, 3) == Digit(off', 3); }
  }

  ghost function At(v: seq<Block>, a: nat): Block {
    if a < |v| then v[a] else Zero()
  }

  /** Every block below address a, in the order tloop frees them: last entry first, the index block last. */
  ghost function Tree(v: seq<Block>, a: nat, l: nat): seq<nat>
    decreases l, 0
  {
    if a == 0 then [] else if l == 0 then [a] else Kids(v, At(v, a), NINDIR, l - 1) + [a]
  }

  /** The blocks below entries i - 1, ..., 0 of index block b. */
  ghost function Kids(v: seq<Block>, b: Block, i: nat, l: nat): seq<nat>
    requires i <= NINDIR
    decreases l, i
  {
    if i == 0 then [] else Tree(v, Addr(b, i - 1), l) + Kids(v, b, i - 1, l)
  }

  /** The index blocks among them. */
  ghost function Index(v: seq<Block>, a: nat, l: nat): set<nat>
    decreases l, 0
  {
    if a == 0 || l == 0 then {} else KidsIndex(v, At(v, a), NINDIR, l - 1) + {a}
  }

  ghost function KidsIndex(v: seq<Block>, b: Block, i: nat, l: nat): set<nat>
    requires i <= NINDIR
    decreases l, i
  {
    if i == 0 then {} else Index(v, Addr(b, i - 1), l) + KidsIndex(v, b, i - 1, l)
  }

  /** The level-m block on the path from address a of level l to its off-th data block: zero past a hole. */
  ghost function Node(v: seq<Block>, a: nat, l: nat, off: nat, m: nat): nat
    requires l <= 3
    decreases l
  {
    if l <= m || a == 0 then a else Node(v, Addr(At(v, a), Digit(off, l)), l - 1, off, m)
  }

  /** The off-th data block below address a, or zero. */
  ghost function Walk(v: seq<Block>, a: nat, l: nat, off: nat): nat
    requires l <= 3
  {
    Node(v, a, l, off, 0)
  }

  /** Entry i of index block a; nothing below a hole. */
  ghost function Entry(v: seq<Block>, a: nat, i: nat): (x: nat)
    requires i < NINDIR
    ensures a == 0 ==> x == 0
    ensures 0 < a < |v| ==> x == Addr(v[a], i)
  {
    if a == 0 then 0 else Addr(At(v, a), i)
  }

  /** The walk through one, two and three index blocks, with the indices written out. */
  lemma WalkIs(v: seq<Block>, a: nat, off: nat)
    ensures Walk(v, a, 0, off) == a
    ensures off < 128 ==> Walk(v, a, 1, off) == Entry(v, a, off)
    ensures off < 16384 ==> Walk(v, a, 2, off) == Entry(v, Entry(v, a, off / 128), off % 128)
    ensures off < 2097152 ==> Walk(v, a, 3, off) == Entry(v, Entry(v, Entry(v, a, off / 16384), off / 128 % 128), off % 128)
  {
    hide Addr, At;
    OneDown(v, a, off, 1);
    OneDown(v, a, off, 2);
    OneDown(v, a, off, 3);
    var b := Entry(v, a, Digit(off, 2));
    OneDown(v, b, off, 1);
    var c := Entry(v, a, Digit(off, 3));
    OneDown(v, c, off, 2);
    OneDown(v, Entry(v, c, Digit(off, 2)), off, 1);
    assert off < 16384 ==> Digit(off, 2) == off / 128;
    assert off < 2097152 ==> Digit(off, 3) == off / 16384;
  }

  /** The last step of a walk, and one from the next entry of the same index block. */
  lemma {:induction false} LastStep(v: seq<Block>, a: nat, l: nat, off: nat)
    requires 0 < l <= 3
    ensures Walk(v, a, l, off) == Entry(v, Node(v, a, l, off, 1), off % 128)
    ensures off % 128 < 127 ==> Node(v, a, l, off + 1, 1) == Node(v, a, l, off, 1)
    decreases l
  {
    hide Addr, At;
    if l > 1 && a != 0 {
      if off % 128 < 127 {
        NoCarry(off);
      }
      LastStep(v, Addr(At(v, a), Digit(off, l)), l - 1, off);
    }
  }

  lemma NoCarry(off: nat)
    requires off % 128 < 127
    ensures (off + 1) / 128 == off / 128 && (off + 1) / 16384 == off / 16384 && (off + 1) % 128 == off % 128 + 1
  {
    assert (off + 1) / 16384 == (off + 1) / 128 / 128 && off / 16384 == off / 128 / 128;
  }

  lemma OneDown(v: seq<Block>, a: nat, off: nat, l: nat)
    requires 0 < l <= 3
    ensures Walk(v, a, l, off) == Walk(v, Entry(v, a, Digit(off, l)), l - 1, off)
    ensures Walk(v, a, 0, off) == a
  {
    hide Addr, At, Digit;
    assert Node(v, 0, l - 1, off, 0) == 0;
  }

  /** No block occurs twice. */
  ghost predicate Once(m: multiset<nat>) {
    forall x :: m[x] <= 1
  }

  lemma OnceParts(a: multiset<nat>, b: multiset<nat>)
    requires Once(a + b)
    ensures Once(a) && Once(b) && forall x :: x in a ==> x !in b
  {
    forall x
      ensures a[x] <= 1 && b[x] <= 1 && (x in a ==> x !in b)
    {
      assert (a + b)[x] == a[x] + b[x];
    }
  }

  lemma TreeBase(v: seq<Block>, a: nat, l: nat)
    ensures a == 0 ==> Tree(v, a, l) == []
    ensures a != 0 && l == 0 ==> Tree(v, a, l) == [a]
  {
    hide Kids;
  }

  lemma TreeStep(v: seq<Block>, a: nat, l: nat)
    requires a != 0 && l > 0
    ensures Tree(v, a, l) == Kids(v, At(v, a), NINDIR, l - 1) + [a]
    ensures multiset(Tree(v, a, l)) == multiset(Kids(v, At(v, a), NINDIR, l - 1)) + multiset{a}
  {
    hide Addr, Kids;
  }

  lemma KidsStep(v: seq<Block>, b: Block, i: nat, l: nat)
    requires 0 < i <= NINDIR
    ensures Kids(v, b, i, l) == Tree(v, Addr(b, i - 1), l) + Kids(v, b, i - 1, l)
    ensures multiset(Kids(v, b, i, l)) == multiset(Tree(v, Addr(b, i - 1), l)) + multiset(Kids(v, b, i - 1, l))
  {
    hide Addr, Tree;
  }

  lemma {:induction false} KidsSplit(v: seq<Block>, b: Block, i: nat, l: nat, k: nat)
    requires k < i <= NINDIR
    ensures multiset(Tree(v, Addr(b, k), l)) <= multiset(Kids(v, b, i, l))
    decreases i
  {
    hide Addr, Tree, Kids;
    KidsStep(v, b, i, l);
    if k < i - 1 {
      KidsSplit(v, b, i - 1, l, k);
    }
  }

  lemma {:induction false} IndexInTree(v: seq<Block>, a: nat, l: nat)
    ensures forall x :: x in Index(v, a, l) ==> x in Tree(v, a, l)
    decreases l, 0
  {
    if a != 0 && l != 0 {
      IndexInKids(v, At(v, a), NINDIR, l - 1);
    }
  }

  lemma {:induction false} IndexInKids(v: seq<Block>, b: Block, i: nat, l: nat)
    requires i <= NINDIR
    ensures forall x :: x in KidsIndex(v, b, i, l) ==> x in Kids(v, b, i, l)
    decreases l, i
  {
    if i != 0 {
      IndexInTree(v, Addr(b, i - 1), l);
      IndexInKids(v, b, i - 1, l);
    }
  }

  /** A tree depends only on the contents of its index blocks. */
  lemma {:induction false} TreeFrame(v: seq<Block>, v': seq<Block>, a: nat, l: nat)
    requires forall x :: x in Index(v, a, l) ==> At(v', x) == At(v, x)
    ensures Tree(v', a, l) == Tree(v, a, l) && Index(v', a, l) == Index(v, a, l)
    ensures l <= 3 ==> forall off, m :: Node(v', a, l, off, m) == Node(v, a, l, off, m)
    decreases l, 0
  {
    hide Addr, Digit;
    if a != 0 && l != 0 {
      assert At(v', a) == At(v, a);
      KidsFrame(v, v', At(v, a), NINDIR, l - 1);
    }
  }

  lemma {:induction false} KidsFrame(v: seq<Block>, v': seq<Block>, b: Block, i: nat, l: nat)
    requires i <= NINDIR
    requires forall x :: x in KidsIndex(v, b, i, l) ==> At(v', x) == At(v, x)
    ensures Kids(v', b, i, l) == Kids(v, b, i, l) && KidsIndex(v', b, i, l) == KidsIndex(v, b, i, l)
    ensures l <= 3 ==> forall k, off, m :: 0 <= k < i ==> Node(v', Addr(b, k), l, off, m) == Node(v, Addr(b, k), l, off, m)
    decreases l, i
  {
    hide Addr, Tree, Index, Node;
    if i != 0 {
      TreeFrame(v, v', Addr(b, i - 1), l);
      KidsFrame(v, v', b, i - 1, l);
    }
  }

  /** A data block that a path reaches is one of the tree's blocks, and not an index block. */
  lemma {:induction false} WalkInTree(v: seq<Block>, a: nat, l: nat, off: nat)
    requires l <= 3 && Once(multiset(Tree(v, a, l)))
    ensures var d := Walk(v, a, l, off); d != 0 ==> d in Tree(v, a, l) && d !in Index(v, a, l)
    decreases l
  {
    hide Addr, Tree, Kids, Digit, KidsIndex;
    TreeBase(v, a, l);
    if a == 0 || l == 0 {
      return;
    }
    TreeStep(v, a, l);
    var b, i := At(v, a), Digit(off, l);
    var d := Walk(v, Addr(b, i), l - 1, off);
    if d != 0 {
      KidsSplit(v, b, NINDIR, l - 1, i);
      OnceParts(multiset(Kids(v, b, NINDIR, l - 1)), multiset{a});
      OnceBelow(multiset(Tree(v, Addr(b, i), l - 1)), multiset(Kids(v, b, NINDIR, l - 1)));
      WalkInTree(v, Addr(b, i), l - 1, off);
      assert d in multiset(Tree(v, Addr(b, i), l - 1));
      assert d in multiset(Kids(v, b, NINDIR, l - 1));
      LeafNotKidsIndex(v, b, NINDIR, l - 1, i, d);
    }
  }

  lemma OnceBelow(a: multiset<nat>, b: multiset<nat>)
    requires Once(b) && a <= b
    ensures Once(a)
  {
    forall x
      ensures a[x] <= 1
    {
      assert a[x] <= b[x];
    }
  }

  lemma {:induction false} LeafNotKidsIndex(v: seq<Block>, b: Block, i: nat, l: nat, k: nat, d: nat)
    requires k < i <= NINDIR && Once(multiset(Kids(v, b, i, l)))
    requires d in Tree(v, Addr(b, k), l) && d !in Index(v, Addr(b, k), l)
    ensures d !in KidsIndex(v, b, i, l)
    decreases i
  {
    hide Addr, Tree, Kids, Index;
    var t, r := Tree(v, Addr(b, i - 1), l), Kids(v, b, i - 1, l);
    KidsStep(v, b, i, l);
    OnceParts(multiset(t), multiset(r));
    IndexInTree(v, Addr(b, i - 1), l);
    IndexInKids(v, b, i - 1, l);
    if k < i - 1 {
      KidsSplit(v, b, i - 1, l, k);
      assert d in multiset(Tree(v, Addr(b, k), l));
      assert d in multiset(r);
      assert d !in multiset(t);
      LeafNotKidsIndex(v, b, i - 1, l, k, d);
    } else {
      assert d in multiset(t);
      assert d !in multiset(r);
    }
  }

  /** Two different entries of an index block have no block in common. */
  lemma {:induction false} KidsApart(v: seq<Block>, b: Block, i: nat, l: nat, k: nat, k': nat, d: nat)
    requires k < k' < i <= NINDIR && Once(multiset(Kids(v, b, i, l)))
    ensures !(d in Tree(v, Addr(b, k), l) && d in Tree(v, Addr(b, k'), l))
    decreases i
  {
    hide Addr, Tree, Kids;
    KidsStep(v, b, i, l);
    OnceParts(multiset(Tree(v, Addr(b, i - 1), l)), multiset(Kids(v, b, i - 1, l)));
    if k' < i - 1 {
      KidsApart(v, b, i - 1, l, k, k', d);
    } else {
      KidsSplit(v, b, i - 1, l, k);
      if d in Tree(v, Addr(b, k), l) {
        assert d in multiset(Tree(v, Addr(b, k), l));
        assert d in multiset(Kids(v, b, i - 1, l));
      }
    }
  }

  /** Distinct logical blocks have distinct physical blocks. */
  lemma {:induction false} WalkInjective(v: seq<Block>, a: nat, l: nat, off: nat, off': nat)
    requires l <= 3 && Once(multiset(Tree(v, a, l)))
    requires Walk(v, a, l, off) == Walk(v, a, l, off') != 0
    ensures forall k :: 0 < k <= l ==> Digit(off, k) == Digit(off', k)
    decreases l
  {
    hide Addr, Tree, Kids, Digit, Index, KidsIndex, Node, At, Once;
    NodeStep(v, a, l, off, 0);
    NodeStep(v, a, l, off', 0);
    if l == 0 {
      return;
    }
    var b, i, j, d := At(v, a), Digit(off, l), Digit(off', l), Walk(v, a, l, off);
    OnceKids(v, a, l, i);
    OnceKids(v, a, l, j);
    WalkInTree(v, Addr(b, i), l - 1, off);
    WalkInTree(v, Addr(b, j), l - 1, off');
    if i != j {
      KidsApart(v, b, NINDIR, l - 1, if i < j then i else j, if i < j then j else i, d);
    } else {
      WalkInjective(v, Addr(b, i), l - 1, off, off');
    }
  }

  lemma OnceKids(v: seq<Block>, a: nat, l: nat, i: nat)
    requires l > 0 && a != 0 && Once(multiset(Tree(v, a, l))) && i < NINDIR
    ensures Once(multiset(Kids(v, At(v, a), NINDIR, l - 1))) && Once(multiset(Tree(v, Addr(At(v, a), i), l - 1)))
  {
    hide Addr, Tree, Kids, Once;
    var kids := multiset(Kids(v, At(v, a), NINDIR, l - 1));
    TreeStep(v, a, l);
    OnceParts(kids, multiset{a});
    KidsSplit(v, At(v, a), NINDIR, l - 1, i);
    OnceBelow(multiset(Tree(v, Addr(At(v, a), i), l - 1)), kids);
  }

  /** A cleared block holds no addresses: as an index block it is a tree of itself alone. */
  lemma {:induction false} ZeroKids(v: seq<Block>, i: nat, l: nat)
    requires i <= NINDIR
    ensures Kids(v, Zero(), i, l) == []
  {
    hide Tree, Addr;
    if i > 0 {
      AddrOfZero(i - 1);
      TreeBase(v, 0, l);
      ZeroKids(v, i - 1, l);
    }
  }

  lemma ZeroTree(v: seq<Block>, n: nat, l: nat, off: nat)
    requires n != 0 && At(v, n) == Zero() && l <= 3
    ensures Tree(v, n, l) == [n]
    ensures Walk(v, n, l, off) == if l == 0 then n else 0
  {
    hide Kids, Addr, Digit;
    ZeroKids(v, NINDIR, if l == 0 then 0 else l - 1);
    if l > 0 {
      AddrOfZero(Digit(off, l));
      NodeStep(v, n, l, off, 0);
      NodeStep(v, 0, l - 1, off, 0);
    }
  }

  lemma {:induction false} NodeInTree(v: seq<Block>, a: nat, l: nat, off: nat, m: nat)
    requires m <= l <= 3
    ensures var p := Node(v, a, l, off, m); p != 0 ==> p in multiset(Tree(v, a, l))
    decreases l
  {
    hide Addr, Tree, Kids, Digit;
    TreeBase(v, a, l);
    if a != 0 && l > 0 {
      TreeStep(v, a, l);
      if m < l {
        NodeInTree(v, Addr(At(v, a), Digit(off, l)), l - 1, off, m);
        KidsSplit(v, At(v, a), NINDIR, l - 1, Digit(off, l));
      }
    }
  }

  /** Changing one entry's tree by one block changes the index block's trees by that block. */
  lemma {:induction false} KidsUpdate(v: seq<Block>, v': seq<Block>, b: Block, b': Block, i: nat, l: nat, n: nat, k: nat)
    requires i < NINDIR && k <= NINDIR
    requires forall j :: 0 <= j < NINDIR && j != i ==> Tree(v', Addr(b', j), l) == Tree(v, Addr(b, j), l)
    requires multiset(Tree(v', Addr(b', i), l)) == multiset(Tree(v, Addr(b, i), l)) + multiset{n}
    ensures multiset(Kids(v', b', k, l)) == multiset(Kids(v, b, k, l)) + (if i < k then multiset{n} else multiset{})
    decreases k
  {
    hide Addr, Tree, Kids;
    if k == 0 {
      NoKids(v, b, l);
      NoKids(v', b', l);
    } else {
      KidsStep(v, b, k, l);
      KidsStep(v', b', k, l);
      KidsUpdate(v, v', b, b', i, l, n, k - 1);
    }
  }

  lemma NoKids(v: seq<Block>, b: Block, l: nat)
    ensures Kids(v, b, 0, l) == []
  {
    hide Tree;
  }

  lemma {:induction false} KidsIndexUpdate(v: seq<Block>, v': seq<Block>, b: Block, b': Block, l: nat, n: nat, k: nat)
    requires k <= NINDIR
    requires forall j :: 0 <= j < NINDIR ==> Index(v', Addr(b', j), l) <= Index(v, Addr(b, j), l) + {n}
    ensures KidsIndex(v', b', k, l) <= KidsIndex(v, b, k, l) + {n}
    decreases k
  {
    hide Addr, Index;
    if k > 0 {
      KidsIndexUpdate(v, v', b, b', l, n, k - 1);
    }
  }

  lemma ZeroIndex(v: seq<Block>, n: nat, l: nat)
    requires At(v, n) == Zero()
    ensures Index(v, n, l) <= {n}
  {
    hide KidsIndex;
    if l > 0 {
      ZeroKidsIndex(v, NINDIR, l - 1);
    }
  }

  lemma {:induction false} ZeroKidsIndex(v: seq<Block>, i: nat, l: nat)
    requires i <= NINDIR
    ensures KidsIndex(v, Zero(), i, l) == {}
  {
    hide Addr, Index;
    if i > 0 {
      AddrOfZero(i - 1);
      HoleIndex(v, l);
      ZeroKidsIndex(v, i - 1, l);
    }
  }

  lemma HoleIndex(v: seq<Block>, l: nat)
    ensures Index(v, 0, l) == {}
  {
    hide KidsIndex;
  }

  lemma IndexStep(v: seq<Block>, a: nat, l: nat)
    requires a != 0 && l > 0
    ensures Index(v, a, l) == KidsIndex(v, At(v, a), NINDIR, l - 1) + {a}
  {
    hide Addr, KidsIndex;
  }

  ghost predicate SameWalks(v: seq<Block>, v': seq<Block>, a: nat, a': nat, l: nat)
    requires l <= 3
  {
    forall o :: Walk(v', a', l, o) == Walk(v, a, l, o)
  }

  /** The entries other than i of index block b see neither a change to a block below entry i nor one off the tree. */
  lemma OtherKidFramed(v: seq<Block>, v': seq<Block>, b: Block, i: nat, l: nat, p: nat, n: nat, j: nat)
    requires i < NINDIR && j < NINDIR && j != i && Once(multiset(Kids(v, b, NINDIR, l))) && l <= 3
    requires p in Tree(v, Addr(b, i), l) || p !in Kids(v, b, NINDIR, l)
    requires n !in Kids(v, b, NINDIR, l)
    requires forall x: nat :: x != p && x != n ==> At(v', x) == At(v, x)
    ensures Tree(v', Addr(b, j), l) == Tree(v, Addr(b, j), l) && Index(v', Addr(b, j), l) == Index(v, Addr(b, j), l)
    ensures SameWalks(v, v', Addr(b, j), Addr(b, j), l)
  {
    hide Addr, Tree, Kids, Index, Node;
    IndexInTree(v, Addr(b, j), l);
    KidsSplit(v, b, NINDIR, l, j);
    forall x | x in Index(v, Addr(b, j), l)
      ensures At(v', x) == At(v, x)
    {
      assert x in multiset(Tree(v, Addr(b, j), l));
      assert x in multiset(Kids(v, b, NINDIR, l));
      if i < j { KidsApart(v, b, NINDIR, l, i, j, x); } else { KidsApart(v, b, NINDIR, l, j, i, x); }
    }
    TreeFrame(v, v', Addr(b, j), l);
  }

  /** off and off' take the same path through levels l, ..., 1. */
  ghost predicate SamePath(off: nat, off': nat, l: nat)
    requires l <= 3
  {
    forall k :: 0 < k <= l ==> Digit(off, k) == Digit(off', k)
  }

  /** bmap's `bap[i] = nb` on the path to data block off: block p of level m takes the new, cleared block n. */
  ghost predicate Grafted(v: seq<Block>, v': seq<Block>, p: nat, i: nat, n: nat)
    requires i < NINDIR
  {
    && 0 < n < 0x1_0000_0000 && n != p
    && Addr(At(v, p), i) == 0
    && At(v', p) == PutAddr(At(v, p), i, n)
    && At(v', n) == Zero()
    && forall x: nat :: x != p && x != n ==> At(v', x) == At(v, x)
  }

  ghost predicate GraftPre(v: seq<Block>, v': seq<Block>, a: nat, l: nat, off: nat, m: nat, n: nat) {
    && 0 < m <= l <= 3
    && Once(multiset(Tree(v, a, l))) && n !in Tree(v, a, l)
    && Node(v, a, l, off, m) != 0 && Grafted(v, v', Node(v, a, l, off, m), Digit(off, m), n)
  }

  lemma NodeStep(v: seq<Block>, a: nat, l: nat, off: nat, m: nat)
    requires l <= 3
    ensures m >= l || a == 0 ==> Node(v, a, l, off, m) == a
    ensures m < l && a != 0 ==> Node(v, a, l, off, m) == Node(v, Addr(At(v, a), Digit(off, l)), l - 1, off, m)
  {
  }

  /** The situation of a graft at the top index block. */
  lemma GraftTop(v: seq<Block>, v': seq<Block>, a: nat, l: nat, off: nat, m: nat, n: nat)
    requires GraftPre(v, v', a, l, off, m, n)
    ensures a != 0 && a != n && n !in Kids(v, At(v, a), NINDIR, l - 1)
    ensures Once(multiset(Kids(v, At(v, a), NINDIR, l - 1)))
    ensures m == l ==> Node(v, a, l, off, m) == a && a !in Kids(v, At(v, a), NINDIR, l - 1)
    ensures m < l ==> var c := Addr(At(v, a), Digit(off, l));
                      At(v', a) == At(v, a) && GraftPre(v, v', c, l - 1, off, m, n)
                      && Node(v, c, l - 1, off, m) == Node(v, a, l, off, m) && Node(v, a, l, off, m) in Tree(v, c, l - 1)
  {
    hide Addr, PutAddr, Tree, Kids, Digit, Zero, Node, At, Index;
    NodeStep(v, a, l, off, m);
    TreeStep(v, a, l);
    var kids := multiset(Kids(v, At(v, a), NINDIR, l - 1));
    OnceParts(kids, multiset{a});
    assert n !in multiset(Tree(v, a, l));
    if m < l {
      var c := Addr(At(v, a), Digit(off, l));
      KidsSplit(v, At(v, a), NINDIR, l - 1, Digit(off, l));
      OnceBelow(multiset(Tree(v, c, l - 1)), kids);
      NodeInTree(v, c, l - 1, off, m);
      assert n !in multiset(Tree(v, c, l - 1));
    }
  }

  lemma GraftOther(v: seq<Block>, v': seq<Block>, a: nat, l: nat, off: nat, m: nat, n: nat, j: nat)
    requires GraftPre(v, v', a, l, off, m, n) && j < NINDIR && j != Digit(off, l)
    ensures Tree(v', Addr(At(v', a), j), l - 1) == Tree(v, Addr(At(v, a), j), l - 1)
    ensures Index(v', Addr(At(v', a), j), l - 1) == Index(v, Addr(At(v, a), j), l - 1)
    ensures SameWalks(v, v', Addr(At(v, a), j), Addr(At(v', a), j), l - 1)
  {
    hide Addr, PutAddr, Tree, Kids, Digit, Zero, Node, At, Index;
    GraftTop(v, v', a, l, off, m, n);
    if m == l {
      AddrOfPut(At(v, a), Digit(off, l), n, j);
    }
    OtherKidFramed(v, v', At(v, a), Digit(off, l), l - 1, Node(v, a, l, off, m), n, j);
  }

  lemma {:induction false} GraftEntry(v: seq<Block>, v': seq<Block>, a: nat, l: nat, off: nat, m: nat, n: nat)
    requires GraftPre(v, v', a, l, off, m, n)
    ensures var c, c' := Addr(At(v, a), Digit(off, l)), Addr(At(v', a), Digit(off, l));
      && multiset(Tree(v', c', l - 1)) == multiset(Tree(v, c, l - 1)) + multiset{n}
      && Index(v', c', l - 1) <= Index(v, c, l - 1) + {n}
      && (m == l ==> c' == n)
      && (m < l ==> Node(v', c', l - 1, off, m) == Node(v, a, l, off, m) && Node(v', c', l - 1, off, m - 1) == n)
      && forall o :: Digit(o, l) == Digit(off, l) ==>
           Walk(v', c', l - 1, o) == if m == 1 && SamePath(off, o, l) then n else Walk(v, c, l - 1, o)
    decreases l, 0
  {
    hide Addr, PutAddr, Tree, Kids, Digit, Zero, Node, At, Index;
    GraftTop(v, v', a, l, off, m, n);
    var i := Digit(off, l);
    if m == l {
      AddrOfPut(At(v, a), i, n, i);
      TreeBase(v, 0, l - 1);
      forall o | Digit(o, l) == i
        ensures Walk(v', n, l - 1, o) == if m == 1 && SamePath(off, o, l) then n else Walk(v, 0, l - 1, o)
      {
        ZeroTree(v', n, l - 1, o);
        NodeStep(v, 0, l - 1, o, 0);
      }
      ZeroTree(v', n, l - 1, off);
      ZeroIndex(v', n, l - 1);
    } else {
      Graft(v, v', Addr(At(v, a), i), l - 1, off, m, n);
    }
  }

  /** A graft adds exactly the new block to the tree, and changes the mapping of at most the one data block aimed at. */
  lemma {:induction false} Graft(v: seq<Block>, v': seq<Block>, a: nat, l: nat, off: nat, m: nat, n: nat)
    requires GraftPre(v, v', a, l, off, m, n)
    ensures multiset(Tree(v', a, l)) == multiset(Tree(v, a, l)) + multiset{n}
    ensures Index(v', a, l) <= Index(v, a, l) + {n}
    ensures Node(v', a, l, off, m) == Node(v, a, l, off, m) && Node(v', a, l, off, m - 1) == n
    ensures forall o :: Walk(v', a, l, o) == if m == 1 && SamePath(off, o, l) then n else Walk(v, a, l, o)
    decreases l, 1
  {
    hide Addr, PutAddr, Tree, Kids, Digit, Zero, Node, At, Grafted, Index, KidsIndex;
    var b, b', i := At(v, a), At(v', a), Digit(off, l);
    GraftTop(v, v', a, l, off, m, n);
    TreeStep(v, a, l);
    TreeStep(v', a, l);
    GraftEntry(v, v', a, l, off, m, n);
    forall j | 0 <= j < NINDIR && j != i
      ensures Tree(v', Addr(b', j), l - 1) == Tree(v, Addr(b, j), l - 1)
      ensures Index(v', Addr(b', j), l - 1) == Index(v, Addr(b, j), l - 1)
      ensures SameWalks(v, v', Addr(b, j), Addr(b', j), l - 1)
    {
      GraftOther(v, v', a, l, off, m, n, j);
    }
    KidsUpdate(v, v', b, b', i, l - 1, n, NINDIR);
    KidsIndexUpdate(v, v', b, b', l - 1, n, NINDIR);
    IndexStep(v, a, l);
    IndexStep(v', a, l);
    forall o
      ensures Walk(v', a, l, o) == if m == 1 && SamePath(off, o, l) then n else Walk(v, a, l, o)
    {
      NodeStep(v, a, l, o, 0);
      NodeStep(v', a, l, o, 0);
      var c, c' := Addr(b, Digit(o, l)), Addr(b', Digit(o, l));
      assert Digit(o, l) != i ==> Walk(v', c', l - 1, o) == Walk(v, c, l - 1, o);
      assert Walk(v, a, l, o) == Walk(v, c, l - 1, o) && Walk(v', a, l, o) == Walk(v', c', l - 1, o);
      assert Digit(o, l) != i ==> !SamePath(off, o, l);
    }
    NodeStep(v', a, l, off, m);
    NodeStep(v', a, l, off, m - 1);
    NodeStep(v', n, l - 1, off, m - 1);
  }
}
