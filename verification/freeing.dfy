/** The order in which itrunc and tloop give a file's blocks back, and so the order in which alloc hands them out again. */
module FreeingOrder {
  import opened Blocks
  import opened Trees
  import opened Files

  /** x stands before y. */
  ghost predicate Before(q: seq<nat>, x: nat, y: nat) {
    exists i, j :: 0 <= i < j < |q| && q[i] == x && q[j] == y
  }

  lemma BeforeAcross(p: seq<nat>, q: seq<nat>, x: nat, y: nat)
    requires x in p && y in q
    ensures Before(p + q, x, y)
  {
    var i :| 0 <= i < |p| && p[i] == x;
    var j :| 0 <= j < |q| && q[j] == y;
    assert (p + q)[i] == x && (p + q)[|p| + j] == y;
  }

  lemma BeforeWithin(p: seq<nat>, q: seq<nat>, x: nat, y: nat)
    ensures Before(p, x, y) || Before(q, x, y) ==> Before(p + q, x, y)
  {
    if Before(p, x, y) {
      var i, j :| 0 <= i < j < |p| && p[i] == x && p[j] == y;
      assert (p + q)[i] == x && (p + q)[j] == y;
    }
    if Before(q, x, y) {
      var i, j :| 0 <= i < j < |q| && q[i] == x && q[j] == y;
      assert (p + q)[|p| + i] == x && (p + q)[|p| + j] == y;
    }
  }

  /** The subtrees of an index block go last entry first. */
  lemma {:induction false} KidsOrder(v: seq<Block>, b: Block, i: nat, l: nat, d: nat, d': nat, x: nat, x': nat)
    requires d <= d' < i <= NINDIR
    requires if d == d' then Before(Tree(v, Addr(b, d), l), x', x) else x in Tree(v, Addr(b, d), l) && x' in Tree(v, Addr(b, d'), l)
    ensures Before(Kids(v, b, i, l), x', x)
    decreases i
  {
    hide Addr, Tree, Kids, Before;
    KidsStep(v, b, i, l);
    var t, rest := Tree(v, Addr(b, i - 1), l), Kids(v, b, i - 1, l);
    BeforeWithin(t, rest, x', x);
    if d' < i - 1 {
      KidsOrder(v, b, i - 1, l, d, d', x, x');
    } else if d < d' {
      KidsSplit(v, b, i - 1, l, d);
      assert x in multiset(Tree(v, Addr(b, d), l));
      assert x in multiset(rest);
      BeforeAcross(t, rest, x', x);
    }
  }

  /** The path of off comes before that of off' in an index tree of level l. */
  predicate Sooner(off: nat, off': nat, l: nat)
    requires l <= 3
  {
    l > 0 && (Digit(off, l) < Digit(off', l) || (Digit(off, l) == Digit(off', l) && Sooner(off, off', l - 1)))
  }

  lemma OffsetSooner(off: nat, off': nat, l: nat)
    requires l <= 3 && off < off' < Span(l)
    ensures Sooner(off, off', l)
  {
    Digits(off);
    Digits(off');
    hide Digit;
    if l >= 2 && Digit(off, l) == Digit(off', l) {
      assert l == 3 ==> Digit(off, 2) < Digit(off', 2) || (Digit(off, 2) == Digit(off', 2) && Digit(off, 1) < Digit(off', 1));
      assert Sooner(off, off', l - 1);
    }
  }

  lemma {:induction false} TreeOrder(v: seq<Block>, a: nat, l: nat, off: nat, off': nat)
    requires l <= 3 && Sooner(off, off', l) && Walk(v, a, l, off) != 0 && Walk(v, a, l, off') != 0
    ensures Before(Tree(v, a, l), Walk(v, a, l, off'), Walk(v, a, l, off))
    decreases l
  {
    hide Addr, Tree, Kids, Digit, Before, Node;
    NodeStep(v, a, l, off, 0);
    NodeStep(v, a, l, off', 0);
    TreeStep(v, a, l);
    var b, d, d' := At(v, a), Digit(off, l), Digit(off', l);
    var x, x' := Walk(v, a, l, off), Walk(v, a, l, off');
    NodeInTree(v, Addr(b, d), l - 1, off, 0);
    NodeInTree(v, Addr(b, d'), l - 1, off', 0);
    if d == d' {
      TreeOrder(v, Addr(b, d), l - 1, off, off');
    } else {
      assert x in multiset(Tree(v, Addr(b, d), l - 1)) && x' in multiset(Tree(v, Addr(b, d'), l - 1));
    }
    KidsOrder(v, b, NINDIR, l - 1, d, d', x, x');
    BeforeWithin(Kids(v, b, NINDIR, l - 1), [a], x', x);
  }

  /** An index block goes after everything below it. */
  lemma IndexLast(v: seq<Block>, a: nat, l: nat, x: nat)
    requires a != 0 && x in Tree(v, a, l)
    ensures Tree(v, a, l)[|Tree(v, a, l)| - 1] == a && (x == a || Before(Tree(v, a, l), x, a))
  {
    hide Kids, Tree, Before;
    TreeBase(v, a, l);
    if l > 0 {
      TreeStep(v, a, l);
      if x != a {
        BeforeAcross(Kids(v, At(v, a), NINDIR, l - 1), [a], x, a);
      }
    }
  }

  lemma {:induction false} SlotsOrder(v: seq<Block>, addr: seq<nat>, i: nat, s: nat, s': nat, x: nat, x': nat)
    requires s <= s' < i <= NADDR == |addr|
    requires if s == s' then Before(Tree(v, addr[s], Level(s)), x', x) else x in Tree(v, addr[s], Level(s)) && x' in Tree(v, addr[s'], Level(s'))
    ensures Before(FileTree(v, addr, i), x', x)
    decreases i
  {
    hide Tree, FileTree, Before;
    FileStep(v, addr, i);
    var t, rest := Tree(v, addr[i - 1], Level(i - 1)), FileTree(v, addr, i - 1);
    BeforeWithin(t, rest, x', x);
    if s' < i - 1 {
      SlotsOrder(v, addr, i - 1, s, s', x, x');
    } else if s < s' {
      FileSplit(v, addr, i - 1, s);
      assert x in multiset(Tree(v, addr[s], Level(s)));
      assert x in multiset(rest);
      BeforeAcross(t, rest, x', x);
    }
  }

  /**
   itrunc frees a file's data blocks from the last to the first, so that on the free stack the first block of the file
   is the nearest to the top and a file written next has them in the order the old one had.
   */
  lemma FileOrder(v: seq<Block>, addr: seq<nat>, bn: nat, bn': nat)
    requires |addr| == NADDR && bn < bn' < MAXBN && Lookup(v, addr, bn) != 0 && Lookup(v, addr, bn') != 0
    ensures Before(FileTree(v, addr, NADDR), Lookup(v, addr, bn'), Lookup(v, addr, bn))
  {
    hide Tree, FileTree, Before, Node;
    var s, s' := SlotOf(bn), SlotOf(bn');
    var x, x' := Lookup(v, addr, bn), Lookup(v, addr, bn');
    NodeInTree(v, addr[s], Level(s), OffOf(bn), 0);
    NodeInTree(v, addr[s'], Level(s'), OffOf(bn'), 0);
    assert x in multiset(Tree(v, addr[s], Level(s))) && x' in multiset(Tree(v, addr[s'], Level(s')));
    if s == s' {
      OffsetSooner(OffOf(bn), OffOf(bn'), Level(s));
      TreeOrder(v, addr[s], Level(s), OffOf(bn), OffOf(bn'));
    }
    SlotsOrder(v, addr, NADDR, s, s', x, x');
  }
}
