/** The NADDR addresses of an inode: ten data blocks, then a single, a double and a triple indirect block. */
module Files {
  import opened Blocks
  import opened Trees

  /** Logical blocks 0..MAXBN-1 have a place in the map. */
  const MAXBN := 2113674

  function Level(s: nat): (l: nat)
    requires s < NADDR
    ensures l <= 3
  {
    if s < 10 then 0 else s - 9
  }

  /** The inode address that logical block bn hangs from. */
  function SlotOf(bn: nat): (s: nat)
    ensures s < NADDR
  {
    if bn < 10 then bn else if bn < 138 then 10 else if bn < 16522 then 11 else 12
  }

  /** Where bn lies among the data blocks below that address. */
  function OffOf(bn: nat): (off: nat)
    ensures bn < MAXBN ==> off < Span(Level(SlotOf(bn)))
  {
    if bn < 10 then 0 else if bn < 138 then bn - 10 else if bn < 16522 then bn - 138 else bn - 16522
  }

  function BlockAt(s: nat, off: nat): (bn: nat)
    requires s < NADDR && off < Span(Level(s))
    ensures bn < MAXBN
  {
    if s < 10 then s else if s == 10 then off + 10 else if s == 11 then off + 138 else off + 16522
  }

  /** The level-and-index arithmetic is a bijection between logical blocks and paths. */
  lemma PathBijection(bn: nat, bn': nat, s: nat, off: nat)
    requires bn < MAXBN && bn' < MAXBN && s < NADDR && off < Span(Level(s))
    ensures BlockAt(SlotOf(bn), OffOf(bn)) == bn
    ensures SlotOf(BlockAt(s, off)) == s && OffOf(BlockAt(s, off)) == off
    ensures SlotOf(bn) == SlotOf(bn') && SamePath(OffOf(bn), OffOf(bn'), Level(SlotOf(bn))) ==> bn == bn'
  {
    if SlotOf(bn) == SlotOf(bn') && SamePath(OffOf(bn), OffOf(bn'), Level(SlotOf(bn))) {
      DigitsDetermine(OffOf(bn), OffOf(bn'), Level(SlotOf(bn)));
    }
  }

  /** Every address slot and every choice of indices below it is the path of some logical block. */
  lemma PathOnto(s: nat, d1: nat, d2: nat, d3: nat) returns (bn: nat)
    requires s < NADDR && d1 < 128 && d2 < 128 && d3 < 128
    requires (Level(s) < 1 ==> d1 == 0) && (Level(s) < 2 ==> d2 == 0) && (Level(s) < 3 ==> d3 == 0)
    ensures bn < MAXBN && SlotOf(bn) == s
    ensures Level(s) >= 1 ==> Digit(OffOf(bn), 1) == d1
    ensures Level(s) >= 2 ==> Digit(OffOf(bn), 2) == d2
    ensures Level(s) >= 3 ==> Digit(OffOf(bn), 3) == d3
  {
    DigitsReach(d1, d2, d3);
    var off := d3 * 16384 + d2 * 128 + d1;
    hide Digit;
    bn := BlockAt(s, off);
    PathBijection(0, 0, s, off);
  }

  /** The addresses of a file with no blocks. */
  function Holes(): (addr: seq<nat>)
    ensures |addr| == NADDR && forall k :: 0 <= k < NADDR ==> addr[k] == 0
  {
    seq(NADDR, i => 0)
  }

  ghost function Lookup(v: seq<Block>, addr: seq<nat>, bn: nat): nat
    requires |addr| == NADDR
  {
    Walk(v, addr[SlotOf(bn)], Level(SlotOf(bn)), OffOf(bn))
  }

  /**
   Where logical block bn hangs: the first ten from the inode's own addresses in turn, the next 128 from the index
   block at address 10, the next 128^2 below address 11 and the rest below address 12, in order.
   */
  lemma LookupIs(v: seq<Block>, addr: seq<nat>, bn: nat)
    requires |addr| == NADDR && bn < MAXBN
    ensures bn < 10 ==> Lookup(v, addr, bn) == addr[bn]
    ensures 10 <= bn < 138 ==> Lookup(v, addr, bn) == Entry(v, addr[10], bn - 10)
    ensures 138 <= bn < 16522 ==> Lookup(v, addr, bn) == Entry(v, Entry(v, addr[11], (bn - 138) / 128), (bn - 138) % 128)
    ensures 16522 <= bn ==>
      Lookup(v, addr, bn) == Entry(v, Entry(v, Entry(v, addr[12], (bn - 16522) / 16384), (bn - 16522) / 128 % 128), (bn - 16522) % 128)
  {
    hide Walk, Entry;
    WalkIs(v, addr[SlotOf(bn)], OffOf(bn));
  }

  /** Every block of the file, in the order itrunc frees them. */
  ghost function FileTree(v: seq<Block>, addr: seq<nat>, i: nat): seq<nat>
    requires i <= NADDR == |addr|
  {
    if i == 0 then [] else Tree(v, addr[i - 1], Level(i - 1)) + FileTree(v, addr, i - 1)
  }

  ghost function FileIndex(v: seq<Block>, addr: seq<nat>, i: nat): set<nat>
    requires i <= NADDR == |addr|
  {
    if i == 0 then {} else Index(v, addr[i - 1], Level(i - 1)) + FileIndex(v, addr, i - 1)
  }

  lemma FileStep(v: seq<Block>, addr: seq<nat>, i: nat)
    requires 0 < i <= NADDR == |addr|
    ensures FileTree(v, addr, i) == Tree(v, addr[i - 1], Level(i - 1)) + FileTree(v, addr, i - 1)
    ensures multiset(FileTree(v, addr, i)) == multiset(Tree(v, addr[i - 1], Level(i - 1))) + multiset(FileTree(v, addr, i - 1))
  {
    hide Tree;
  }

  lemma {:induction false} FileSplit(v: seq<Block>, addr: seq<nat>, i: nat, k: nat)
    requires k < i <= NADDR == |addr|
    ensures multiset(Tree(v, addr[k], Level(k))) <= multiset(FileTree(v, addr, i))
    ensures Index(v, addr[k], Level(k)) <= FileIndex(v, addr, i)
    decreases i
  {
    hide Tree, FileTree, Index;
    FileStep(v, addr, i);
    if k < i - 1 {
      FileSplit(v, addr, i - 1, k);
    }
  }

  lemma {:induction false} FileIndexInTree(v: seq<Block>, addr: seq<nat>, i: nat)
    requires i <= NADDR == |addr|
    ensures forall x :: x in FileIndex(v, addr, i) ==> x in FileTree(v, addr, i)
  {
    hide Tree, Index;
    if i > 0 {
      IndexInTree(v, addr[i - 1], Level(i - 1));
      FileIndexInTree(v, addr, i - 1);
    }
  }

  /** Different inode addresses have no block in common. */
  lemma {:induction false} FileApart(v: seq<Block>, addr: seq<nat>, i: nat, k: nat, k': nat, d: nat)
    requires k < k' < i <= NADDR == |addr| && Once(multiset(FileTree(v, addr, i)))
    ensures !(d in Tree(v, addr[k], Level(k)) && d in Tree(v, addr[k'], Level(k')))
    decreases i
  {
    hide Tree, FileTree, Index, FileIndex;
    FileStep(v, addr, i);
    OnceParts(multiset(Tree(v, addr[i - 1], Level(i - 1))), multiset(FileTree(v, addr, i - 1)));
    if k' < i - 1 {
      FileApart(v, addr, i - 1, k, k', d);
    } else {
      FileSplit(v, addr, i - 1, k);
      if d in Tree(v, addr[k], Level(k)) {
        assert d in multiset(Tree(v, addr[k], Level(k)));
        assert d in multiset(FileTree(v, addr, i - 1));
      }
    }
  }

  /** A file's map depends only on its addresses and its index blocks. */
  lemma {:induction false} FileFrame(v: seq<Block>, v': seq<Block>, addr: seq<nat>, i: nat)
    requires i <= NADDR == |addr|
    requires forall x :: x in FileIndex(v, addr, i) ==> At(v', x) == At(v, x)
    ensures FileTree(v', addr, i) == FileTree(v, addr, i) && FileIndex(v', addr, i) == FileIndex(v, addr, i)
    ensures forall bn :: SlotOf(bn) < i ==> Lookup(v', addr, bn) == Lookup(v, addr, bn)
  {
    hide Tree, Index, Node, SlotOf, OffOf, At;
    if i > 0 {
      TreeFrame(v, v', addr[i - 1], Level(i - 1));
      FileFrame(v, v', addr, i - 1);
      forall bn | SlotOf(bn) < i
        ensures Lookup(v', addr, bn) == Lookup(v, addr, bn)
      {
      }
    }
  }

  /** A mapped block is one of the file's blocks, and not an index block. */
  lemma LookupInTree(v: seq<Block>, addr: seq<nat>, bn: nat)
    requires |addr| == NADDR && Once(multiset(FileTree(v, addr, NADDR)))
    ensures var d := Lookup(v, addr, bn); d != 0 ==> d in FileTree(v, addr, NADDR) && d !in FileIndex(v, addr, NADDR)
  {
    hide Tree, FileTree, Index, FileIndex, Node, SlotOf, OffOf, Level;
    var s, d := SlotOf(bn), Lookup(v, addr, bn);
    FileSplit(v, addr, NADDR, s);
    OnceBelow(multiset(Tree(v, addr[s], Level(s))), multiset(FileTree(v, addr, NADDR)));
    WalkInTree(v, addr[s], Level(s), OffOf(bn));
    if d != 0 {
      assert d in multiset(Tree(v, addr[s], Level(s)));
      assert d in multiset(FileTree(v, addr, NADDR));
      NotFileIndex(v, addr, NADDR, s, d);
    }
  }

  lemma {:induction false} NotFileIndex(v: seq<Block>, addr: seq<nat>, i: nat, k: nat, d: nat)
    requires k < NADDR == |addr| && i <= NADDR && Once(multiset(FileTree(v, addr, NADDR)))
    requires d in Tree(v, addr[k], Level(k)) && d !in Index(v, addr[k], Level(k))
    ensures d !in FileIndex(v, addr, i)
    decreases i
  {
    hide Tree, FileTree, Index, Level;
    if i > 0 {
      NotFileIndex(v, addr, i - 1, k, d);
      IndexInTree(v, addr[i - 1], Level(i - 1));
      if k < i - 1 {
        FileApart(v, addr, NADDR, k, i - 1, d);
      } else if i - 1 < k {
        FileApart(v, addr, NADDR, i - 1, k, d);
      }
    }
  }

  /** Distinct logical blocks get distinct physical blocks. */
  lemma LookupInjective(v: seq<Block>, addr: seq<nat>, bn: nat, bn': nat)
    requires |addr| == NADDR && Once(multiset(FileTree(v, addr, NADDR))) && bn < MAXBN && bn' < MAXBN
    requires Lookup(v, addr, bn) == Lookup(v, addr, bn') != 0
    ensures bn == bn'
  {
    hide Tree, FileTree, Index, FileIndex, Node, SlotOf, OffOf, Level, Digit;
    var s, s', d := SlotOf(bn), SlotOf(bn'), Lookup(v, addr, bn);
    var all := multiset(FileTree(v, addr, NADDR));
    FileSplit(v, addr, NADDR, s);
    FileSplit(v, addr, NADDR, s');
    OnceBelow(multiset(Tree(v, addr[s], Level(s))), all);
    OnceBelow(multiset(Tree(v, addr[s'], Level(s'))), all);
    WalkInTree(v, addr[s], Level(s), OffOf(bn));
    WalkInTree(v, addr[s'], Level(s'), OffOf(bn'));
    if s < s' {
      FileApart(v, addr, NADDR, s, s', d);
    } else if s' < s {
      FileApart(v, addr, NADDR, s', s, d);
    } else {
      WalkInjective(v, addr[s], Level(s), OffOf(bn), OffOf(bn'));
      PathBijection(bn, bn', s, OffOf(bn));
    }
  }

  /** Changing one address's tree by one block changes the file by that block. */
  lemma {:induction false} FileUpdate(v: seq<Block>, v': seq<Block>, addr: seq<nat>, addr': seq<nat>, s: nat, n: nat, k: nat)
    requires s < NADDR == |addr| == |addr'| && k <= NADDR
    requires forall j :: 0 <= j < NADDR && j != s ==> Tree(v', addr'[j], Level(j)) == Tree(v, addr[j], Level(j))
    requires forall j :: 0 <= j < NADDR && j != s ==> Index(v', addr'[j], Level(j)) == Index(v, addr[j], Level(j))
    requires multiset(Tree(v', addr'[s], Level(s))) == multiset(Tree(v, addr[s], Level(s))) + multiset{n}
    requires Index(v', addr'[s], Level(s)) <= Index(v, addr[s], Level(s)) + {n}
    ensures multiset(FileTree(v', addr', k)) == multiset(FileTree(v, addr, k)) + (if s < k then multiset{n} else multiset{})
    ensures FileIndex(v', addr', k) <= FileIndex(v, addr, k) + {n}
    decreases k
  {
    hide Tree, Index, Level, FileTree;
    if k > 0 {
      FileStep(v, addr, k);
      FileStep(v', addr', k);
      FileUpdate(v, v', addr, addr', s, n, k - 1);
    } else {
      NoFileTree(v, addr);
      NoFileTree(v', addr');
    }
  }

  lemma NoFileTree(v: seq<Block>, addr: seq<nat>)
    requires |addr| == NADDR
    ensures FileTree(v, addr, 0) == [] && FileIndex(v, addr, 0) == {}
  {
  }

  /** A change below address s, or off the file, is not seen below another address. */
  lemma OtherSlotFramed(v: seq<Block>, v': seq<Block>, addr: seq<nat>, s: nat, p: nat, n: nat, j: nat)
    requires s < NADDR == |addr| && j < NADDR && j != s && Once(multiset(FileTree(v, addr, NADDR)))
    requires p in Tree(v, addr[s], Level(s)) || p !in FileTree(v, addr, NADDR)
    requires n !in FileTree(v, addr, NADDR)
    requires forall x: nat :: x != p && x != n ==> At(v', x) == At(v, x)
    ensures Tree(v', addr[j], Level(j)) == Tree(v, addr[j], Level(j)) && Index(v', addr[j], Level(j)) == Index(v, addr[j], Level(j))
    ensures SameWalks(v, v', addr[j], addr[j], Level(j))
  {
    hide Tree, FileTree, Index, FileIndex, Node, Level, At;
    IndexInTree(v, addr[j], Level(j));
    FileSplit(v, addr, NADDR, j);
    forall x | x in Index(v, addr[j], Level(j))
      ensures At(v', x) == At(v, x)
    {
      assert x in multiset(Tree(v, addr[j], Level(j)));
      assert x in multiset(FileTree(v, addr, NADDR));
      if s < j { FileApart(v, addr, NADDR, s, j, x); } else { FileApart(v, addr, NADDR, j, s, x); }
    }
    TreeFrame(v, v', addr[j], Level(j));
  }

  /** bmap's `i_addr[i] = nb`: an empty address takes a cleared block. */
  lemma GrowRoot(v: seq<Block>, v': seq<Block>, addr: seq<nat>, s: nat, n: nat)
    requires s < NADDR == |addr| && addr[s] == 0 && 0 < n && At(v', n) == Zero()
    requires Once(multiset(FileTree(v, addr, NADDR))) && n !in FileTree(v, addr, NADDR)
    requires forall x: nat :: x != n ==> At(v', x) == At(v, x)
    ensures multiset(FileTree(v', addr[s := n], NADDR)) == multiset(FileTree(v, addr, NADDR)) + multiset{n}
    ensures FileIndex(v', addr[s := n], NADDR) <= FileIndex(v, addr, NADDR) + {n}
    ensures forall bn :: Lookup(v', addr[s := n], bn) == if SlotOf(bn) == s && Level(s) == 0 then n else Lookup(v, addr, bn)
  {
    hide Tree, FileTree, Index, FileIndex, Node, At, Zero, SlotOf, OffOf, Level;
    var addr' := addr[s := n];
    forall j | 0 <= j < NADDR && j != s
      ensures Tree(v', addr'[j], Level(j)) == Tree(v, addr[j], Level(j)) && Index(v', addr'[j], Level(j)) == Index(v, addr[j], Level(j))
      ensures SameWalks(v, v', addr[j], addr'[j], Level(j))
    {
      OtherSlotFramed(v, v', addr, s, n, n, j);
    }
    ZeroTree(v', n, Level(s), 0);
    ZeroIndex(v', n, Level(s));
    TreeBase(v, 0, Level(s));
    HoleIndex(v, Level(s));
    FileUpdate(v, v', addr, addr', s, n, NADDR);
    forall bn
      ensures Lookup(v', addr', bn) == if SlotOf(bn) == s && Level(s) == 0 then n else Lookup(v, addr, bn)
    {
      ZeroTree(v', n, Level(s), OffOf(bn));
      NodeStep(v, 0, Level(s), OffOf(bn), 0);
    }
  }

  /** bmap's `bap[i] = nb` on the path to logical block bn. */
  lemma GrowInner(v: seq<Block>, v': seq<Block>, addr: seq<nat>, bn: nat, m: nat, n: nat)
    requires |addr| == NADDR && bn < MAXBN && 0 < m <= Level(SlotOf(bn))
    requires Once(multiset(FileTree(v, addr, NADDR))) && n !in FileTree(v, addr, NADDR)
    requires var p := Node(v, addr[SlotOf(bn)], Level(SlotOf(bn)), OffOf(bn), m);
      p != 0 && Grafted(v, v', p, Digit(OffOf(bn), m), n)
    ensures multiset(FileTree(v', addr, NADDR)) == multiset(FileTree(v, addr, NADDR)) + multiset{n}
    ensures FileIndex(v', addr, NADDR) <= FileIndex(v, addr, NADDR) + {n}
    ensures Node(v', addr[SlotOf(bn)], Level(SlotOf(bn)), OffOf(bn), m - 1) == n
    ensures Node(v', addr[SlotOf(bn)], Level(SlotOf(bn)), OffOf(bn), m) == Node(v, addr[SlotOf(bn)], Level(SlotOf(bn)), OffOf(bn), m)
    ensures forall o :: 0 <= o < MAXBN ==> Lookup(v', addr, o) == if m == 1 && o == bn then n else Lookup(v, addr, o)
  {
    hide Tree, FileTree, Index, FileIndex, Node, At, Zero, SlotOf, OffOf, Level, Digit, Addr, PutAddr, BlockAt;
    var s, off := SlotOf(bn), OffOf(bn);
    var l := Level(s);
    var p := Node(v, addr[s], l, off, m);
    FileSplit(v, addr, NADDR, s);
    OnceBelow(multiset(Tree(v, addr[s], l)), multiset(FileTree(v, addr, NADDR)));
    NodeInTree(v, addr[s], l, off, m);
    assert n !in multiset(FileTree(v, addr, NADDR));
    assert n !in multiset(Tree(v, addr[s], l));
    Graft(v, v', addr[s], l, off, m, n);
    forall j | 0 <= j < NADDR && j != s
      ensures Tree(v', addr[j], Level(j)) == Tree(v, addr[j], Level(j)) && Index(v', addr[j], Level(j)) == Index(v, addr[j], Level(j))
      ensures SameWalks(v, v', addr[j], addr[j], Level(j))
    {
      OtherSlotFramed(v, v', addr, s, p, n, j);
    }
    FileUpdate(v, v', addr, addr, s, n, NADDR);
    forall o | 0 <= o < MAXBN
      ensures Lookup(v', addr, o) == if m == 1 && o == bn then n else Lookup(v, addr, o)
    {
      PathBijection(o, bn, s, off);
    }
  }

  /**
   What bmap may have done on the way to logical block bn, from (v0, addr0, st0): blocks moved from
   the free stack into the file and nowhere else, no other logical block's mapping changed, no block
   changed but index blocks of the file and blocks taken from the stack, nothing if bn was mapped.
   */
  ghost predicate Grown(v0: seq<Block>, addr0: seq<nat>, st0: seq<nat>, v: seq<Block>, addr: seq<nat>, st: seq<nat>, bn: nat) {
    && |addr0| == |addr| == NADDR && |v| == |v0|
    && multiset(st) + multiset(FileTree(v, addr, NADDR)) == multiset(st0) + multiset(FileTree(v0, addr0, NADDR))
    && st <= st0
    && (forall o :: 0 <= o < MAXBN && o != bn ==> Lookup(v, addr, o) == Lookup(v0, addr0, o))
    && (forall x: nat :: x !in FileIndex(v0, addr0, NADDR) && x !in st0 ==> At(v, x) == At(v0, x))
    && (forall x :: x in FileIndex(v, addr, NADDR) ==> x in FileIndex(v0, addr0, NADDR) || x in st0)
    && (Lookup(v0, addr0, bn) != 0 ==> v == v0 && addr == addr0 && st == st0)
  }

  lemma GrownNot(v: seq<Block>, addr: seq<nat>, st: seq<nat>, bn: nat)
    requires |addr| == NADDR
    ensures Grown(v, addr, st, v, addr, st, bn)
  {
  }

  /** One more block n, taken from the top of the stack, put into the file below block p or into the inode. */
  lemma GrownMore(v0: seq<Block>, addr0: seq<nat>, st0: seq<nat>, v1: seq<Block>, addr1: seq<nat>, st1: seq<nat>,
                  v2: seq<Block>, addr2: seq<nat>, st2: seq<nat>, bn: nat, n: nat, p: nat)
    requires Grown(v0, addr0, st0, v1, addr1, st1, bn) && Lookup(v0, addr0, bn) == 0
    requires |addr2| == NADDR && |v2| == |v1| && st1 == st2 + [n]
    requires multiset(FileTree(v2, addr2, NADDR)) == multiset(FileTree(v1, addr1, NADDR)) + multiset{n}
    requires FileIndex(v2, addr2, NADDR) <= FileIndex(v1, addr1, NADDR) + {n}
    requires forall o :: 0 <= o < MAXBN && o != bn ==> Lookup(v2, addr2, o) == Lookup(v1, addr1, o)
    requires p == n || p in FileIndex(v1, addr1, NADDR)
    requires forall x: nat :: x != n && x != p ==> At(v2, x) == At(v1, x)
    ensures Grown(v0, addr0, st0, v2, addr2, st2, bn)
  {
    hide FileTree, FileIndex, Lookup, At;
    assert n in st1 && n in st0;
  }
}
