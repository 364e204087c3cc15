/** bmap of sys/subr.c and itrunc/tloop of sys/iget.c, over the buffer cache and the free list. */
module BlockMap {
  import opened Blocks
  import opened Rings
  import opened BufferCache
  import opened FreeList
  import opened Trees
  import opened Files

  /** The blocks s are data blocks of the volume, each once, and none is on the free stack st. */
  ghost predicate Owned(st: seq<nat>, s: seq<nat>, isize: nat, fsize: nat) {
    Once(multiset(st) + multiset(s)) && forall b :: b in s ==> isize <= b < fsize
  }

  /** Nobody holds any of these blocks. */
  ghost predicate Loose(grip: map<nat, Buf>, s: seq<nat>) {
    forall b :: b in s ==> !Holding(grip, b)
  }

  /** Take a block and write it out cleared: `bp = alloc(dev); nb = bp->b_blkno; bdwrite(bp)`. */
  method AllocCleared(fs: Super) returns (ok: bool, n: nat)
    requires fs.Valid() && Loose(fs.Held(), fs.stack) && |fs.Held()| < NBUF
    modifies fs, fs.bio
    ensures fs.Valid() && fs.Held() == old(fs.Held())
    ensures ok <==> old(fs.stack) != []
    ensures !ok ==> fs.stack == old(fs.stack) && fs.bio.view == old(fs.bio.view)
    ensures ok ==> fs.stack + [n] == old(fs.stack) && 0 < n < |old(fs.bio.view)| && fs.bio.view == old(fs.bio.view)[n := Zero()]
  {
    hide AvLinked, Chosen, Back, DevLinked, Sized, Coherent, Quiet, Ring, Chain, Proper, Zero;
    var bp;
    ok, bp := fs.Alloc();
    n := 0;
    if ok {
      n := fs.bio.bufs[bp].blkno;
      ghost var v := fs.bio.view;
      StackTop(old(fs.stack), fs.isize, fs.fsize);
      fs.bio.Bdwrite(bp);
      assert fs.Held() == old(fs.Held());
      ChainFrame(v, fs.bio.view, fs.nfree, fs.free, fs.stack);
    }
  }

  lemma StackTop(s: seq<nat>, isize: nat, fsize: nat)
    requires Proper(s, isize, fsize) && s != []
    ensures isize <= s[|s| - 1] < fsize && s[|s| - 1] !in s[..|s| - 1]
  {
    assert s[|s| - 1] in s;
  }

  /** A file that grew still owns its blocks exclusively, and still nobody holds them. */
  lemma GrownOwned(v0: seq<Block>, addr0: seq<nat>, st0: seq<nat>, v: seq<Block>, addr: seq<nat>, st: seq<nat>, bn: nat,
                   isize: nat, fsize: nat, grip: map<nat, Buf>)
    requires Grown(v0, addr0, st0, v, addr, st, bn)
    requires Proper(st0, isize, fsize) && Owned(st0, FileTree(v0, addr0, NADDR), isize, fsize)
    requires Loose(grip, st0) && Loose(grip, FileTree(v0, addr0, NADDR))
    ensures Owned(st, FileTree(v, addr, NADDR), isize, fsize) && Once(multiset(FileTree(v, addr, NADDR)))
    ensures Loose(grip, st) && Loose(grip, FileTree(v, addr, NADDR))
  {
    hide FileTree, FileIndex, Lookup, At, Holding;
    var t0, t := FileTree(v0, addr0, NADDR), FileTree(v, addr, NADDR);
    OnceParts(multiset(st), multiset(t));
    forall b | b in t || b in st
      ensures b in t0 || b in st0
    {
      assert b in multiset(st) + multiset(t);
      assert b in multiset(st0) + multiset(t0);
    }
  }

  /** A mapped block keeps every block on its path mapped. */
  lemma {:induction false} HolePath(v: seq<Block>, a: nat, l: nat, off: nat, m: nat)
    requires m <= l <= 3 && Node(v, a, l, off, m) == 0
    ensures Walk(v, a, l, off) == 0
    decreases l
  {
    hide Addr, Digit;
    if m < l && a != 0 {
      HolePath(v, Addr(At(v, a), Digit(off, l)), l - 1, off, m);
    }
  }

  lemma {:induction false} NodeBelow(v: seq<Block>, a: nat, l: nat, off: nat, m: nat)
    requires 0 < m <= l <= 3 && Node(v, a, l, off, m) != 0
    ensures Node(v, a, l, off, m - 1) == Addr(At(v, Node(v, a, l, off, m)), Digit(off, m))
    decreases l
  {
    hide Addr, Digit;
    if m < l {
      NodeBelow(v, Addr(At(v, a), Digit(off, l)), l - 1, off, m);
    } else {
      NodeStep(v, a, l, off, m);
      NodeStep(v, a, l, off, m - 1);
      NodeStep(v, Addr(At(v, a), Digit(off, l)), l - 1, off, m - 1);
    }
  }

  lemma {:induction false} NodeInIndex(v: seq<Block>, a: nat, l: nat, off: nat, m: nat)
    requires 0 < m <= l <= 3 && Node(v, a, l, off, m) != 0
    ensures Node(v, a, l, off, m) in Index(v, a, l)
    decreases l
  {
    hide Addr, Digit, KidsIndex, Index;
    NodeStep(v, a, l, off, m);
    IndexStep(v, a, l);
    if m < l {
      var b, i := At(v, a), Digit(off, l);
      NodeInIndex(v, Addr(b, i), l - 1, off, m);
      KidsIndexSplit(v, b, NINDIR, l - 1, i);
    }
  }

  lemma {:induction false} KidsIndexSplit(v: seq<Block>, b: Block, i: nat, l: nat, k: nat)
    requires k < i <= NINDIR
    ensures Index(v, Addr(b, k), l) <= KidsIndex(v, b, i, l)
    decreases i
  {
    hide Addr, Index;
    if k < i - 1 {
      KidsIndexSplit(v, b, i - 1, l, k);
    }
  }

  /** Where bmap's descent stands: at the level-m block nb on the path to logical block bn. */
  ghost predicate OnPath(v: seq<Block>, addr: seq<nat>, bn: nat, m: nat, nb: nat) {
    && |addr| == NADDR && bn < MAXBN && m <= Level(SlotOf(bn))
    && nb == Node(v, addr[SlotOf(bn)], Level(SlotOf(bn)), OffOf(bn), m) != 0
  }

  /** The block at hand on the path is one of the file's index blocks. */
  lemma OnPathFacts(v: seq<Block>, addr: seq<nat>, bn: nat, m: nat, nb: nat)
    requires OnPath(v, addr, bn, m, nb) && m > 0
    ensures nb in FileIndex(v, addr, NADDR) && nb in FileTree(v, addr, NADDR)
    ensures Addr(At(v, nb), Digit(OffOf(bn), m)) == 0 ==> Lookup(v, addr, bn) == 0
    ensures Addr(At(v, nb), Digit(OffOf(bn), m)) != 0 ==> OnPath(v, addr, bn, m - 1, Addr(At(v, nb), Digit(OffOf(bn), m)))
  {
    hide Addr, Digit, Node, Index, FileIndex, FileTree, Tree, At, SlotOf, OffOf;
    var s := SlotOf(bn);
    NodeInIndex(v, addr[s], Level(s), OffOf(bn), m);
    FileSplit(v, addr, NADDR, s);
    FileIndexInTree(v, addr, NADDR);
    NodeBelow(v, addr[s], Level(s), OffOf(bn), m);
    if Node(v, addr[s], Level(s), OffOf(bn), m - 1) == 0 {
      HolePath(v, addr[s], Level(s), OffOf(bn), m - 1);
    }
  }

  /** A zero entry of a held index block takes a new block; the index block is released either way. */
  method FillEntry(fs: Super, bp: nat, nb: nat, i: nat) returns (ok: bool, x: nat, bap: Block)
    requires fs.Valid() && bp in fs.Held() && nb < |fs.bio.view| && fs.Held()[bp].onDev && fs.Held()[bp].blkno == nb
    requires fs.Held()[bp].data == fs.bio.view[nb] && nb !in fs.stack && i < NINDIR
    requires Loose(fs.Held(), fs.stack) && |fs.Held()| < NBUF
    modifies fs, fs.bio
    ensures fs.Valid() && fs.Held() == old(fs.Held()) - {bp}
    ensures ok <==> old(fs.stack) != []
    ensures !ok ==> fs.stack == old(fs.stack) && fs.bio.view == old(fs.bio.view)
    ensures ok ==> fs.stack + [x] == old(fs.stack) && 0 < x < |old(fs.bio.view)| && x < 0x100_0000
    ensures ok ==> bap == PutAddr(old(fs.bio.view)[nb], i, x)
                   && fs.bio.view == old(fs.bio.view)[x := Zero()][nb := bap]
  {
    hide AvLinked, Chosen, Back, DevLinked, Sized, Coherent, Quiet, Ring, Chain, Zero, PutAddr;
    ghost var v := fs.bio.view;
    bap := fs.bio.bufs[bp].data;
    ok, x := AllocCleared(fs);
    assert bp in fs.Held();
    if !ok {
      fs.bio.Brelse(bp);
    } else {
      assert x in old(fs.stack);
      ghost var v1 := fs.bio.view;
      bap := PutAddr(bap, i, x);
      fs.bio.Store(bp, bap);
      fs.bio.Bdwrite(bp);
      ChainFrame(v1, fs.bio.view, fs.nfree, fs.free, fs.stack);
    }
    assert fs.Held() == old(fs.Held()) - {bp};
  }

  /** bmap's rablock: the next logical block, unless that one hangs from another address or index block. */
  ghost predicate Successor(v: seq<Block>, addr: seq<nat>, bn: nat, ra: nat)
    requires |addr| == NADDR
  {
    ra == if bn == 9 || (bn >= 10 && (bn - 10) % 128 == 127) then 0 else Lookup(v, addr, bn + 1)
  }

  /** The next entry of the last index block on the path is the next logical block. */
  lemma NextEntry(v: seq<Block>, addr: seq<nat>, bn: nat, nb: nat, i: nat, next: nat)
    requires OnPath(v, addr, bn, 1, nb) && i == Digit(OffOf(bn), 1)
    requires next == if i < NINDIR - 1 then Addr(At(v, nb), i + 1) else 0
    ensures Successor(v, addr, bn, next)
  {
    hide Addr, At, Node;
    var s, off := SlotOf(bn), OffOf(bn);
    assert i == off % 128 == (bn - 10) % 128;
    LastStep(v, addr[s], Level(s), off);
    if i < NINDIR - 1 {
      NoCarry(off);
      SameSlot(bn);
      LastStep(v, addr[s], Level(s), off + 1);
    }
  }

  lemma SameSlot(bn: nat)
    requires 10 <= bn < MAXBN && (bn - 10) % 128 < 127
    ensures SlotOf(bn + 1) == SlotOf(bn) && OffOf(bn + 1) == OffOf(bn) + 1
  {
  }

  /** One turn of bmap's loop through the indirect blocks: read block nb of level m, follow or fill its entry. */
  method Descend(fs: Super, ghost addr: seq<nat>, bn: nat, m: nat, nb: nat, i: nat, write: bool,
                 ghost v0: seq<Block>, ghost addr0: seq<nat>, ghost st0: seq<nat>)
    returns (ok: bool, x: nat, next: nat)
    requires fs.Valid() && |fs.Held()| + 1 < NBUF
    requires Proper(st0, fs.isize, fs.fsize) && |addr0| == NADDR && Owned(st0, FileTree(v0, addr0, NADDR), fs.isize, fs.fsize)
    requires Loose(fs.Held(), st0) && Loose(fs.Held(), FileTree(v0, addr0, NADDR))
    requires Grown(v0, addr0, st0, fs.bio.view, addr, fs.stack, bn)
    requires m > 0 && OnPath(fs.bio.view, addr, bn, m, nb) && i == Digit(OffOf(bn), m)
    requires Lookup(fs.bio.view, addr, bn) == Lookup(v0, addr0, bn)
    modifies fs, fs.bio
    ensures fs.Valid() && fs.Held() == old(fs.Held())
    ensures Grown(v0, addr0, st0, fs.bio.view, addr, fs.stack, bn)
    ensures ok ==> OnPath(fs.bio.view, addr, bn, m - 1, x)
    ensures !ok ==> (!write || fs.stack == []) && fs.stack == old(fs.stack) && fs.bio.view == old(fs.bio.view)
                    && Lookup(fs.bio.view, addr, bn) == 0
    ensures ok && !write ==> fs.stack == old(fs.stack) && fs.bio.view == old(fs.bio.view)
    ensures |old(fs.stack)| <= |fs.stack| + 1
    ensures ok && m > 1 ==> Lookup(fs.bio.view, addr, bn) == Lookup(v0, addr0, bn)
    ensures ok && m == 1 && Lookup(v0, addr0, bn) == 0 ==> x < |fs.bio.view| && fs.bio.view[x] == Zero()
    ensures next != 0 ==> next in FileTree(fs.bio.view, addr, NADDR)
    ensures ok && m == 1 ==> Successor(fs.bio.view, addr, bn, next)
  {
    hide AvLinked, Chosen, Back, DevLinked, Sized, Coherent, Quiet, Ring, Chain, Proper, Zero, FileTree, FileIndex, Node, Addr, PutAddr,
         Lookup, SlotOf, OffOf, Digit, Level, Grown, Once, Successor;
    ghost var v, st := fs.bio.view, fs.stack;
    GrownOwned(v0, addr0, st0, v, addr, st, bn, fs.isize, fs.fsize, fs.Held());
    OnPathFacts(v, addr, bn, m, nb);
    assert nb !in st by { OnceParts(multiset(st), multiset(FileTree(v, addr, NADDR))); assert nb in multiset(FileTree(v, addr, NADDR)); }
    next, ok := 0, true;
    var bp := fs.bio.Bread(nb);
    var bap := fs.bio.bufs[bp].data;
    x := Addr(bap, i);
    if x == 0 && write {
      ok, x, bap := FillEntry(fs, bp, nb, i);
      if ok {
        GraftMore(v0, addr0, st0, v, addr, st, fs.bio.view, fs.stack, bn, m, nb, x);
      }
    } else {
      ok := x != 0;
      fs.bio.Brelse(bp);
    }
    assert fs.Held() == old(fs.Held());
    if ok {
      EntryInFile(fs.bio.view, addr, bn, m, nb, if i < NINDIR - 1 then i + 1 else 0);
      if i < NINDIR - 1 {
        next := Addr(bap, i + 1);
      }
      if m == 1 {
        LookupIsNode(fs.bio.view, addr, bn, x);
        NextEntry(fs.bio.view, addr, bn, nb, i, next);
      }
    }
  }

  lemma LookupIsNode(v: seq<Block>, addr: seq<nat>, bn: nat, x: nat)
    requires OnPath(v, addr, bn, 0, x)
    ensures Lookup(v, addr, bn) == x
  {
  }

  /** The blocks below a block on the path are blocks of the file, and so are the entries of an index block. */
  lemma {:induction false} BelowNode(v: seq<Block>, a: nat, l: nat, off: nat, m: nat)
    requires m <= l <= 3 && Node(v, a, l, off, m) != 0
    ensures multiset(Tree(v, Node(v, a, l, off, m), m)) <= multiset(Tree(v, a, l))
    decreases l
  {
    hide Addr, Digit, Tree, Kids, At;
    NodeStep(v, a, l, off, m);
    if m < l {
      TreeStep(v, a, l);
      BelowNode(v, Addr(At(v, a), Digit(off, l)), l - 1, off, m);
      KidsSplit(v, At(v, a), NINDIR, l - 1, Digit(off, l));
    }
  }

  lemma EntryInFile(v: seq<Block>, addr: seq<nat>, bn: nat, m: nat, nb: nat, k: nat)
    requires OnPath(v, addr, bn, m, nb) && m > 0 && k < NINDIR
    ensures var e := Addr(At(v, nb), k); e != 0 ==> e in FileTree(v, addr, NADDR)
  {
    hide Addr, Digit, Tree, Kids, At, FileTree, Node, SlotOf, OffOf, Index, FileIndex;
    var s, e := SlotOf(bn), Addr(At(v, nb), k);
    BelowNode(v, addr[s], Level(s), OffOf(bn), m);
    FileSplit(v, addr, NADDR, s);
    TreeStep(v, nb, m);
    KidsSplit(v, At(v, nb), NINDIR, m - 1, k);
    if e != 0 {
      NodeInTree(v, e, m - 1, 0, m - 1);
      NodeStep(v, e, m - 1, 0, m - 1);
      assert e in multiset(FileTree(v, addr, NADDR));
    }
  }

  lemma GraftMore(v0: seq<Block>, addr0: seq<nat>, st0: seq<nat>, v: seq<Block>, addr: seq<nat>, st: seq<nat>,
                  v': seq<Block>, st': seq<nat>, bn: nat, m: nat, nb: nat, n: nat)
    requires Grown(v0, addr0, st0, v, addr, st, bn) && m > 0 && OnPath(v, addr, bn, m, nb)
    requires Once(multiset(st) + multiset(FileTree(v, addr, NADDR))) && st == st' + [n]
    requires nb < |v| && 0 < n < |v| && n < 0x1_0000_0000 && Addr(At(v, nb), Digit(OffOf(bn), m)) == 0
    requires v' == v[n := Zero()][nb := PutAddr(v[nb], Digit(OffOf(bn), m), n)]
    ensures Grown(v0, addr0, st0, v', addr, st', bn)
    ensures OnPath(v', addr, bn, m - 1, n) && OnPath(v', addr, bn, m, nb)
    ensures m > 1 ==> Lookup(v', addr, bn) == Lookup(v, addr, bn)
  {
    hide Zero, FileTree, FileIndex, Node, Addr, PutAddr, Lookup, SlotOf, OffOf, Digit, Level, Grown, Once;
    OnPathFacts(v, addr, bn, m, nb);
    OnceParts(multiset(st), multiset(FileTree(v, addr, NADDR)));
    assert n in multiset(st) && nb in multiset(FileTree(v, addr, NADDR));
    assert n !in multiset(FileTree(v, addr, NADDR)) && n != nb;
    assert Grafted(v, v', nb, Digit(OffOf(bn), m), n);
    GrowInner(v, v', addr, bn, m, n);
    GrownWasHole(v0, addr0, st0, v, addr, st, bn);
    GrownMore(v0, addr0, st0, v, addr, st, v', addr, st', bn, n, nb);
  }

  /** If the block is a hole now, it was one before. */
  lemma GrownWasHole(v0: seq<Block>, addr0: seq<nat>, st0: seq<nat>, v: seq<Block>, addr: seq<nat>, st: seq<nat>, bn: nat)
    requires Grown(v0, addr0, st0, v, addr, st, bn) && Lookup(v, addr, bn) == 0
    ensures Lookup(v0, addr0, bn) == 0
  {
  }

  /** An in-core inode. */
  class Inode {
    var number: nat
    var count: nat
    var mode: nat
    var nlink: int
    var size: nat
    var addr: seq<nat>
    var lastr: int
    /** Any of IUPD, IACC and ICHG: the disk copy is out of date. */
    var changed: bool

    constructor ()
      ensures number == 0 && count == 0 && addr == Holes() && mode == 0 && nlink == 0 && size == 0
    {
      number, count, mode, nlink, size, lastr, changed := 0, 0, 0, 0, 0, 0, false;
      addr := Holes();
    }
  }

  /** The volume and the file are in order, and no buffer of either is held. */
  ghost predicate Ready(fs: Super, ip: Inode)
    reads fs, fs.bio, ip
  {
    && fs.Valid() && |ip.addr| == NADDR
    && Owned(fs.stack, FileTree(fs.bio.view, ip.addr, NADDR), fs.isize, fs.fsize)
    && Loose(fs.Held(), fs.stack) && Loose(fs.Held(), FileTree(fs.bio.view, ip.addr, NADDR))
  }

  /** The inode's own address for logical block bn, given a block if it has none. */
  method FetchRoot(fs: Super, ip: Inode, bn: nat, s: nat, write: bool) returns (ok: bool, nb: nat)
    requires Ready(fs, ip) && bn < MAXBN && s == SlotOf(bn) && |fs.Held()| < NBUF
    modifies fs, fs.bio, ip`addr, ip`changed
    ensures fs.Valid() && fs.Held() == old(fs.Held())
    ensures Grown(old(fs.bio.view), old(ip.addr), old(fs.stack), fs.bio.view, ip.addr, fs.stack, bn)
    ensures ok ==> OnPath(fs.bio.view, ip.addr, bn, Level(s), nb)
    ensures !ok ==> (!write || fs.stack == []) && Lookup(fs.bio.view, ip.addr, bn) == 0
    ensures !ok || !write ==> fs.stack == old(fs.stack) && fs.bio.view == old(fs.bio.view) && ip.addr == old(ip.addr)
    ensures |old(fs.stack)| <= |fs.stack| + 1
    ensures ok && Level(s) > 0 ==> Lookup(fs.bio.view, ip.addr, bn) == Lookup(old(fs.bio.view), old(ip.addr), bn)
    ensures ok && Level(s) == 0 && Lookup(old(fs.bio.view), old(ip.addr), bn) == 0 ==> nb < |fs.bio.view| && fs.bio.view[nb] == Zero()
  {
    hide AvLinked, Chosen, Back, DevLinked, Sized, Coherent, Quiet, Ring, Chain, Proper, Zero, FileTree, FileIndex, Node, Addr,
         SlotOf, OffOf, Digit, Level, Grown, Once, Cache.Valid;
    ghost var v, addr, st := fs.bio.view, ip.addr, fs.stack;
    GrownNot(v, addr, st, bn);
    RootFacts(v, addr, bn);
    ok, nb := true, ip.addr[s];
    if nb == 0 {
      if !write {
        ok := false;
      } else {
        ok, nb := AllocCleared(fs);
      }
      if !ok {
        return;
      }
      ip.addr := ip.addr[s := nb];
      ip.changed := true;
      RootMore(v, addr, st, fs.bio.view, fs.stack, bn, nb);
    }
  }

  lemma RootFacts(v: seq<Block>, addr: seq<nat>, bn: nat)
    requires |addr| == NADDR && bn < MAXBN
    ensures addr[SlotOf(bn)] == 0 ==> Lookup(v, addr, bn) == 0
    ensures addr[SlotOf(bn)] != 0 ==> OnPath(v, addr, bn, Level(SlotOf(bn)), addr[SlotOf(bn)])
    ensures Level(SlotOf(bn)) == 0 ==> Lookup(v, addr, bn) == addr[SlotOf(bn)]
  {
  }

  lemma RootMore(v: seq<Block>, addr: seq<nat>, st: seq<nat>, v': seq<Block>, st': seq<nat>, bn: nat, n: nat)
    requires |addr| == NADDR && bn < MAXBN && addr[SlotOf(bn)] == 0
    requires Once(multiset(st) + multiset(FileTree(v, addr, NADDR))) && st == st' + [n]
    requires 0 < n < |v| && v' == v[n := Zero()]
    ensures Grown(v, addr, st, v', addr[SlotOf(bn) := n], st', bn)
    ensures OnPath(v', addr[SlotOf(bn) := n], bn, Level(SlotOf(bn)), n)
    ensures Level(SlotOf(bn)) > 0 ==> Lookup(v', addr[SlotOf(bn) := n], bn) == Lookup(v, addr, bn)
  {
    hide Zero, FileTree, FileIndex, Node, Addr, Lookup, Grown, Once, OffOf;
    var s := SlotOf(bn);
    RootFacts(v, addr, bn);
    OnceParts(multiset(st), multiset(FileTree(v, addr, NADDR)));
    assert n in multiset(st) && n !in multiset(FileTree(v, addr, NADDR));
    GrowRoot(v, v', addr, s, n);
    GrownNot(v, addr, st, bn);
    GrownMore(v, addr, st, v, addr, st, v', addr[s := n], st', bn, n, n);
    RootFacts(v', addr[s := n], bn);
  }

  /** The answer for an address: the block, or -1 for a hole. */
  ghost predicate Gives(r: int, a: nat) {
    r == if a == 0 then -1 else a
  }

  /**
   bmap: the physical block of logical block bn, -1 for a hole that is read or that the volume has no
   room to fill, 0 past the end of the map; and the block after it, for read-ahead.
   */
  method Bmap(fs: Super, ip: Inode, bn: nat, write: bool) returns (r: int, ra: nat)
    requires Ready(fs, ip) && |fs.Held()| + 1 < NBUF
    modifies fs, fs.bio, ip`addr, ip`changed
    ensures Ready(fs, ip) && fs.Held() == old(fs.Held())
    ensures bn < MAXBN ==> Grown(old(fs.bio.view), old(ip.addr), old(fs.stack), fs.bio.view, ip.addr, fs.stack, bn)
    ensures bn < MAXBN ==> r == (if Lookup(fs.bio.view, ip.addr, bn) == 0 then -1 else Lookup(fs.bio.view, ip.addr, bn))
    ensures bn < 10 ==> r == (if ip.addr[bn] == 0 then -1 else ip.addr[bn])
    ensures 10 <= bn < 138 ==> Gives(r, Entry(fs.bio.view, ip.addr[10], bn - 10))
    ensures 138 <= bn < 16522 ==> Gives(r, Entry(fs.bio.view, Entry(fs.bio.view, ip.addr[11], (bn - 138) / 128), (bn - 138) % 128))
    ensures 16522 <= bn < MAXBN ==>
      Gives(r, Entry(fs.bio.view, Entry(fs.bio.view, Entry(fs.bio.view, ip.addr[12], (bn - 16522) / 16384), (bn - 16522) / 128 % 128), (bn - 16522) % 128))
    ensures bn < MAXBN && r < 0 ==> !write || fs.stack == []
    ensures bn < NADDR - 3 && r < 0 && write ==> old(fs.stack) == []
    ensures |old(fs.stack)| <= |fs.stack| + 4
    ensures r > 0 && Lookup(old(fs.bio.view), old(ip.addr), bn) == 0 ==> r < |fs.bio.view| && fs.bio.view[r] == Zero()
    ensures bn >= MAXBN ==> r == 0 && fs.bio.bufs == old(fs.bio.bufs)
    ensures bn >= MAXBN || !write ==> fs.stack == old(fs.stack) && fs.bio.view == old(fs.bio.view) && ip.addr == old(ip.addr)
    ensures ra != 0 ==> ra in FileTree(fs.bio.view, ip.addr, NADDR)
    ensures bn < MAXBN && r > 0 ==> ra == if bn == 9 || (bn >= 10 && (bn - 10) % 128 == 127) then 0 else Lookup(fs.bio.view, ip.addr, bn + 1)
  {
    hide AvLinked, Chosen, Back, DevLinked, Sized, Coherent, Quiet, Ring, Chain, Proper, Zero, FileTree, FileIndex, Node, Addr,
         Grown, Once, Cache.Valid, Lookup, Holding, Trees.Entry;
    ghost var v0, addr0, st0 := fs.bio.view, ip.addr, fs.stack;
    ra := 0;
    if bn < NADDR - 3 {
      var ok, nb := FetchRoot(fs, ip, bn, bn, write);
      GrownOwned(v0, addr0, st0, fs.bio.view, ip.addr, fs.stack, bn, fs.isize, fs.fsize, fs.Held());
      LookupIs(fs.bio.view, ip.addr, bn);
      if !ok {
        return -1, 0;
      }
      if bn < NADDR - 4 {
        ra := ip.addr[bn + 1];
        LookupIs(fs.bio.view, ip.addr, bn + 1);
      }
      DirectFacts(fs.bio.view, ip.addr, bn, nb);
      return nb, ra;
    }
    var span, off, j := 1, bn - (NADDR - 3), 3;
    while j > 0
      invariant 0 <= j <= 3 && span == Span(3 - j) && off >= 0
      invariant bn == off + (if j == 3 then 10 else if j == 2 then 138 else if j == 1 then 16522 else MAXBN)
    {
      span := span * 128;
      if off < span {
        break;
      }
      off := off - span;
      j := j - 1;
    }
    if j == 0 {
      return 0, 0;
    }
    r, ra := Indirect(fs, ip, bn, j, span, off, write);
    LookupIs(fs.bio.view, ip.addr, bn);
  }

  lemma DirectFacts(v: seq<Block>, addr: seq<nat>, bn: nat, nb: nat)
    requires bn < 10 && OnPath(v, addr, bn, 0, nb)
    ensures Lookup(v, addr, bn) == nb
    ensures bn < 9 && addr[bn + 1] != 0 ==> addr[bn + 1] in FileTree(v, addr, NADDR)
  {
    hide FileTree, FileIndex, Tree, Index;
    if bn < 9 {
      FileSplit(v, addr, NADDR, bn + 1);
      TreeBase(v, addr[bn + 1], 0);
      assert addr[bn + 1] != 0 ==> addr[bn + 1] in multiset(FileTree(v, addr, NADDR));
    }
  }

  /** bmap's second half: fetch the address from the inode and go down through the indirect blocks. */
  method Indirect(fs: Super, ip: Inode, bn: nat, jj: nat, sp: nat, off: nat, write: bool) returns (r: int, ra: nat)
    requires Ready(fs, ip) && |fs.Held()| + 1 < NBUF
    requires 10 <= bn < MAXBN && 0 < jj <= 3 && NADDR - jj == SlotOf(bn) && off == OffOf(bn) && sp == Span(4 - jj)
    modifies fs, fs.bio, ip`addr, ip`changed
    ensures Ready(fs, ip) && fs.Held() == old(fs.Held())
    ensures Grown(old(fs.bio.view), old(ip.addr), old(fs.stack), fs.bio.view, ip.addr, fs.stack, bn)
    ensures r == (if Lookup(fs.bio.view, ip.addr, bn) == 0 then -1 else Lookup(fs.bio.view, ip.addr, bn))
    ensures r < 0 ==> !write || fs.stack == []
    ensures |old(fs.stack)| <= |fs.stack| + 4
    ensures r > 0 && Lookup(old(fs.bio.view), old(ip.addr), bn) == 0 ==> r < |fs.bio.view| && fs.bio.view[r] == Zero()
    ensures !write ==> fs.stack == old(fs.stack) && fs.bio.view == old(fs.bio.view) && ip.addr == old(ip.addr)
    ensures ra != 0 ==> ra in FileTree(fs.bio.view, ip.addr, NADDR)
    ensures r > 0 ==> Successor(fs.bio.view, ip.addr, bn, ra)
  {
    hide AvLinked, Chosen, Back, DevLinked, Sized, Coherent, Quiet, Ring, Chain, Proper, Zero, FileTree, FileIndex, Node, Addr,
         SlotOf, OffOf, Grown, Owned, Loose, Cache.Valid, Lookup, Successor;
    ghost var v0, addr0, st0 := fs.bio.view, ip.addr, fs.stack;
    var j, span := jj, sp;
    var ok: bool, nb: nat := FetchRoot(fs, ip, bn, NADDR - j, write);
    GrownOwned(v0, addr0, st0, fs.bio.view, ip.addr, fs.stack, bn, fs.isize, fs.fsize, fs.Held());
    ra := 0;
    if !ok {
      return -1, 0;
    }
    while j <= 3
      invariant jj <= j <= 4 && span == Span(4 - j) && fs.Valid() && fs.Held() == old(fs.Held())
      invariant Grown(v0, addr0, st0, fs.bio.view, ip.addr, fs.stack, bn)
      invariant OnPath(fs.bio.view, ip.addr, bn, 4 - j, nb)
      invariant j <= 3 ==> Lookup(fs.bio.view, ip.addr, bn) == Lookup(v0, addr0, bn)
      invariant j == 4 && Lookup(v0, addr0, bn) == 0 ==> nb < |fs.bio.view| && fs.bio.view[nb] == Zero()
      invariant (ra != 0 ==> ra in FileTree(fs.bio.view, ip.addr, NADDR)) && (j == 4 ==> Successor(fs.bio.view, ip.addr, bn, ra))
      invariant !write ==> fs.stack == st0 && fs.bio.view == v0 && ip.addr == addr0
      invariant |st0| <= |fs.stack| + 1 + j - jj
    {
      span := span / 128;
      var i := off / span % 128;
      ok, nb, ra := Descend(fs, ip.addr, bn, 4 - j, nb, i, write, v0, addr0, st0);
      GrownOwned(v0, addr0, st0, fs.bio.view, ip.addr, fs.stack, bn, fs.isize, fs.fsize, fs.Held());
      if !ok {
        return -1, 0;
      }
      j := j + 1;
    }
    GrownOwned(v0, addr0, st0, fs.bio.view, ip.addr, fs.stack, bn, fs.isize, fs.fsize, fs.Held());
    LookupIsNode(fs.bio.view, ip.addr, bn, nb);
    r := nb;
  }

  /** v agrees with v0 except on the blocks s. */
  ghost predicate Except(v0: seq<Block>, v: seq<Block>, s: seq<nat>) {
    |v| == |v0| && forall x :: 0 <= x < |v0| && x !in s ==> v[x] == v0[x]
  }

  /** Where tloop stands: the subtrees of entries NINDIR-1..i+1 are freed (done), entry i comes next. */
  ghost predicate Reaping(v0: seq<Block>, bn: nat, l: nat, i: nat, done: seq<nat>) {
    && 0 < bn < |v0| && 0 < l <= 3 && i <= NINDIR
    && Kids(v0, v0[bn], NINDIR, l - 1) == done + Kids(v0, v0[bn], i, l - 1)
  }

  /**
   Entry i of the index block still leads to the subtree it led to at the start: the blocks freed so
   far, which the free list may have overwritten, are neither the index block nor in that subtree.
   */
  lemma ReapEntry(v0: seq<Block>, v: seq<Block>, bn: nat, l: nat, i: nat, done: seq<nat>, st0: seq<nat>, isize: nat, fsize: nat)
    requires Reaping(v0, bn, l, i, done) && i > 0 && Except(v0, v, done)
    requires Owned(st0, Tree(v0, bn, l), isize, fsize)
    ensures v[bn] == v0[bn] && bn !in st0 + done
    ensures var t := Tree(v0, Addr(v0[bn], i - 1), l - 1);
      && Tree(v, Addr(v0[bn], i - 1), l - 1) == t
      && Owned(st0 + done, t, isize, fsize) && bn !in t && Reaping(v0, bn, l, i - 1, done + t)
      && forall x :: x in t ==> x in Tree(v0, bn, l)
  {
    hide Tree, Kids, Addr, Index, Once;
    var t, r := Tree(v0, Addr(v0[bn], i - 1), l - 1), Kids(v0, v0[bn], i - 1, l - 1);
    TreeStep(v0, bn, l);
    KidsStep(v0, v0[bn], i, l - 1);
    assert done + (t + r) == (done + t) + r;
    assert multiset(st0) + multiset(Tree(v0, bn, l)) == multiset(st0 + done) + multiset(t) + (multiset(r) + multiset{bn});
    OnceParts(multiset(st0 + done) + multiset(t), multiset(r) + multiset{bn});
    OnceParts(multiset(st0 + done), multiset(t));
    assert bn in multiset(r) + multiset{bn};
    assert bn !in multiset(st0 + done) + multiset(t);
    assert bn !in multiset(st0 + done) && bn !in multiset(t);
    forall x | x in t
      ensures x in Tree(v0, bn, l)
    {
      assert x in multiset(t);
    }
    IndexInTree(v0, Addr(v0[bn], i - 1), l - 1);
    forall x | x in Index(v0, Addr(v0[bn], i - 1), l - 1)
      ensures At(v, x) == At(v0, x)
    {
      assert x in multiset(t);
      assert x !in multiset(st0 + done);
      assert x !in done;
    }
    TreeFrame(v0, v, Addr(v0[bn], i - 1), l - 1);
  }

  lemma ReapStart(v0: seq<Block>, bn: nat, l: nat, st0: seq<nat>, isize: nat, fsize: nat)
    requires bn != 0 && 0 < l <= 3 && Owned(st0, Tree(v0, bn, l), isize, fsize) && fsize <= |v0|
    ensures bn in Tree(v0, bn, l) && bn < |v0| && Reaping(v0, bn, l, NINDIR, [])
  {
    hide Kids;
    assert bn in Tree(v0, bn, l);
  }

  lemma ReapEnd(v0: seq<Block>, v: seq<Block>, bn: nat, l: nat, done: seq<nat>, st0: seq<nat>, isize: nat, fsize: nat)
    requires Reaping(v0, bn, l, 0, done) && Except(v0, v, done)
    requires Owned(st0, Tree(v0, bn, l), isize, fsize)
    ensures v[bn] == v0[bn] && bn !in st0 + done && isize <= bn < fsize
    ensures Tree(v0, bn, l) == done + [bn]
  {
    hide Tree, Kids, Once;
    TreeStep(v0, bn, l);
    NoKids(v0, v0[bn], l - 1);
    assert multiset(st0) + multiset(Tree(v0, bn, l)) == multiset(st0 + done) + multiset{bn};
    OnceParts(multiset(st0 + done), multiset{bn});
    assert bn in multiset{bn} && bn !in multiset(st0 + done);
    assert bn in Tree(v0, bn, l);
  }

  lemma OwnedOne(st: seq<nat>, b: nat, isize: nat, fsize: nat)
    requires Owned(st, [b], isize, fsize)
    ensures isize <= b < fsize && b !in st
  {
    OnceParts(multiset(st), multiset([b]));
    assert b in multiset([b]);
    assert b in [b];
  }

  function LevelOf(f1: bool, f2: bool): (l: nat)
    ensures 0 < l <= 3
  {
    if !f1 then 1 else if !f2 then 2 else 3
  }

  /** tloop's buffer for index block bn: none (NBUF), or held and as it was at the start. */
  ghost predicate HoldsIndex(held: map<nat, Buf>, held0: map<nat, Buf>, bp: nat, bn: nat, b: Block) {
    if bp == NBUF then held == held0
    else bp !in held0 && bp in held && held == held0[bp := held[bp]] && held[bp].onDev && held[bp].blkno == bn && held[bp].data == b
  }

  /** Make sure the index block is in hand. */
  method FetchIndex(fs: Super, bn: nat, bpIn: nat, ghost held0: map<nat, Buf>) returns (bp: nat)
    requires fs.bio.Valid() && bn < |fs.bio.view| && CanGet(held0, bn) && HoldsIndex(fs.Held(), held0, bpIn, bn, fs.bio.view[bn])
    modifies fs.bio
    ensures fs.bio.Valid() && fs.bio.view == old(fs.bio.view)
    ensures bp != NBUF && HoldsIndex(fs.Held(), held0, bp, bn, fs.bio.view[bn])
  {
    hide AvLinked, Chosen, Back, DevLinked, Sized, Coherent, Quiet, Ring, Grip;
    bp := bpIn;
    if bp == NBUF {
      bp := fs.bio.Bread(bn);
    }
  }

  method ReleaseIndex(fs: Super, bn: nat, bp: nat, ghost held0: map<nat, Buf>)
    requires fs.bio.Valid() && bn < |fs.bio.view| && HoldsIndex(fs.Held(), held0, bp, bn, fs.bio.view[bn]) && bp != NBUF
    modifies fs.bio
    ensures fs.bio.Valid() && fs.bio.view == old(fs.bio.view) && fs.Held() == held0
  {
    hide AvLinked, Chosen, Back, DevLinked, Sized, Coherent, Quiet, Ring, Grip;
    GripEntry(fs.bio.bufs, bp);
    fs.bio.Brelse(bp);
    assert fs.Held() == held0;
  }

  /** One turn of tloop's loop, at entry i. */
  method ReapOne(fs: Super, bn: nat, f1: bool, f2: bool, i: nat, bpIn: nat,
                 ghost v0: seq<Block>, ghost st0: seq<nat>, ghost done: seq<nat>, ghost held0: map<nat, Buf>) returns (bp: nat)
    requires fs.Valid() && |held0| + 1 < NBUF && i < NINDIR
    requires Reaping(v0, bn, LevelOf(f1, f2), i + 1, done) && Except(v0, fs.bio.view, done)
    requires Owned(st0, Tree(v0, bn, LevelOf(f1, f2)), fs.isize, fs.fsize) && Loose(held0, Tree(v0, bn, LevelOf(f1, f2)))
    requires fs.stack == st0 + done && HoldsIndex(fs.Held(), held0, bpIn, bn, v0[bn])
    modifies fs, fs.bio
    ensures fs.Valid() && HoldsIndex(fs.Held(), held0, bp, bn, v0[bn])
    ensures var t := Tree(v0, Addr(v0[bn], i), LevelOf(f1, f2) - 1);
      fs.stack == st0 + done + t && Except(v0, fs.bio.view, done + t) && Reaping(v0, bn, LevelOf(f1, f2), i, done + t)
    decreases LevelOf(f1, f2), 0
  {
    hide AvLinked, Chosen, Back, DevLinked, Sized, Coherent, Quiet, Ring, Chain, Proper, Tree, Kids, Addr, Owned, Grip, Cache.Valid;
    ghost var l := LevelOf(f1, f2);
    ReapEntry(v0, fs.bio.view, bn, l, i + 1, done, st0, fs.isize, fs.fsize);
    IndexFirst(v0, bn, l);
    bp := FetchIndex(fs, bn, bpIn, held0);
    GripEntry(fs.bio.bufs, bp);
    var nb := Addr(fs.bio.bufs[bp].data, i);
    TreeBase(v0, nb, l - 1);
    if nb != 0 {
      if f1 {
        ReleaseIndex(fs, bn, bp, held0);
        bp := NBUF;
        Tloop(fs, nb, f2, false);
      } else {
        OwnedOne(fs.stack, nb, fs.isize, fs.fsize);
        assert nb in Tree(v0, bn, l);
        fs.Free(nb);
      }
    }
  }

  lemma IndexFirst(v0: seq<Block>, bn: nat, l: nat)
    requires bn != 0 && 0 < l
    ensures bn in Tree(v0, bn, l)
  {
    hide Kids;
  }

  /** tloop: free every block below index block bn and then bn itself, re-reading bn after each recursive call. */
  method Tloop(fs: Super, bn: nat, f1: bool, f2: bool)
    requires fs.Valid() && |fs.Held()| + 1 < NBUF && bn != 0
    requires Owned(fs.stack, Tree(fs.bio.view, bn, LevelOf(f1, f2)), fs.isize, fs.fsize)
    requires Loose(fs.Held(), Tree(fs.bio.view, bn, LevelOf(f1, f2)))
    modifies fs, fs.bio
    ensures fs.Valid() && fs.Held() == old(fs.Held())
    ensures fs.stack == old(fs.stack) + Tree(old(fs.bio.view), bn, LevelOf(f1, f2))
    ensures Except(old(fs.bio.view), fs.bio.view, Tree(old(fs.bio.view), bn, LevelOf(f1, f2)))
    decreases LevelOf(f1, f2), 1
  {
    hide AvLinked, Chosen, Back, DevLinked, Sized, Coherent, Quiet, Ring, Chain, Proper, Tree, Kids, Addr, Owned, Grip, Cache.Valid;
    ghost var v0, st0, l, held0 := fs.bio.view, fs.stack, LevelOf(f1, f2), fs.Held();
    ReapStart(v0, bn, l, st0, fs.isize, fs.fsize);
    ghost var done: seq<nat> := [];
    var bp: nat := NBUF;
    var i := NINDIR;
    while i > 0
      invariant 0 <= i <= NINDIR && Reaping(v0, bn, l, i, done) && Except(v0, fs.bio.view, done)
      invariant fs.Valid() && fs.stack == st0 + done && HoldsIndex(fs.Held(), held0, bp, bn, v0[bn])
    {
      i := i - 1;
      bp := ReapOne(fs, bn, f1, f2, i, bp, v0, st0, done, held0);
      done := done + Tree(v0, Addr(v0[bn], i), l - 1);
    }
    ReapEnd(v0, fs.bio.view, bn, l, done, st0, fs.isize, fs.fsize);
    ReapLast(fs, bn, bp, held0, v0[bn]);
  }

  /** The end of tloop: the index block itself is freed, after its buffer is released. */
  method ReapLast(fs: Super, bn: nat, bp: nat, ghost held0: map<nat, Buf>, ghost b: Block)
    requires fs.Valid() && |held0| < NBUF && !Holding(held0, bn) && bn !in fs.stack && fs.isize <= bn < fs.fsize
    requires HoldsIndex(fs.Held(), held0, bp, bn, b) && fs.bio.view[bn] == b
    modifies fs, fs.bio
    ensures fs.Valid() && fs.Held() == held0 && fs.stack == old(fs.stack) + [bn]
    ensures Except(old(fs.bio.view), fs.bio.view, [bn])
  {
    hide AvLinked, Chosen, Back, DevLinked, Sized, Coherent, Quiet, Ring, Chain, Proper, Grip;
    if bp != NBUF {
      ReleaseIndex(fs, bn, bp, held0);
    }
    fs.Free(bn);
  }

  /** The file types whose addresses are block numbers: directories and regular files. */
  predicate HasBlocks(mode: nat) {
    mode / 4096 % 16 == 4 || mode / 4096 % 16 == 8
  }

  /** What is left of the file when addresses 12..i have been given back (done). */
  lemma TruncEntry(v0: seq<Block>, v: seq<Block>, addr: seq<nat>, i: nat, done: seq<nat>, st0: seq<nat>, isize: nat, fsize: nat)
    requires 0 < i <= NADDR == |addr| && Except(v0, v, done)
    requires FileTree(v0, addr, NADDR) == done + FileTree(v0, addr, i)
    requires Owned(st0, FileTree(v0, addr, NADDR), isize, fsize)
    ensures var t := Tree(v0, addr[i - 1], Level(i - 1));
      && Tree(v, addr[i - 1], Level(i - 1)) == t
      && Owned(st0 + done, t, isize, fsize) && FileTree(v0, addr, NADDR) == (done + t) + FileTree(v0, addr, i - 1)
      && forall x :: x in t ==> x in FileTree(v0, addr, NADDR)
  {
    hide Tree, FileTree, Index, Once;
    var t, r := Tree(v0, addr[i - 1], Level(i - 1)), FileTree(v0, addr, i - 1);
    FileStep(v0, addr, i);
    assert done + (t + r) == (done + t) + r;
    assert multiset(st0) + multiset(FileTree(v0, addr, NADDR)) == multiset(st0 + done) + multiset(t) + multiset(r);
    OnceParts(multiset(st0 + done) + multiset(t), multiset(r));
    OnceParts(multiset(st0 + done), multiset(t));
    forall x | x in t
      ensures x in FileTree(v0, addr, NADDR)
    {
      assert x in multiset(t);
    }
    IndexInTree(v0, addr[i - 1], Level(i - 1));
    forall x | x in Index(v0, addr[i - 1], Level(i - 1))
      ensures At(v, x) == At(v0, x)
    {
      assert x in multiset(t);
      assert x !in multiset(st0 + done);
      assert x !in done;
    }
    TreeFrame(v0, v, addr[i - 1], Level(i - 1));
  }

  /**
   itrunc: every data and index block of the file goes back to the free list exactly once, whatever
   its shape, and no block of any other file is touched.  Other kinds of inode are left alone.
   */
  method Itrunc(fs: Super, ip: Inode)
    requires HasBlocks(ip.mode) ==> Ready(fs, ip)
    requires fs.Valid() && |fs.Held()| + 1 < NBUF
    modifies fs, fs.bio, ip`addr, ip`size, ip`changed
    ensures fs.Valid() && fs.Held() == old(fs.Held())
    ensures !HasBlocks(ip.mode) ==> fs.stack == old(fs.stack) && fs.bio.view == old(fs.bio.view) && ip.addr == old(ip.addr) && ip.size == old(ip.size)
    ensures HasBlocks(ip.mode) ==> |old(ip.addr)| == NADDR && fs.stack == old(fs.stack) + FileTree(old(fs.bio.view), old(ip.addr), NADDR)
    ensures HasBlocks(ip.mode) ==> Except(old(fs.bio.view), fs.bio.view, FileTree(old(fs.bio.view), old(ip.addr), NADDR))
    ensures HasBlocks(ip.mode) ==> ip.addr == Holes() && ip.size == 0
  {
    hide AvLinked, Chosen, Back, DevLinked, Sized, Coherent, Quiet, Ring, Chain, Proper, Tree, FileTree, Owned, Cache.Valid;
    if !HasBlocks(ip.mode) {
      return;
    }
    ghost var v0, st0, addr, held0 := fs.bio.view, fs.stack, ip.addr, fs.Held();
    ghost var done: seq<nat> := [];
    var i := NADDR;
    while i > 0
      invariant 0 <= i <= NADDR && |ip.addr| == NADDR && FileTree(v0, addr, NADDR) == done + FileTree(v0, addr, i)
      invariant fs.Valid() && fs.stack == st0 + done && fs.Held() == held0 && Except(v0, fs.bio.view, done)
      invariant forall k :: 0 <= k < NADDR ==> ip.addr[k] == if k < i then addr[k] else 0
    {
      i := i - 1;
      TruncEntry(v0, fs.bio.view, addr, i + 1, done, st0, fs.isize, fs.fsize);
      var bn := ip.addr[i];
      TreeBase(v0, bn, Level(i));
      done := done + Tree(v0, bn, Level(i));
      if bn != 0 {
        ip.addr := ip.addr[i := 0];
        ReapAddress(fs, i, bn);
      }
    }
    NoFile(v0, addr);
    ip.size := 0;
    ip.changed := true;
  }

  /** One address: a data block, or an index block with the tree below it. */
  method ReapAddress(fs: Super, i: nat, bn: nat)
    requires fs.Valid() && |fs.Held()| + 1 < NBUF && bn != 0 && i < NADDR
    requires Owned(fs.stack, Tree(fs.bio.view, bn, Level(i)), fs.isize, fs.fsize)
    requires Loose(fs.Held(), Tree(fs.bio.view, bn, Level(i)))
    modifies fs, fs.bio
    ensures fs.Valid() && fs.Held() == old(fs.Held())
    ensures fs.stack == old(fs.stack) + Tree(old(fs.bio.view), bn, Level(i))
    ensures Except(old(fs.bio.view), fs.bio.view, Tree(old(fs.bio.view), bn, Level(i)))
  {
    hide AvLinked, Chosen, Back, DevLinked, Sized, Coherent, Quiet, Ring, Chain, Proper, Tree, FileTree, Owned, Cache.Valid, Loose;
    if i == NADDR - 3 {
      Tloop(fs, bn, false, false);
    } else if i == NADDR - 2 {
      Tloop(fs, bn, true, false);
    } else if i == NADDR - 1 {
      Tloop(fs, bn, true, true);
    } else {
      TreeBase(fs.bio.view, bn, 0);
      LooseOne(fs.Held(), bn);
      OwnedOne(fs.stack, bn, fs.isize, fs.fsize);
      fs.Free(bn);
    }
  }

  lemma LooseOne(held: map<nat, Buf>, bn: nat)
    requires Loose(held, [bn])
    ensures !Holding(held, bn)
  {
    assert bn in [bn];
  }

  lemma NoFile(v: seq<Block>, addr: seq<nat>)
    requires |addr| == NADDR
    ensures FileTree(v, addr, 0) == []
  {
  }
}
