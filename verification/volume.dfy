/**
 A mounted volume: the superblock, and the i-list as a table of inodes (inode number = index + 1).
 Its operations are the ones that move blocks and inodes: write, truncate, allocate and release.
 */
module Volumes {
  import opened Blocks
  import opened Rings
  import opened BufferCache
  import opened FreeList
  import opened Trees
  import opened Files
  import opened BlockMap
  import opened ByteFiles
  import opened Ownership

  const NICINOD := 100
  const ROOTINO := 2
  /** Inode numbers are sixteen bits: an i-list of 65536 inodes has one that no number reaches. */
  const INUMS := 65536

  /** What a caller can see of an inode. */
  datatype File = File(mode: nat, nlink: int, count: nat, bytes: seq<Byte>, solid: bool)

  lemma NewVolume(v: seq<Block>, st: seq<nat>, fv: seq<FileVal>, isize: nat, fsize: nat)
    requires Proper(st, isize, fsize)
    requires forall i :: 0 <= i < |fv| ==> fv[i].addr == Holes() && fv[i].size == 0
    ensures Balanced(v, st, fv, multiset(st)) && Tidy(v, fv) && forall b :: b in multiset(st) ==> isize <= b < fsize
  {
    hide FileTree, ZeroTail;
    EmptyFile(v);
    DistinctOnce(st);
    NoTotal(v, fv, |fv|);
    forall b | b in multiset(st)
      ensures isize <= b < fsize
    {
      assert b in st;
    }
  }

  ghost function See(v: seq<Block>, f: FileVal): File
    requires |f.addr| == NADDR
  {
    File(f.mode, f.nlink, f.count, BytesOf(v, f), SolidOf(v, f))
  }

  ghost function Seen(v: seq<Block>, fv: seq<FileVal>): (s: seq<File>)
    requires Shaped(fv)
    ensures |s| == |fv|
  {
    seq(|fv|, i requires 0 <= i < |fv| => See(v, fv[i]))
  }

  /** The books and the view of the files after writei on file i. */
  lemma AfterWrite(v: seq<Block>, v': seq<Block>, st: seq<nat>, st': seq<nat>, fv: seq<FileVal>, f: FileVal, circ: multiset<nat>, i: nat)
    requires Balanced(v, st, fv, circ) && Tidy(v, fv) && i < |fv| && HasBlocks(fv[i].mode) && f.mode == fv[i].mode
    requires Wrote(v, fv[i].addr, st, v', f.addr, st') && f.size <= MAXSIZE && ZeroTail(v', f.addr, f.size)
    ensures Balanced(v', st', fv[i := f], circ) && Tidy(v', fv[i := f])
    ensures Seen(v', fv[i := f]) == Seen(v, fv)[i := See(v', f)]
  {
    hide FileTree, Total, ByteAt, Once, Contents, ZeroTail, At, Solid;
    Rebalanced(v, v', st, st', fv, f, circ, i);
  }

  lemma {:induction false} NoTotal(v: seq<Block>, fv: seq<FileVal>, k: nat)
    requires k <= |fv| && Shaped(fv) && forall i :: 0 <= i < |fv| ==> fv[i].addr == Holes()
    ensures Total(v, fv, k) == multiset{}
  {
    hide FileTree, ZeroTail;
    EmptyFile(v);
    if k > 0 {
      NoTotal(v, fv, k - 1);
    }
  }

  lemma {:induction false} DistinctOnce(s: seq<nat>)
    requires Distinct(s)
    ensures Once(multiset(s))
  {
    if s != [] {
      var r := s[..|s| - 1];
      DistinctOnce(r);
      assert s == r + [s[|s| - 1]];
      assert s[|s| - 1] !in multiset(r);
    }
  }

  /** The books and the view of the files after itrunc on inode i, which may then also be freed. */
  lemma AfterTrunc(v: seq<Block>, v': seq<Block>, st: seq<nat>, st': seq<nat>, fv: seq<FileVal>, f: FileVal, circ: multiset<nat>, i: nat)
    requires Balanced(v, st, fv, circ) && Tidy(v, fv) && i < |fv| && |f.addr| == NADDR
    requires if HasBlocks(fv[i].mode)
             then st' == st + FileTree(v, fv[i].addr, NADDR) && Except(v, v', FileTree(v, fv[i].addr, NADDR))
             else st' == st && v' == v
    requires HasBlocks(f.mode) ==> f.addr == Holes() && f.size == 0
    ensures Balanced(v', st', fv[i := f], circ) && Tidy(v', fv[i := f])
    ensures Seen(v', fv[i := f]) == Seen(v, fv)[i := File(f.mode, f.nlink, f.count, [], true)]
  {
    hide FileTree, Total, ByteAt, Once, ZeroTail;
    EmptyFile(v');
    forall x: nat | x !in Own(v, fv[i]) && x !in st
      ensures At(v', x) == At(v, x)
    {
    }
    Rebalanced(v, v', st, st', fv, f, circ, i);
    assert BytesOf(v', f) == [] && SolidOf(v', f);
  }

  lemma AfterFree(v: seq<Block>, st: seq<nat>, fv: seq<FileVal>, f: FileVal, circ: multiset<nat>, i: nat)
    requires Balanced(v, st, fv, circ) && Tidy(v, fv) && i < |fv| && |f.addr| == NADDR && !HasBlocks(f.mode)
    requires HasBlocks(fv[i].mode) ==> fv[i].addr == Holes()
    ensures Balanced(v, st, fv[i := f], circ) && Tidy(v, fv[i := f])
    ensures Seen(v, fv[i := f]) == Seen(v, fv)[i := File(f.mode, f.nlink, f.count, [], true)]
  {
    hide FileTree, Total, ByteAt, Once, ZeroTail, Balanced, Tidy, Seen, Holes;
    EmptyFile(v);
    AfterTrunc(v, v, st, st, fv, f, circ, i);
  }

  /** How many of the first k inodes are free. */
  ghost function FreeCount(fv: seq<FileVal>, k: nat): nat
    requires k <= |fv|
  {
    if k == 0 then 0 else FreeCount(fv, k - 1) + if fv[k - 1].mode == 0 then 1 else 0
  }

  lemma {:induction false} AllFree(fv: seq<FileVal>, k: nat)
    requires k <= |fv| && forall i :: 0 <= i < |fv| ==> (fv[i].mode == 0 <==> i >= ROOTINO)
    ensures FreeCount(fv, k) == if k <= ROOTINO then 0 else k - ROOTINO
  {
    if k > 0 {
      AllFree(fv, k - 1);
    }
  }

  lemma {:induction false} FreeCountUpdate(fv: seq<FileVal>, i: nat, f: FileVal, k: nat)
    requires i < |fv| && k <= |fv|
    ensures FreeCount(fv[i := f], k) == FreeCount(fv, k)
              + (if i < k && f.mode == 0 then 1 else 0) - (if i < k && fv[i].mode == 0 then 1 else 0)
  {
    if k > 0 {
      FreeCountUpdate(fv, i, f, k - 1);
    }
  }

  /** The i-list fits the inode numbers; a last inode without a number is never used. */
  ghost predicate Listed(fv: seq<FileVal>) {
    ROOTINO <= |fv| <= INUMS && fv[0].mode != 0 && (|fv| == INUMS ==> fv[INUMS - 1].mode == 0)
  }

  /**
   The superblock's inode cache: distinct inodes, really free, and the exact count of all free ones.  Only in
   an i-list of 65536 inodes, once an allocation has failed, does the count leave out the inode without a number.
   */
  ghost predicate Counted(fv: seq<FileVal>, ninode: nat, icache: seq<nat>, tinode: nat) {
    && ninode <= NICINOD == |icache| && Listed(fv)
    && (forall j :: 0 <= j < |fv| && !HasBlocks(fv[j].mode) ==> fv[j].size == 0)
    && (forall j :: 0 <= j < |fv| && fv[j].mode == 0 ==> fv[j].count == 0)
    && Cached(fv, ninode, icache)
    && (tinode == FreeCount(fv, |fv|) || (|fv| == INUMS && tinode == FreeCount(fv, INUMS - 1)))
  }

  ghost predicate Cached(fv: seq<FileVal>, ninode: nat, icache: seq<nat>)
    requires ninode <= |icache|
  {
    && (forall k :: 0 <= k < ninode ==> ROOTINO <= icache[k] <= |fv| && icache[k] < INUMS && fv[icache[k] - 1].mode == 0)
    && (forall k, m :: 0 <= k < m < ninode ==> icache[k] != icache[m])
  }

  /** What a search of the i-list leaves in the table: the free inodes with the lowest numbers, in order, a hundred of them or all. */
  ghost predicate Swept(fv: seq<FileVal>, ninode: nat, icache: seq<nat>) {
    && ninode <= NICINOD == |icache|
    && (forall k, m :: 0 <= k < m < ninode ==> icache[k] < icache[m])
    && (forall k :: 0 <= k < ninode ==> 1 <= icache[k] <= |fv| && icache[k] < INUMS && fv[icache[k] - 1].mode == 0)
    && forall ino :: 1 <= ino <= |fv| && ino < INUMS && fv[ino - 1].mode == 0 && (ninode < NICINOD || ino <= icache[ninode - 1]) ==> ino in icache[..ninode]
  }

  /** A file that stays allocated does not disturb the inode counts. */
  lemma CountedSame(fv: seq<FileVal>, ninode: nat, icache: seq<nat>, tinode: nat, i: nat, f: FileVal)
    requires Counted(fv, ninode, icache, tinode) && i < |fv| && fv[i].mode != 0 && f.mode != 0
    requires HasBlocks(f.mode) || (f.mode == fv[i].mode && f.size == fv[i].size)
    ensures Counted(fv[i := f], ninode, icache, tinode)
  {
    FreeCountUpdate(fv, i, f, |fv|);
    FreeCountUpdate(fv, i, f, |fv| - 1);
  }

  lemma NewCounted(fv: seq<FileVal>, icache: seq<nat>)
    requires ROOTINO <= |fv| <= INUMS && |icache| == NICINOD
    requires forall i :: 0 <= i < |fv| ==> (fv[i].mode == 0 <==> i >= ROOTINO) && fv[i].size == 0 && fv[i].count == 0
    ensures Counted(fv, 0, icache, |fv| - ROOTINO)
  {
    AllFree(fv, |fv|);
  }

  lemma CountedFacts(fv: seq<FileVal>, ninode: nat, icache: seq<nat>, tinode: nat, i: nat)
    requires Counted(fv, ninode, icache, tinode) && i < |fv|
    ensures ninode <= |icache| == NICINOD && ROOTINO <= |fv| && (fv[i].mode != 0 ==> i + 1 < INUMS)
    ensures !HasBlocks(fv[i].mode) ==> fv[i].size == 0
    ensures fv[i].count > 0 ==> fv[i].mode != 0
  {
  }

  /** The parts of Counted that taking inodes from the superblock's table depends on. */
  ghost predicate TableOkOn(fv: seq<FileVal>, ninode: nat, icache: seq<nat>) {
    && ninode <= |icache| == NICINOD && Listed(fv)
    && Cached(fv, ninode, icache)
    && (forall j :: 0 <= j < |fv| && fv[j].mode == 0 ==> fv[j].count == 0)
  }

  /** Midway through a search, with the first n inodes looked at. */
  ghost predicate Sweeping(fv: seq<FileVal>, n: nat, ninode: nat, icache: seq<nat>) {
    && n <= |fv| && TableOkOn(fv, ninode, icache)
    && (forall k :: 0 <= k < ninode ==> icache[k] <= n)
    && (forall k, m :: 0 <= k < m < ninode ==> icache[k] < icache[m])
    && forall ino :: 1 <= ino <= n && ino < INUMS && fv[ino - 1].mode == 0 ==> ino in icache[..ninode]
  }

  lemma SweepOn(fv: seq<FileVal>, n: nat, ninode: nat, icache: seq<nat>)
    requires Sweeping(fv, n, ninode, icache) && n < |fv| && ninode < NICINOD
    ensures fv[n].mode != 0 || n + 1 == INUMS ==> Sweeping(fv, n + 1, ninode, icache)
    ensures fv[n].mode == 0 && n + 1 < INUMS ==> Sweeping(fv, n + 1, ninode + 1, icache[ninode := n + 1])
  {
    if fv[n].mode == 0 && n + 1 < INUMS {
      assert icache[ninode := n + 1][..ninode + 1] == icache[..ninode] + [n + 1];
    }
  }

  lemma SweepNone(fv: seq<FileVal>, icache: seq<nat>)
    requires TableOkOn(fv, 0, icache)
    ensures Sweeping(fv, 0, 0, icache)
  {
  }

  lemma SweepFacts(fv: seq<FileVal>, n: nat, ninode: nat, icache: seq<nat>)
    requires Sweeping(fv, n, ninode, icache)
    ensures TableOkOn(fv, ninode, icache) && |fv| <= INUMS
    ensures forall j :: 0 <= j < |fv| && fv[j].mode == 0 ==> fv[j].count == 0
  {
  }

  lemma SweepMember(fv: seq<FileVal>, n: nat, ninode: nat, icache: seq<nat>, ino: nat)
    requires Sweeping(fv, n, ninode, icache) && 1 <= ino <= n && ino < INUMS && fv[ino - 1].mode == 0
    ensures ninode > 0
  {
    assert ino in icache[..ninode];
  }

  /** The last entry of the table is a free inode, and the others are different. */
  lemma TableTop(fv: seq<FileVal>, ninode: nat, icache: seq<nat>)
    requires TableOkOn(fv, ninode, icache)
    ensures ninode <= |icache| == NICINOD
    ensures ninode > 0 ==>
      && ROOTINO <= icache[ninode - 1] <= |fv| && icache[ninode - 1] < INUMS && fv[icache[ninode - 1] - 1].mode == 0
      && TableOkOn(fv, ninode - 1, icache) && forall k :: 0 <= k < ninode - 1 ==> icache[k] != icache[ninode - 1]
  {
  }

  lemma SweepDone(fv: seq<FileVal>, n: nat, ninode: nat, icache: seq<nat>)
    requires Sweeping(fv, n, ninode, icache) && (n == |fv| || ninode >= NICINOD)
    ensures Swept(fv, ninode, icache)
    ensures ninode == 0 ==> forall j :: 0 <= j < |fv| && j + 1 < INUMS ==> fv[j].mode != 0
  {
    if ninode == 0 {
      forall j | 0 <= j < |fv| && j + 1 < INUMS
        ensures fv[j].mode != 0
      {
        if fv[j].mode == 0 {
          SweepMember(fv, n, ninode, icache, j + 1);
        }
      }
    }
  }

  lemma CountedTable(fv: seq<FileVal>, ninode: nat, icache: seq<nat>, tinode: nat)
    requires Counted(fv, ninode, icache, tinode)
    ensures TableOkOn(fv, ninode, icache)
  {
  }

  lemma {:induction false} NoneFree(fv: seq<FileVal>, k: nat)
    requires k <= |fv| && forall j :: 0 <= j < k ==> fv[j].mode != 0
    ensures FreeCount(fv, k) == 0
  {
    if k > 0 {
      NoneFree(fv, k - 1);
    }
  }

  /** When no inode with a number is free, clearing the count is right but for the one without. */
  lemma CountedNone(fv: seq<FileVal>, ninode: nat, icache: seq<nat>, tinode: nat, ninode': nat, icache': seq<nat>)
    requires Counted(fv, ninode, icache, tinode) && TableOkOn(fv, ninode', icache')
    requires forall j :: 0 <= j < |fv| && j + 1 < INUMS ==> fv[j].mode != 0
    ensures Counted(fv, ninode', icache', 0)
    ensures FreeCount(fv, |fv|) == if |fv| == INUMS then 1 else 0
  {
    NoneFree(fv, if |fv| == INUMS then INUMS - 1 else |fv|);
  }

  /** Taking free inode i out of the table and giving it a mode leaves one free inode less. */
  lemma CountedTaken(fv: seq<FileVal>, ninode: nat, icache: seq<nat>, tinode: nat, ninode': nat, icache': seq<nat>, i: nat, f: FileVal)
    requires Counted(fv, ninode, icache, tinode) && TableOkOn(fv, ninode', icache')
    requires ROOTINO <= i + 1 <= |fv| && i + 1 < INUMS && fv[i].mode == 0 && f.mode != 0 && f.size == 0
    requires forall k :: 0 <= k < ninode' ==> icache'[k] != i + 1
    ensures tinode > 0 && Counted(fv[i := f], ninode', icache', tinode - 1) && fv[i].size == 0
  {
    FreeCountUpdate(fv, i, f, |fv|);
    FreeCountUpdate(fv, i, f, |fv| - 1);
  }

  lemma SameBlocks(v: seq<Block>, st: seq<nat>, fv: seq<FileVal>, f: FileVal, circ: multiset<nat>, i: nat)
    requires Balanced(v, st, fv, circ) && Tidy(v, fv) && i < |fv| && f.addr == fv[i].addr && f.mode == fv[i].mode && f.size == fv[i].size
    ensures Balanced(v, st, fv[i := f], circ) && Tidy(v, fv[i := f])
    ensures Seen(v, fv[i := f]) == Seen(v, fv)[i := See(v, f)] && BytesOf(v, f) == BytesOf(v, fv[i]) && SolidOf(v, f) == SolidOf(v, fv[i])
  {
    hide FileTree, Total, ByteAt, Once, ZeroTail, Contents;
    Rebalanced(v, v, st, st, fv, f, circ, i);
  }

  /** A freed inode is one more free inode; it is remembered unless the table is full, and was not remembered before. */
  lemma CountedFreed(fv: seq<FileVal>, ninode: nat, icache: seq<nat>, tinode: nat, i: nat, f: FileVal, ninode': nat, icache': seq<nat>)
    requires Counted(fv, ninode, icache, tinode) && ROOTINO <= i + 1 <= |fv| && fv[i].mode != 0 && f.mode == 0 && f.count == 0 && f.size == 0
    requires if ninode >= NICINOD then ninode' == ninode && icache' == icache
             else ninode' == ninode + 1 && icache' == icache[ninode := i + 1]
    ensures Counted(fv[i := f], ninode', icache', tinode + 1)
  {
    FreeCountUpdate(fv, i, f, |fv|);
    FreeCountUpdate(fv, i, f, |fv| - 1);
  }

  class Volume {
    const fs: Super
    const itab: seq<Inode>
    /** The blocks mkfs put in circulation. */
    ghost const circ: multiset<nat>
    var ninode: nat
    var icache: seq<nat>
    var tinode: nat

    /** A new volume: no inode has a block yet, so that the free list is all there is. */
    constructor (s: Super, table: seq<Inode>)
      requires s.Valid() && |s.Held()| <= 1 && (forall k :: k in s.Held() ==> !s.Held()[k].onDev)
      requires forall i, j :: 0 <= i < j < |table| ==> table[i] != table[j]
      requires forall i :: 0 <= i < |table| ==> table[i].addr == Holes() && table[i].size == 0 && (table[i].mode == 0 <==> i >= ROOTINO)
      requires forall i :: 0 <= i < |table| ==> table[i].count == 0
      requires ROOTINO <= |table| <= INUMS
      ensures Valid() && fs == s && itab == table && circ == multiset(s.stack)
    {
      hide AvLinked, DevLinked, Sized, Coherent, Quiet, Chain, Proper, FileTree, Grip, Cache.Valid, ZeroTail, Balanced, Tidy, Counted, Holes;
      fs, itab := s, table;
      circ := multiset(s.stack);
      ninode, icache, tinode := 0, seq(NICINOD, i => 0), |table| - ROOTINO;
      new;
      ghost var fv := Vals();
      assert forall i :: 0 <= i < |fv| ==> fv[i] == Val(i);
      NewVolume(fs.bio.view, fs.stack, fv, fs.isize, fs.fsize);
      NewCounted(fv, icache);
    }

    ghost predicate Separate()
    {
      forall i, j :: 0 <= i < j < |itab| ==> itab[i] != itab[j]
    }

    ghost function Val(i: nat): FileVal
      requires i < |itab|
      reads itab
    {
      var ip := itab[i];
      FileVal(ip.mode, ip.nlink, ip.count, ip.size, ip.addr)
    }

    ghost function Vals(): (fv: seq<FileVal>)
      reads itab
      ensures |fv| == |itab|
    {
      seq(|itab|, i requires 0 <= i < |itab| reads itab => Val(i))
    }

    ghost predicate Valid()
      reads this, fs, fs.bio, itab
    {
      && fs.Valid() && Separate()
      && (forall b :: b in circ ==> fs.isize <= b < fs.fsize)
      && Balanced(fs.bio.view, fs.stack, Vals(), circ)
      && Tidy(fs.bio.view, Vals())
      && Counted(Vals(), ninode, icache, tinode)
      && Idle()
    }

    /** Between calls only the superblock's buffer, which stands for no block, is held. */
    ghost predicate Idle()
      reads fs.bio
    {
      |fs.Held()| <= 1 && forall k :: k in fs.Held() ==> !fs.Held()[k].onDev
    }

    ghost function State(): (s: seq<File>)
      reads this, fs, fs.bio, itab
      requires Valid()
      ensures |s| == |itab|
    {
      Seen(fs.bio.view, Vals())
    }

    /** writei on inode i: only that file changes. */
    method Write(i: nat, off: nat, src: seq<Byte>) returns (n: nat)
      requires Valid() && i < |itab| && HasBlocks(State()[i].mode) && off + |src| <= MAXSIZE
      modifies fs, fs.bio, itab[i]
      ensures Valid() && n <= |src| && (n < |src| ==> fs.stack == [] && (n == 0 || (off + n) % 512 == 0)) && fs.stack <= old(fs.stack)
      ensures n == 0 < |src| && off < 512 * (NADDR - 3) ==> old(fs.stack) == []
      ensures off % 512 + |src| <= 512 ==> |old(fs.stack)| <= |fs.stack| + 4
      ensures State() == old(State())[i := old(State())[i].(bytes := Splice(old(State())[i].bytes, off, src[..n]), solid := State()[i].solid)]
      ensures old(State())[i].solid && off <= |old(State())[i].bytes| ==> State()[i].solid
      ensures old(State())[i].solid && off + |src| <= |old(State())[i].bytes| ==> n == |src|
    {
      hide AvLinked, DevLinked, Sized, Coherent, Quiet, Chain, Proper, FileTree, Once, Grip, Cache.Valid, Total, Splice,
           ZeroTail, Wrote, Own, Counted, ByteAt, Solid;
      ghost var v, st, fv := fs.bio.view, fs.stack, Vals();
      StateAt(i);
      FileOwned(v, st, fv, circ, i, fs.isize, fs.fsize);
      n := Writei(fs, itab[i], off, src);
      WrotePrefix(v, fv[i].addr, st, fs.bio.view, itab[i].addr, fs.stack);
      assert Vals() == fv[i := Val(i)];
      AfterWrite(v, fs.bio.view, st, fs.stack, fv, Val(i), circ, i);
      CountedSame(fv, ninode, icache, tinode, i, Val(i));
    }

    /** readi on inode i: no file changes. */
    method Read(i: nat, off: nat, count: nat) returns (out: seq<Byte>)
      requires Valid() && i < |itab| && HasBlocks(State()[i].mode)
      modifies fs, fs.bio, itab[i]
      ensures Valid() && State() == old(State()) && out == Window(State()[i].bytes, off, count) && fs.stack == old(fs.stack)
    {
      hide AvLinked, DevLinked, Sized, Coherent, Quiet, Chain, Proper, FileTree, Once, Grip, Cache.Valid, Total, Contents, ZeroTail, Own,
           Counted, ByteAt, Solid, Window;
      ghost var fv := Vals();
      StateAt(i);
      FileOwned(fs.bio.view, fs.stack, fv, circ, i, fs.isize, fs.fsize);
      out := Readi(fs, itab[i], off, count);
      assert Vals() == fv;
    }

    /** itrunc, as an open for writing of an existing file does it, and iput of an unlinked one. */
    method Truncate(i: nat)
      requires Valid() && i < |itab| && State()[i].mode != 0
      modifies fs, fs.bio, itab[i]
      ensures Valid() && State() == old(State())[i := old(State())[i].(bytes := [], solid := true)] && |fs.stack| >= |old(fs.stack)|
      ensures HasBlocks(itab[i].mode) ==> itab[i].addr == Holes() && itab[i].size == 0
      ensures itab[i].mode == old(itab[i].mode) && itab[i].nlink == old(itab[i].nlink) && itab[i].count == old(itab[i].count)
    {
      hide AvLinked, DevLinked, Sized, Coherent, Quiet, Chain, Proper, FileTree, Once, Grip, Cache.Valid, Total, ZeroTail, Own, Counted,
           Contents, Holes;
      ghost var v, st, fv := fs.bio.view, fs.stack, Vals();
      StateAt(i);
      if HasBlocks(itab[i].mode) {
        FileOwned(v, st, fv, circ, i, fs.isize, fs.fsize);
      }
      Itrunc(fs, itab[i]);
      assert Vals() == fv[i := Val(i)];
      AfterTrunc(v, fs.bio.view, st, fs.stack, fv, Val(i), circ, i);
      CountedSame(fv, ninode, icache, tinode, i, Val(i));
    }

    /** A change of an allocated inode's counts alone. */
    method Recount(i: nat, nlink: int, count: nat)
      requires Valid() && i < |itab| && State()[i].mode != 0
      modifies itab[i]
      ensures Valid() && State() == old(State())[i := old(State())[i].(nlink := nlink, count := count)]
    {
      hide AvLinked, DevLinked, Sized, Coherent, Quiet, Chain, Proper, FileTree, Once, Grip, Cache.Valid, Total, ZeroTail, Counted, Contents;
      ghost var fv := Vals();
      StateAt(i);
      itab[i].nlink, itab[i].count := nlink, count;
      itab[i].changed := true;
      assert Vals() == fv[i := Val(i)];
      SameBlocks(fs.bio.view, fs.stack, fv, Val(i), circ, i);
      CountedSame(fv, ninode, icache, tinode, i, Val(i));
    }

    /** iget: one more reference to an allocated inode. */
    method Iget(i: nat)
      requires Valid() && i < |itab| && State()[i].mode != 0
      modifies itab[i]
      ensures Valid() && State() == old(State())[i := old(State())[i].(count := old(State())[i].count + 1)]
    {
      hide AvLinked, DevLinked, Sized, Coherent, Quiet, Chain, Proper, FileTree, Once, Grip, Cache.Valid, Total, ZeroTail, Own, Counted, Contents, Balanced, Tidy, Super.Valid, Volume.Idle, Seen;
      StateAt(i);
      Recount(i, itab[i].nlink, itab[i].count + 1);
    }

    lemma Bounded(i: nat)
      requires Valid() && i < |itab|
      ensures |State()[i].bytes| <= MAXSIZE
    {
      hide AvLinked, DevLinked, Sized, Coherent, Quiet, Chain, Proper, FileTree, Once, Grip, Cache.Valid, Total, Own, Counted, ZeroTail, ByteAt;
      assert Vals()[i] == Val(i);
    }

    lemma CountAt(i: nat)
      requires Valid() && i < |itab| && itab[i].count > 0
      ensures State()[i].mode != 0
    {
      hide AvLinked, DevLinked, Sized, Coherent, Quiet, Chain, Proper, FileTree, Once, Grip, Cache.Valid, Total, Own, Counted, ZeroTail, ByteAt;
      assert Vals()[i] == Val(i);
      CountedFacts(Vals(), ninode, icache, tinode, i);
    }

    lemma SizeAt(i: nat)
      requires Valid() && i < |itab| && HasBlocks(State()[i].mode)
      ensures itab[i].size == |State()[i].bytes|
    {
      hide Cache.Valid, Chain, Balanced, Tidy, Counted, FileTree, ByteAt, Grip;
      StateAt(i);
    }

    /** s_tinode is the number of free inodes, or, in an i-list of 65536, of those with a number. */
    lemma TinodeIs()
      requires Valid()
      ensures Listed(Vals())
      ensures tinode == FreeCount(Vals(), |itab|) || (|itab| == INUMS && tinode == FreeCount(Vals(), INUMS - 1) == FreeCount(Vals(), INUMS) - 1)
    {
      hide Cache.Valid, Chain, Balanced, Tidy, FileTree, Grip, Volume.Vals;
    }

    lemma Modes()
      requires Valid()
      ensures Shaped(Vals()) && forall j :: 0 <= j < |itab| ==> State()[j].mode == itab[j].mode
    {
      hide AvLinked, DevLinked, Sized, Coherent, Quiet, Chain, Proper, FileTree, Once, Grip, Cache.Valid, Total, Tidy, Own, Counted;
      assert forall j :: 0 <= j < |itab| ==> Vals()[j] == Val(j);
    }

    lemma StateAt(i: nat)
      requires Valid() && i < |itab|
      ensures Shaped(Vals()) && State()[i].mode == itab[i].mode && State()[i].count == itab[i].count && State()[i].nlink == itab[i].nlink
      ensures Val(i) == Vals()[i] && |itab[i].addr| == NADDR
      ensures State()[i] == See(fs.bio.view, Vals()[i])
    {
      assert Vals()[i] == Val(i);
    }

    /** ifree: remember the inode in the superblock if there is room; count it in any case. */
    method Ifree(ino: nat)
      requires |icache| == NICINOD
      modifies this`tinode, this`ninode, this`icache
      ensures tinode == old(tinode) + 1 && |icache| == NICINOD
      ensures if old(ninode) >= NICINOD then ninode == old(ninode) && icache == old(icache)
              else ninode == old(ninode) + 1 && icache == old(icache)[old(ninode) := ino]
    {
      tinode := tinode + 1;
      if ninode >= NICINOD {
        return;
      }
      icache := icache[ninode := ino];
      ninode := ninode + 1;
    }

    /**
     iput: drop a reference.  The last one to an inode without links gives back all its blocks, frees
     the inode and remembers it; otherwise blocks and inode stay.
     */
    method Iput(i: nat)
      requires Valid() && ROOTINO <= i + 1 <= |itab| && State()[i].count > 0
      modifies this`tinode, this`ninode, this`icache, fs, fs.bio, itab[i]
      ensures Valid()
      ensures var f := old(State())[i];
        && State() == old(State())[i := if f.count == 1 && f.nlink <= 0 then File(0, f.nlink, 0, [], true) else f.(count := f.count - 1)]
        && ((f.count == 1 && f.nlink <= 0) || fs.stack == old(fs.stack))
        && |fs.stack| >= |old(fs.stack)|
    {
      hide AvLinked, DevLinked, Sized, Coherent, Quiet, Chain, Proper, FileTree, Once, Grip, Cache.Valid, Total, ZeroTail, Own, Counted, Contents, Balanced, Tidy, Super.Valid, Volume.Idle, Seen;
      StateAt(i);
      CountedFacts(Vals(), ninode, icache, tinode, i);
      if itab[i].count == 1 && itab[i].nlink <= 0 {
        Release(i);
      } else {
        Recount(i, itab[i].nlink, itab[i].count - 1);
      }
    }

    /** The last reference to an inode without links goes. */
    method Release(i: nat)
      requires Valid() && ROOTINO <= i + 1 <= |itab| && State()[i].mode != 0
      modifies this`tinode, this`ninode, this`icache, fs, fs.bio, itab[i]
      ensures Valid() && State() == old(State())[i := File(0, old(State())[i].nlink, 0, [], true)] && |fs.stack| >= |old(fs.stack)|
    {
      hide AvLinked, DevLinked, Sized, Coherent, Quiet, Chain, Proper, FileTree, Once, Grip, Cache.Valid, Total, ZeroTail, Own,
           Contents, Counted, Balanced, Tidy, Seen, BytesOf, Holes, Super.Valid, Volume.Idle;
      StateAt(i);
      Truncate(i);
      CountedFacts(Vals(), ninode, icache, tinode, i);
      StateAt(i);
      ghost var fv, n, c := Vals(), ninode, icache;
      Ifree(i + 1);
      itab[i].mode, itab[i].count, itab[i].changed := 0, 0, true;
      assert Vals() == fv[i := Val(i)];
      AfterFree(fs.bio.view, fs.stack, fv, Val(i), circ, i);
      CountedFreed(fv, n, c, tinode - 1, i, Val(i), ninode, icache);
    }

    ghost predicate TableOk()
      reads this, itab
    {
      TableOkOn(Vals(), ninode, icache)
    }

    /**
     ialloc's search of the i-list for up to NICINOD free inodes that are not in core.  The number of inode 65536
     is 0 in sixteen bits, which is found in any unused place of the in-core table, so that it is passed over.
     */
    method Scan()
      requires TableOk() && ninode == 0
      modifies this`ninode, this`icache
      ensures TableOk() && Swept(Vals(), ninode, icache)
      ensures ninode == 0 ==> forall j :: 0 <= j < |itab| && j + 1 < INUMS ==> itab[j].mode != 0
    {
      ghost var fv := Vals();
      assert forall j :: 0 <= j < |itab| ==> fv[j] == Val(j);
      hide Volume.Vals;
      hide Sweeping, Swept, TableOkOn;
      SweepNone(fv, icache);
      TableTop(fv, ninode, icache);
      var n, ino := 0, 1;
      while n < |itab| && ninode < NICINOD
        invariant 0 <= n <= |itab| && ino == (n + 1) % INUMS && ninode <= NICINOD == |icache| && Sweeping(fv, n, ninode, icache)
      {
        SweepOn(fv, n, ninode, icache);
        SweepFacts(fv, n, ninode, icache);
        if itab[n].mode == 0 && itab[n].count == 0 && ino != 0 {
          icache := icache[ninode := ino];
          ninode := ninode + 1;
        }
        n, ino := n + 1, (ino + 1) % INUMS;
      }
      SweepDone(fv, n, ninode, icache);
      SweepFacts(fv, n, ninode, icache);
      assert forall j :: 0 <= j < |itab| ==> itab[j].mode == fv[j].mode;
    }

    /** ialloc: a free inode, from the table or after a search; none only if no inode with a number is free. */
    method Ialloc() returns (ok: bool, i: nat)
      requires TableOk()
      modifies this`ninode, this`icache
      ensures TableOk()
      ensures ok ==> ROOTINO <= i + 1 <= |itab| && i + 1 < INUMS && itab[i].mode == 0 && forall k :: 0 <= k < ninode ==> icache[k] != i + 1
      ensures !ok ==> forall j :: 0 <= j < |itab| && j + 1 < INUMS ==> itab[j].mode != 0
      ensures old(ninode) > 0 ==> ok && ninode == old(ninode) - 1 && icache == old(icache) && i + 1 == icache[ninode]
      ensures old(ninode) == 0 && ok ==> Swept(Vals(), ninode + 1, icache) && i + 1 == icache[ninode]
    {
      hide Volume.Vals, Swept, TableOkOn;
      var searched := false;
      while true
        invariant TableOk() && (searched ==> ninode > 0 == old(ninode) && Swept(Vals(), ninode, icache))
        invariant !searched ==> ninode == old(ninode) && icache == old(icache)
        decreases !searched, ninode
      {
        if ninode > 0 {
          ok, i := Take();
          if ok {
            return;
          }
        } else {
          Scan();
          if ninode == 0 {
            return false, 0;
          }
          searched := true;
        }
      }
    }

    /** The last inode number of the table, if that inode is free: as it always is. */
    method Take() returns (ok: bool, i: nat)
      requires TableOk() && ninode > 0
      modifies this`ninode
      ensures TableOk() && ok && ninode == old(ninode) - 1 < |icache| && i + 1 == icache[ninode]
      ensures ROOTINO <= i + 1 <= |itab| && i + 1 < INUMS && itab[i].mode == 0 && forall k :: 0 <= k < ninode ==> icache[k] != i + 1
    {
      ghost var fv := Vals();
      hide TableOkOn;
      TableTop(fv, ninode, icache);
      ninode := ninode - 1;
      var ino := icache[ninode];
      assert fv[ino - 1] == Val(ino - 1);
      ok, i := ino >= ROOTINO && itab[ino - 1].mode == 0, ino - 1;
    }

    /** ialloc and the fields maknode sets: a new inode with one link, one reference and no bytes. */
    method Create(mode: nat) returns (ok: bool, i: nat)
      requires Valid() && mode != 0
      modifies this`ninode, this`icache, this`tinode, itab
      ensures Valid()
      ensures ok <==> exists j :: 0 <= j < |itab| && j + 1 < INUMS && old(State())[j].mode == 0
      ensures !ok ==> State() == old(State()) && tinode == 0
      ensures ok ==> ROOTINO <= i + 1 <= |itab| && i + 1 < INUMS && old(State())[i].mode == 0 && tinode == old(tinode) - 1
      ensures ok ==> State() == old(State())[i := File(mode, 1, 1, [], true)]
      ensures old(ninode) > 0 ==> ok && ninode == old(ninode) - 1 && icache == old(icache) && i + 1 == icache[ninode]
      ensures old(ninode) == 0 && ok ==> Swept(old(Vals()), ninode + 1, icache) && i + 1 == icache[ninode]
    {
      hide AvLinked, DevLinked, Sized, Coherent, Quiet, Chain, Proper, FileTree, Once, Grip, Cache.Valid, Total, ZeroTail, Own,
           Contents, Counted, Balanced, Tidy, Seen, BytesOf, Super.Valid, Volume.Idle, Holes, Swept, TableOkOn, FreeCount;
      ghost var fv, n, c, t := Vals(), ninode, icache, tinode;
      assert forall j :: 0 <= j < |itab| ==> fv[j] == Val(j);
      CountedTable(fv, ninode, icache, tinode);
      Modes();
      ok, i := Ialloc();
      assert Vals() == fv;
      if !ok {
        tinode := 0;
        CountedNone(fv, n, c, t, ninode, icache);
        return;
      }
      CountedTaken(fv, n, c, t, ninode, icache, i, FileVal(mode, 1, 1, 0, Holes()));
      AfterTrunc(fs.bio.view, fs.bio.view, fs.stack, fs.stack, fv, FileVal(mode, 1, 1, 0, Holes()), circ, i);
      itab[i].addr := Holes();
      if tinode != 0 {
        tinode := tinode - 1;
      }
      itab[i].mode, itab[i].nlink, itab[i].count, itab[i].changed := mode, 1, 1, true;
      assert Vals() == fv[i := Val(i)];
    }
  }
}
