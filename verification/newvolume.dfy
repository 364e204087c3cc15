/** v7fs_mkfs: a new volume, with its free list, its i-list and its root directory. */
module NewVolumes {
  import opened Blocks
  import opened BufferCache
  import opened FreeList
  import opened Trees
  import opened Files
  import opened BlockMap
  import opened ByteFiles
  import opened Ownership
  import opened Volumes
  import opened Directories
  import opened Links
  import opened Hierarchy
  import opened MakeFs

  /** The root directory of a new volume. */
  function RootDents(): (s: seq<Byte>)
    ensures |s| == 2 * DENT
  {
    Dent(ROOTINO, Dot()) + Dent(ROOTINO, DotDot())
  }

  lemma RootSlots()
    ensures Slots(RootDents()) == [Slot(ROOTINO, Dot()), Slot(ROOTINO, DotDot())] && Unique(Slots(RootDents()))
  {
    hide Dent, Dot, DotDot;
    var c := RootDents();
    EntryOfDent(ROOTINO, Dot());
    EntryOfDent(ROOTINO, DotDot());
    assert c[0..16] == Dent(ROOTINO, Dot()) && c[16..32] == Dent(ROOTINO, DotDot());
    assert SlotAt(c, 0) == Slot(ROOTINO, Dot()) && SlotAt(c, 1) == Slot(ROOTINO, DotDot());
    DotsSpelled();
  }

  /** Only the bad block file and the root, which names itself. */
  ghost predicate Fresh(s: seq<File>) {
    && ROOTINO <= |s| <= INUMS
    && s[0] == File(32768, 0, 0, [], true) && s[1] == File(IFDIR + 511, 2, 0, RootDents(), true)
    && forall i :: ROOTINO <= i < |s| ==> s[i] == File(0, 0, 0, [], true)
  }

  lemma {:induction false} FreshRefs(s: seq<File>, x: nat, n: nat)
    requires Fresh(s) && n <= |s|
    ensures Refs(s, x, n) == if n >= ROOTINO && x == ROOTINO then 2 else 0
  {
    hide RootDents, Slots, Dot, DotDot;
    if n > 0 {
      FreshRefs(s, x, n - 1);
      RootSlots();
      CountTwo(Slot(ROOTINO, Dot()), Slot(ROOTINO, DotDot()), x);
    }
  }

  lemma FreshLook(s: seq<File>, d: int, n: Name)
    requires Fresh(s)
    ensures Look(s, d, n) == if d == ROOTINO - 1 && !Plain(n) then ROOTINO else 0
  {
    hide RootDents, Slots, Dot, DotDot, DirMap, Find;
    if d == ROOTINO - 1 {
      RootSlots();
      LookIsFind(s, d, n);
      var e := Slots(s[d].bytes);
      var f := Find(e, n);
      assert e[0].name == Dot() && e[1].name == DotDot();
    }
  }

  lemma FreshSound(s: seq<File>)
    requires Fresh(s)
    ensures Sound(s)
  {
    hide RootDents, Slots, Dot, DotDot, DirMap, Find, Guarded, Exact, Look, Plain, Spelled, Homed, Child;
    FreshLinked(s);
    forall d: nat, n: Name
      ensures Fine(s, d, n)
    {
      FreshLook(s, d, n);
      if d == ROOTINO - 1 {
        FreshHome(s);
        assert ClimbsIn(s, d, 0);
        if !Plain(n) {
          DotCases(n);
          DotsSpelled();
        }
      }
    }
    AllFine(s);
  }

  lemma FreshHome(s: seq<File>)
    requires Fresh(s)
    ensures Homed(s, ROOTINO - 1)
  {
    hide RootDents, Slots, Dot, DotDot, DirMap, Find, Look, Plain;
    FreshLook(s, ROOTINO - 1, Dot());
    FreshLook(s, ROOTINO - 1, DotDot());
    DotsSpelled();
  }

  lemma FreshLinked(s: seq<File>)
    requires Fresh(s)
    ensures Linked(s)
  {
    hide RootDents, Slots, Dot, DotDot, DirMap, Find, Refs, Unique;
    RootSlots();
    forall x: nat
      ensures Refs(s, x, |s|) == if x == ROOTINO then 2 else 0
    {
      FreshRefs(s, x, |s|);
    }
  }

  /** The i-list of a new volume: the bad block file, the root directory, and free inodes. */
  method NewTable(n: nat) returns (table: seq<Inode>)
    requires n >= ROOTINO
    ensures |table| == n && (forall i :: 0 <= i < n ==> fresh(table[i]) && NewInodeOk(table[i], i))
    ensures forall i, j :: 0 <= i < j < n ==> table[i] != table[j]
  {
    table := [];
    for i := 0 to n
      invariant |table| == i && (forall j :: 0 <= j < i ==> fresh(table[j]) && NewInodeOk(table[j], j))
      invariant forall j, k :: 0 <= j < k < i ==> table[j] != table[k]
    {
      hide Holes;
      var ip := new Inode();
      if i == 0 {
        ip.mode := 32768;
      } else if i == 1 {
        ip.mode, ip.nlink := IFDIR + 511, 2;
      }
      table := table + [ip];
    }
  }

  ghost predicate NewInodeOk(ip: Inode, i: nat)
    reads ip
  {
    && ip.addr == Holes() && ip.size == 0 && ip.count == 0
    && ip.mode == (if i == 0 then 32768 else if i == 1 then IFDIR + 511 else 0)
    && ip.nlink == (if i == 1 then 2 else 0)
  }

  /**
   v7fs_mkfs: an empty volume whose blocks in circulation are the data blocks, without the last one when the
   interleave divides its number.  It fails on sizes out of range.
   */
  method Mkfs(image: seq<Block>, fssize: nat, ilist: nat, n0: nat, m0: nat) returns (vol: Volume?, ghost order: seq<int>)
    requires fssize <= |image|
    ensures vol != null ==>
      && fresh(vol) && fresh(vol.fs) && fresh(vol.fs.bio) && (forall i :: 0 <= i < |vol.itab| ==> fresh(vol.itab[i]))
      && vol.Valid() && Sound(vol.State())
      && Fresh(vol.State()) && |vol.fs.stack| + 5 >= fssize - vol.fs.isize
      && vol.fs.fsize == fssize && vol.fs.isize == IlistBlocks(fssize, ilist) + 2 && |vol.itab| == 8 * IlistBlocks(fssize, ilist)
      && forall b: nat :: vol.circ[b] == if Circulates(b, vol.fs.isize, fssize, if n0 == 0 || n0 >= 500 then 500 else n0) then 1 else 0
    ensures vol != null ==>
      var n := if n0 == 0 || n0 >= 500 then 500 else n0;
      Permutes(order, n) && Spread(order, n, if m0 == 0 || m0 > n then 3 else m0) && InOrder(order, n, vol.fs.stack)
    ensures ilist == 0 && 25 <= fssize < 204700 ==> (vol != null ==> |vol.itab| == 8 * (fssize / 25))
    ensures vol == null <==> fssize < 5 || fssize > 16777215 || IlistBlocks(fssize, ilist) > 8192 || IlistBlocks(fssize, ilist) > fssize - 4
  {
    hide Volume.Valid, Volume.State, RootDents, Circulates, Splice, Permutes, Spread, Precedes;
    order := [];
    if fssize < 5 || fssize > 16777215 {
      return null, [];
    }
    var blocks := IlistBlocks(fssize, ilist);
    if blocks > 8192 || blocks > fssize - 4 {
      return null, [];
    }
    var n := if n0 == 0 || n0 >= 500 then 500 else n0;
    var m := if m0 == 0 || m0 > n then 3 else m0;
    vol, order := NewVolumeOf(image, fssize, blocks, n, m);
    var w := vol.Write(ROOTINO - 1, 0, RootDents());
    RootWritten(w);
    assert RootDents()[..w] == RootDents();
    SpliceWhole(RootDents());
    FreshSound(vol.State());
  }

  lemma RootWritten(w: nat)
    requires w != 0 && w <= 32 && (w < 32 ==> w % 512 == 0)
    ensures w == 32
  {
  }

  lemma SpliceWhole(c: seq<Byte>)
    ensures Splice([], 0, c) == c
  {
  }

  function IlistBlocks(fssize: nat, ilist: nat): (n: nat)
    ensures n >= 1 && (ilist == 0 ==> n < 8192)
  {
    if ilist != 0 then ilist
    else if fssize / 25 == 0 then 1
    else if fssize / 25 > 65500 / 8 then 65500 / 8
    else fssize / 25
  }

  lemma FirstCirculates(isize: nat, fsize: nat, n: nat)
    requires isize + 1 < fsize && n >= 1
    ensures Circulates(isize, isize, fsize, n)
  {
  }

  method NewVolumeOf(image: seq<Block>, fssize: nat, blocks: nat, n: nat, m: nat) returns (vol: Volume, ghost order: seq<int>)
    requires fssize <= |image| && fssize < 0x100_0000 && 1 <= blocks <= 8192 && blocks + 4 <= fssize && n >= 1
    ensures fresh(vol) && fresh(vol.fs) && fresh(vol.fs.bio) && (forall i :: 0 <= i < |vol.itab| ==> fresh(vol.itab[i]))
    ensures vol.Valid() && vol.fs.fsize == fssize && vol.fs.isize == blocks + 2 && |vol.itab| == 8 * blocks && vol.fs.stack != [] && |vol.fs.stack| + 1 >= fssize - vol.fs.isize
    ensures forall b: nat :: vol.circ[b] == if Circulates(b, vol.fs.isize, fssize, n) then 1 else 0
    ensures Permutes(order, n) && Spread(order, n, m) && InOrder(order, n, vol.fs.stack)
    ensures var s := vol.State();
      && s[0] == File(32768, 0, 0, [], true) && s[1] == File(IFDIR + 511, 2, 0, [], true)
      && forall i :: ROOTINO <= i < |s| ==> s[i] == File(0, 0, 0, [], true)
  {
    hide AvLinked, DevLinked, Sized, Coherent, Quiet, Chain, Proper, FileTree, Cache.Valid, ZeroTail, Balanced, Tidy, Counted, Holes, ByteAt, Circulates, Permutes, Spread, InOrder;
    var cache := new Cache(image);
    var fs := new Super(cache, blocks + 2, fssize);
    order := InitFreeList(fs, n, m);
    FirstCirculates(blocks + 2, fssize, n);
    assert blocks + 2 in fs.stack;
    var table := NewTable(8 * blocks);
    vol := new Volume(fs, table);
    forall i | 0 <= i < |table|
      ensures vol.State()[i] == File(table[i].mode, table[i].nlink, 0, [], true)
    {
      vol.StateAt(i);
      EmptyFile(vol.fs.bio.view);
    }
  }
}
