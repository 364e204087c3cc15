/** The volume and the in-core inode table together: after update the disk alone gives every file. */
module OnDisk {
  import opened Blocks
  import opened BufferCache
  import opened FreeList
  import opened Trees
  import opened Files
  import opened BlockMap
  import opened ByteFiles
  import opened Ownership
  import opened Volumes
  import opened Links
  import opened InodeCore

  /** An inode of the list, with so many references. */
  ghost function ValOf(c: Core, count: nat): FileVal {
    FileVal(c.mode, Short(c.nlink), count, c.size, c.addr)
  }

  /** The table and the i-list hold the volume's inodes. */
  ghost predicate Mirrors(view: seq<Block>, slots: seq<InodeCore.Slot>, isize: nat, fv: seq<FileVal>) {
    && 2 <= isize <= |view| && |fv| == 8 * (isize - 2)
    && forall i :: 0 <= i < |fv| ==> MirroredAt(view, slots, fv[i], i)
  }

  ghost predicate MirroredAt(view: seq<Block>, slots: seq<InodeCore.Slot>, f: FileVal, i: nat)
    requires Itod(i + 1) < |view|
  {
    Mirrored(Logical(view, slots, i + 1), f)
  }

  ghost predicate Mirrored(c: Core, f: FileVal) {
    if f.mode == 0 then c.mode == 0 else ValOf(c, f.count) == f
  }

  /** A change of one inode, made in its place of the table too, keeps the mirror. */
  lemma MirrorsKept(view: seq<Block>, slots: seq<InodeCore.Slot>, slots': seq<InodeCore.Slot>, isize: nat, fv: seq<FileVal>, i: nat, c: Core, f: FileVal)
    requires Mirrors(view, slots, isize, fv) && i < |fv| && Mirrored(c, f)
    requires forall ino: nat :: 1 <= ino && Itod(ino) < isize ==> Logical(view, slots', ino) == if ino == i + 1 then c else Logical(view, slots, ino)
    ensures Mirrors(view, slots', isize, fv[i := f])
  {
    hide Logical, Mirrored;
    var fv' := fv[i := f];
    forall j | 0 <= j < |fv|
      ensures MirroredAt(view, slots', fv'[j], j)
    {
      assert MirroredAt(view, slots, fv[j], j);
    }
  }

  /** Files and books do not depend on the blocks of the i-list. */
  lemma ListApart(v: seq<Block>, v': seq<Block>, isize: nat, st: seq<nat>, fv: seq<FileVal>, circ: multiset<nat>)
    requires Balanced(v, st, fv, circ) && Tidy(v, fv) && (forall b :: b in circ ==> b >= isize) && ListOnly(v, v', isize)
    ensures Ownership.Shaped(fv) && Balanced(v', st, fv, circ) && Tidy(v', fv) && Seen(v', fv) == Seen(v, fv)
  {
    hide FileTree, Total, ByteAt, Lookup, Once, At;
    forall j | 0 <= j < |fv|
      ensures Own(v', fv[j]) == Own(v, fv[j]) && See(v', fv[j]) == See(v, fv[j])
      ensures HasBlocks(fv[j].mode) ==> ZeroTail(v', fv[j].addr, fv[j].size)
    {
      if HasBlocks(fv[j].mode) {
        BeyondList(v, v', isize, st, fv, circ, j);
      }
    }
    TotalSame(v, v', fv, |fv|);
  }

  lemma BeyondList(v: seq<Block>, v': seq<Block>, isize: nat, st: seq<nat>, fv: seq<FileVal>, circ: multiset<nat>, j: nat)
    requires Balanced(v, st, fv, circ) && (forall b :: b in circ ==> b >= isize) && ListOnly(v, v', isize) && j < |fv| && HasBlocks(fv[j].mode)
    ensures FileTree(v', fv[j].addr, NADDR) == FileTree(v, fv[j].addr, NADDR)
    ensures forall o: nat :: ByteAt(v', fv[j].addr, o) == ByteAt(v, fv[j].addr, o)
    ensures forall bn: nat :: Lookup(v', fv[j].addr, bn) == Lookup(v, fv[j].addr, bn)
  {
    hide FileTree, Total, Lookup, ByteAt, Once;
    forall x: nat | x in FileTree(v, fv[j].addr, NADDR)
      ensures At(v', x) == At(v, x)
    {
      assert x in multiset(FileTree(v, fv[j].addr, NADDR));
      EachBlockOnce(v, st, fv, circ, x);
      assert x in Own(v, fv[j]);
    }
    TreeOnce(v, st, fv, circ, j);
    SameFile(v, v', fv[j].addr);
  }

  lemma {:induction false} TotalSame(v: seq<Block>, v': seq<Block>, fv: seq<FileVal>, k: nat)
    requires Ownership.Shaped(fv) && k <= |fv| && forall j :: 0 <= j < |fv| ==> Own(v', fv[j]) == Own(v, fv[j])
    ensures Total(v', fv, k) == Total(v, fv, k)
  {
    hide Own;
    if k > 0 {
      TotalSame(v, v', fv, k - 1);
    }
  }

  /** The disk has inode i of the volume: its fields on the list, and its bytes in the blocks they lead to. */
  ghost predicate DiskHas(disk: seq<Block>, i: nat, f: File) {
    && Itod(i + 1) < |disk|
    && var c := OnList(disk, i + 1);
    if f.mode == 0 then c.mode == 0
    else |c.addr| == NADDR && See(disk, ValOf(c, f.count)) == f
  }

  lemma NothingHeld(grip: map<nat, Buf>, isize: nat, b: int)
    requires |grip| <= 1 && forall k :: k in grip ==> !grip[k].onDev
    ensures !Holding(grip, b) && ListFree(grip, isize)
  {
  }

  /** v7fs_sync: the inodes in core go to the list and everything to the disk, which then gives every file by itself. */
  method Sync(vol: Volume, table: Table, ta: nat, tm: nat, now: nat)
    requires vol.Valid() && table.Valid() && table.bio == vol.fs.bio && table.isize == vol.fs.isize
    requires Mirrors(vol.fs.bio.view, table.slots, table.isize, vol.Vals())
    modifies table`slots, vol.fs.bio
    ensures vol.Valid() && vol.State() == old(vol.State()) && table.Valid()
    ensures Mirrors(vol.fs.bio.view, table.slots, table.isize, vol.Vals())
    ensures forall i :: 0 <= i < |vol.itab| ==> DiskHas(vol.fs.bio.disk, i, vol.State()[i])
  {
    hide Cache.Valid, TableOk, OnList, Balanced, Tidy, Counted, Chain, Proper, Logical, SlotOk, Seen, See, ListOnly;
    ghost var view, slots, fv := vol.fs.bio.view, table.slots, vol.Vals();
    table.Sync(ta, tm, now);
    ghost var bio := vol.fs.bio;
    assert vol.Vals() == fv;
    ListApart(view, bio.view, vol.fs.isize, vol.fs.stack, fv, vol.circ);
    StackApart(view, bio.view, vol.fs.isize, vol.fs.fsize, vol.fs.nfree, vol.fs.free, vol.fs.stack);
    forall b | 0 <= b < |bio.view|
      ensures bio.disk[b] == bio.view[b]
    {
      NothingHeld(Grip(bio.bufs), vol.fs.isize, b);
    }
    assert bio.disk == bio.view;
    MirrorsStay(view, slots, bio.view, table.slots, vol.fs.isize, fv);
    forall i | 0 <= i < |vol.itab|
      ensures DiskHas(bio.disk, i, vol.State()[i])
    {
      InodeOnDisk(view, slots, bio.disk, vol.fs.isize, fv, i);
    }
  }

  lemma StackApart(v: seq<Block>, v': seq<Block>, isize: nat, fsize: nat, nfree: nat, free: seq<nat>, st: seq<nat>)
    requires ListOnly(v, v', isize) && Chain(v, nfree, free, st) && Proper(st, isize, fsize) && fsize <= |v|
    ensures Chain(v', nfree, free, st) && |v'| == |v|
  {
    hide Chain;
    ChainFrame(v, v', nfree, free, st);
  }

  lemma MirrorsStay(view: seq<Block>, slots: seq<InodeCore.Slot>, view': seq<Block>, slots': seq<InodeCore.Slot>, isize: nat, fv: seq<FileVal>)
    requires Mirrors(view, slots, isize, fv) && SameInodes(view, slots, view', slots', isize)
    ensures Mirrors(view', slots', isize, fv)
  {
    hide Logical, Mirrored;
    forall i | 0 <= i < |fv|
      ensures MirroredAt(view', slots', fv[i], i)
    {
      assert MirroredAt(view, slots, fv[i], i);
    }
  }

  lemma InodeOnDisk(view: seq<Block>, slots: seq<InodeCore.Slot>, disk: seq<Block>, isize: nat, fv: seq<FileVal>, i: nat)
    requires Mirrors(view, slots, isize, fv) && Ownership.Shaped(fv) && i < |fv| && |disk| == |view|
    requires forall ino: nat :: 1 <= ino && Itod(ino) < isize ==> OnList(disk, ino) == Logical(view, slots, ino)
    ensures DiskHas(disk, i, Seen(disk, fv)[i])
  {
    hide Logical, OnList, BytesOf, SolidOf;
    assert MirroredAt(view, slots, fv[i], i);
    assert OnList(disk, i + 1) == Logical(view, slots, i + 1);
  }
}
