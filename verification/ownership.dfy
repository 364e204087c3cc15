/** Who owns each block of a volume: the free list, or exactly one file, at one place in its address tree. */
module Ownership {
  import opened Blocks
  import opened BufferCache
  import opened Trees
  import opened Files
  import opened BlockMap
  import opened ByteFiles

  /** An inode's value. */
  datatype FileVal = FileVal(mode: nat, nlink: int, count: nat, size: nat, addr: seq<nat>)

  ghost predicate Shaped(fv: seq<FileVal>) {
    forall j :: 0 <= j < |fv| ==> |fv[j].addr| == NADDR
  }

  /** The blocks of an inode: those of its address tree if it is a regular file or a directory. */
  ghost function Own(v: seq<Block>, f: FileVal): multiset<nat>
    requires |f.addr| == NADDR
  {
    if HasBlocks(f.mode) then multiset(FileTree(v, f.addr, NADDR)) else multiset{}
  }

  /** The blocks of the first k inodes. */
  ghost function Total(v: seq<Block>, fv: seq<FileVal>, k: nat): multiset<nat>
    requires Shaped(fv) && k <= |fv|
  {
    if k == 0 then multiset{} else Total(v, fv, k - 1) + Own(v, fv[k - 1])
  }

  lemma {:induction false} TotalSplit(v: seq<Block>, fv: seq<FileVal>, k: nat, i: nat)
    requires Shaped(fv) && i < k <= |fv|
    ensures Own(v, fv[i]) <= Total(v, fv, k)
  {
    hide Own;
    if i < k - 1 {
      TotalSplit(v, fv, k - 1, i);
    }
  }

  /** Two inodes share no block. */
  lemma {:induction false} TotalApart(v: seq<Block>, fv: seq<FileVal>, k: nat, i: nat, j: nat, d: nat)
    requires Shaped(fv) && i < j < k <= |fv| && Once(Total(v, fv, k))
    ensures !(d in Own(v, fv[i]) && d in Own(v, fv[j]))
  {
    hide Own;
    OnceParts(Total(v, fv, k - 1), Own(v, fv[k - 1]));
    if j < k - 1 {
      TotalApart(v, fv, k - 1, i, j, d);
    } else {
      TotalSplit(v, fv, k - 1, i);
    }
  }

  /** Changing one inode's blocks changes the total by as much. */
  lemma {:induction false} TotalUpdate(v: seq<Block>, v': seq<Block>, fv: seq<FileVal>, fv': seq<FileVal>, i: nat, k: nat)
    requires Shaped(fv) && Shaped(fv') && i < |fv| == |fv'| && k <= |fv|
    requires forall j :: 0 <= j < |fv| && j != i ==> Own(v', fv'[j]) == Own(v, fv[j])
    ensures k <= i ==> Total(v', fv', k) == Total(v, fv, k)
    ensures k > i ==> Total(v', fv', k) + Own(v, fv[i]) == Total(v, fv, k) + Own(v', fv'[i])
    decreases k
  {
    hide Own;
    if k > 0 {
      TotalUpdate(v, v', fv, fv', i, k - 1);
      if k - 1 > i {
        assert Total(v', fv', k) + Own(v, fv[i]) == (Total(v', fv', k - 1) + Own(v, fv[i])) + Own(v, fv[k - 1]);
      }
    }
  }

  /** The volume's books: the free stack and the files together hold each block in circulation exactly once. */
  ghost predicate Balanced(v: seq<Block>, st: seq<nat>, fv: seq<FileVal>, circ: multiset<nat>) {
    Shaped(fv) && Once(circ) && multiset(st) + Total(v, fv, |fv|) == circ
  }

  /** What balanced books mean: a block is free once, or is in exactly one file's tree exactly once, and never both. */
  lemma EachBlockOnce(v: seq<Block>, st: seq<nat>, fv: seq<FileVal>, circ: multiset<nat>, b: nat)
    requires Balanced(v, st, fv, circ)
    ensures b in circ <==> b in st || exists i :: 0 <= i < |fv| && b in Own(v, fv[i])
    ensures b in st ==> multiset(st)[b] == 1 && forall i :: 0 <= i < |fv| ==> b !in Own(v, fv[i])
    ensures forall i, j :: 0 <= i < |fv| && 0 <= j < |fv| && b in Own(v, fv[i]) && b in Own(v, fv[j]) ==> i == j
    ensures forall i :: 0 <= i < |fv| && b in Own(v, fv[i]) ==> Own(v, fv[i])[b] == 1
  {
    hide Own, Total;
    OnceParts(multiset(st), Total(v, fv, |fv|));
    assert b in circ <==> b in multiset(st) || b in Total(v, fv, |fv|);
    SomeOwner(v, fv, |fv|, b);
    forall i | 0 <= i < |fv|
      ensures b in Own(v, fv[i]) ==> b in Total(v, fv, |fv|) && Own(v, fv[i])[b] == 1
    {
      TotalSplit(v, fv, |fv|, i);
    }
    forall i, j | 0 <= i < |fv| && 0 <= j < |fv| && b in Own(v, fv[i]) && b in Own(v, fv[j])
      ensures i == j
    {
      if i < j { TotalApart(v, fv, |fv|, i, j, b); } else if j < i { TotalApart(v, fv, |fv|, j, i, b); }
    }
  }

  lemma {:induction false} SomeOwner(v: seq<Block>, fv: seq<FileVal>, k: nat, b: nat)
    requires Shaped(fv) && k <= |fv|
    ensures b in Total(v, fv, k) ==> exists i :: 0 <= i < |fv| && b in Own(v, fv[i])
  {
    hide Own;
    if k > 0 {
      SomeOwner(v, fv, k - 1, b);
    }
  }

  /** A file whose blocks are as they were is as it was. */
  lemma SameFile(v: seq<Block>, v': seq<Block>, addr: seq<nat>)
    requires |addr| == NADDR && Once(multiset(FileTree(v, addr, NADDR)))
    requires forall x: nat :: x in FileTree(v, addr, NADDR) ==> At(v', x) == At(v, x)
    ensures FileTree(v', addr, NADDR) == FileTree(v, addr, NADDR)
    ensures forall o: nat :: ByteAt(v', addr, o) == ByteAt(v, addr, o)
    ensures forall bn: nat :: Lookup(v', addr, bn) == Lookup(v, addr, bn)
  {
    hide FileTree, FileIndex, At, Lookup, SlotOf;
    FileIndexInTree(v, addr, NADDR);
    FileFrame(v, v', addr, NADDR);
    forall o: nat
      ensures ByteAt(v', addr, o) == ByteAt(v, addr, o)
    {
      LookupInTree(v, addr, o / 512);
    }
  }

  /** A change confined to file i's blocks and the free stack leaves every other file's blocks and bytes alone. */
  lemma OtherFile(v: seq<Block>, v': seq<Block>, st: seq<nat>, fv: seq<FileVal>, circ: multiset<nat>, i: nat, j: nat)
    requires Balanced(v, st, fv, circ) && i < |fv| && j < |fv| && i != j && HasBlocks(fv[j].mode)
    requires forall x: nat :: x !in Own(v, fv[i]) && x !in st ==> At(v', x) == At(v, x)
    ensures FileTree(v', fv[j].addr, NADDR) == FileTree(v, fv[j].addr, NADDR)
    ensures forall o: nat :: ByteAt(v', fv[j].addr, o) == ByteAt(v, fv[j].addr, o)
    ensures forall bn: nat :: Lookup(v', fv[j].addr, bn) == Lookup(v, fv[j].addr, bn)
  {
    hide FileTree, At, Total, Lookup, ByteAt;
    var t := FileTree(v, fv[j].addr, NADDR);
    forall x: nat | x in t
      ensures At(v', x) == At(v, x)
    {
      assert x in multiset(t);
      EachBlockOnce(v, st, fv, circ, x);
      assert x in Own(v, fv[j]);
      assert x !in Own(v, fv[i]);
    }
    TreeOnce(v, st, fv, circ, j);
    SameFile(v, v', fv[j].addr);
  }

  lemma TreeOnce(v: seq<Block>, st: seq<nat>, fv: seq<FileVal>, circ: multiset<nat>, j: nat)
    requires Balanced(v, st, fv, circ) && j < |fv| && HasBlocks(fv[j].mode)
    ensures Once(multiset(FileTree(v, fv[j].addr, NADDR)))
  {
    hide FileTree, Total;
    TotalSplit(v, fv, |fv|, j);
    OnceParts(multiset(st), Total(v, fv, |fv|));
    OnceBelow(multiset(FileTree(v, fv[j].addr, NADDR)), Total(v, fv, |fv|));
  }

  /** Every file is within the size limit and zero past its end. */
  ghost predicate Tidy(v: seq<Block>, fv: seq<FileVal>)
    requires Shaped(fv)
  {
    forall j :: 0 <= j < |fv| && HasBlocks(fv[j].mode) ==> fv[j].size <= MAXSIZE && ZeroTail(v, fv[j].addr, fv[j].size)
  }

  ghost function BytesOf(v: seq<Block>, f: FileVal): seq<Byte>
    requires |f.addr| == NADDR
  {
    if HasBlocks(f.mode) then Contents(v, f.addr, f.size) else []
  }

  ghost predicate SolidOf(v: seq<Block>, f: FileVal)
    requires |f.addr| == NADDR
  {
    HasBlocks(f.mode) ==> Solid(v, f.addr, f.size)
  }

  /** Blocks move only between the free stack and file i: the books stay balanced and no other file changes. */
  lemma Rebalanced(v: seq<Block>, v': seq<Block>, st: seq<nat>, st': seq<nat>, fv: seq<FileVal>, f: FileVal, circ: multiset<nat>, i: nat)
    requires Balanced(v, st, fv, circ) && Tidy(v, fv) && i < |fv| && |f.addr| == NADDR
    requires forall x: nat :: x !in Own(v, fv[i]) && x !in st ==> At(v', x) == At(v, x)
    requires multiset(st') + Own(v', f) == multiset(st) + Own(v, fv[i])
    requires HasBlocks(f.mode) ==> f.size <= MAXSIZE && ZeroTail(v', f.addr, f.size)
    ensures Balanced(v', st', fv[i := f], circ) && Tidy(v', fv[i := f])
    ensures forall j :: 0 <= j < |fv| && j != i ==> BytesOf(v', fv[j]) == BytesOf(v, fv[j]) && SolidOf(v', fv[j]) == SolidOf(v, fv[j])
  {
    hide FileTree, FileIndex, At, Total, ByteAt, Once, Lookup;
    var fv' := fv[i := f];
    forall j | 0 <= j < |fv| && j != i
      ensures Own(v', fv[j]) == Own(v, fv[j]) && BytesOf(v', fv[j]) == BytesOf(v, fv[j]) && SolidOf(v', fv[j]) == SolidOf(v, fv[j])
      ensures HasBlocks(fv[j].mode) ==> ZeroTail(v', fv[j].addr, fv[j].size)
    {
      if HasBlocks(fv[j].mode) {
        OtherFile(v, v', st, fv, circ, i, j);
      }
    }
    TotalUpdate(v, v', fv, fv', i, |fv|);
    Cancel(multiset(st'), Total(v', fv', |fv'|), Own(v', f), multiset(st), Total(v, fv, |fv|), Own(v, fv[i]));
  }

  lemma Cancel(s': multiset<nat>, t': multiset<nat>, o': multiset<nat>, s: multiset<nat>, t: multiset<nat>, o: multiset<nat>)
    requires s' + o' == s + o && t' + o == t + o'
    ensures s' + t' == s + t
  {
    forall x
      ensures (s' + t')[x] == (s + t)[x]
    {
      assert (s' + o')[x] == (s + o)[x] && (t' + o)[x] == (t + o')[x];
    }
  }

  /** A file of a balanced volume owns its blocks. */
  lemma FileOwned(v: seq<Block>, st: seq<nat>, fv: seq<FileVal>, circ: multiset<nat>, i: nat, isize: nat, fsize: nat)
    requires Balanced(v, st, fv, circ) && i < |fv| && HasBlocks(fv[i].mode)
    requires forall b :: b in circ ==> isize <= b < fsize
    ensures Owned(st, FileTree(v, fv[i].addr, NADDR), isize, fsize)
  {
    hide FileTree, Total, Once;
    TotalSplit(v, fv, |fv|, i);
    var t := multiset(FileTree(v, fv[i].addr, NADDR));
    OnceBelow(multiset(st) + t, circ);
    forall b | b in FileTree(v, fv[i].addr, NADDR)
      ensures isize <= b < fsize
    {
      assert b in t;
      assert b in circ;
    }
  }

  lemma EmptyFile(v: seq<Block>)
    ensures FileTree(v, Holes(), NADDR) == [] && ZeroTail(v, Holes(), 0) && Solid(v, Holes(), 0)
  {
    hide ByteAt, FileTree;
    NoTree(v, NADDR);
    forall o | 0 <= o < MAXSIZE
      ensures ByteAt(v, Holes(), o) == 0
    {
      HoleByte(v, o);
    }
  }

  lemma {:induction false} NoTree(v: seq<Block>, k: nat)
    requires k <= NADDR
    ensures FileTree(v, Holes(), k) == []
  {
    if k > 0 {
      NoTree(v, k - 1);
    }
  }

  lemma HoleByte(v: seq<Block>, o: nat)
    ensures ByteAt(v, Holes(), o) == 0
  {
    NodeStep(v, 0, Level(SlotOf(o / 512)), OffOf(o / 512), 0);
  }
}
