/**
 The chained free list of sys/alloc.c: up to NICFREE block numbers in the superblock, the first
 of which is a block that holds NICFREE more.  It refines a stack of block numbers.
 */
module FreeList {
  import opened Blocks
  import opened Rings
  import opened BufferCache

  /** The superblock table (n, f) and the link blocks in `view` hold the stack s, top last. */
  ghost predicate Chain(view: seq<Block>, n: nat, f: seq<nat>, s: seq<nat>)
    decreases |s|
  {
    && n <= NICFREE && Addresses(f)
    && if n == 0 then s == []
       else if f[0] == 0 then s == f[1..n]
       else
         && n <= |s| && s[|s| - n..] == f[..n] && f[0] < |view|
         && LinkCount(view[f[0]]) > 0
         && Chain(view, LinkCount(view[f[0]]), LinkFree(view[f[0]]), s[..|s| - n])
  }

  /** The chain looks only at blocks that are on the stack. */
  lemma {:induction false} ChainFrame(view: seq<Block>, view': seq<Block>, n: nat, f: seq<nat>, s: seq<nat>)
    requires Chain(view, n, f, s) && |view'| == |view|
    requires forall b :: b in s && b < |view| ==> view'[b] == view[b]
    ensures Chain(view', n, f, s)
    decreases |s|
  {
    if n > 0 && f[0] != 0 {
      assert f[0] == f[..n][0] == s[|s| - n];
      assert f[0] in s;
      ChainFrame(view, view', LinkCount(view[f[0]]), LinkFree(view[f[0]]), s[..|s| - n]);
    }
  }

  lemma DropLast(f: seq<nat>, a: nat, n: nat)
    requires a < n <= |f|
    ensures f[a..n][..n - a - 1] == f[a..n - 1]
  {
  }

  /** Taking the top entry of a table that keeps others below it. */
  lemma ChainPop(view: seq<Block>, n: nat, f: seq<nat>, s: seq<nat>)
    requires Chain(view, n, f, s) && n > 1
    ensures s != [] && s[|s| - 1] == f[n - 1] && Chain(view, n - 1, f, s[..|s| - 1])
  {
    var r := s[..|s| - 1];
    if f[0] == 0 {
      DropLast(f, 1, n);
    } else {
      var t := s[|s| - n..];
      assert t == f[..n] && t[n - 1] == s[|s| - 1];
      assert r[|r| - (n - 1)..] == t[..n - 1];
      DropLast(f, 0, n);
      assert r[..|r| - (n - 1)] == s[..|s| - n];
    }
  }

  /** Taking the last entry brings in the table of the link block it names. */
  lemma ChainRefill(view: seq<Block>, f: seq<nat>, s: seq<nat>)
    requires Chain(view, 1, f, s)
    ensures f[0] == 0 ==> s == []
    ensures f[0] != 0 ==> s != [] && s[|s| - 1] == f[0] && f[0] < |view| && LinkCount(view[f[0]]) > 0
                          && Chain(view, LinkCount(view[f[0]]), LinkFree(view[f[0]]), s[..|s| - 1])
  {
    if f[0] != 0 {
      assert s[|s| - 1..][0] == f[..1][0];
    }
  }

  /** Adding an entry to a table with room. */
  lemma ChainPush(view: seq<Block>, n: nat, f: seq<nat>, s: seq<nat>, b: nat)
    requires Chain(view, n, f, s) && 0 < n < NICFREE && b < 0x1_0000_0000
    ensures Chain(view, n + 1, f[n := b], s + [b])
  {
    var f', s' := f[n := b], s + [b];
    if f[0] == 0 {
      assert s' == f'[1..n + 1];
    } else {
      assert s'[|s'| - (n + 1)..] == f'[..n + 1];
      assert s'[..|s'| - (n + 1)] == s[..|s| - n];
    }
  }

  /** A full table moved into block b, which becomes the only entry of a new table. */
  lemma ChainSpill(view: seq<Block>, f: seq<nat>, s: seq<nat>, b: nat, rest: Block, f': seq<nat>)
    requires Chain(view, NICFREE, f, s) && 0 < b < |view| && b < 0x1_0000_0000 && b !in s
    requires Addresses(f') && f'[0] == b
    ensures Chain(view[b := PutLink(rest, NICFREE, f)], 1, f', s + [b])
  {
    var view' := view[b := PutLink(rest, NICFREE, f)];
    LinkRoundTrip(rest, NICFREE, f);
    ChainFrame(view, view', NICFREE, f, s);
    var s' := s + [b];
    assert s'[|s'| - 1..] == f'[..1];
    assert s'[..|s'| - 1] == s;
  }

  /** Every stacked block is a data block of the volume, and none is stacked twice. */
  ghost predicate Proper(s: seq<nat>, isize: nat, fsize: nat) {
    Distinct(s) && forall b :: b in s ==> isize <= b < fsize
  }

  lemma ProperPop(s: seq<nat>, isize: nat, fsize: nat)
    requires Proper(s, isize, fsize) && s != []
    ensures Proper(s[..|s| - 1], isize, fsize)
  {
    var r := s[..|s| - 1];
    assert forall i :: 0 <= i < |r| ==> r[i] == s[i];
    forall b | b in r
      ensures isize <= b < fsize
    {
      assert b in s;
    }
  }

  lemma ProperPush(s: seq<nat>, isize: nat, fsize: nat, b: nat)
    requires Proper(s, isize, fsize) && b !in s && isize <= b < fsize
    ensures Proper(s + [b], isize, fsize)
  {
  }

  lemma EmptyChain(view: seq<Block>, f: seq<nat>)
    requires Addresses(f)
    ensures Chain(view, 0, f, []) && forall isize, fsize :: Proper([], isize, fsize)
  {
  }

  lemma ChainBasics(view: seq<Block>, n: nat, f: seq<nat>, s: seq<nat>)
    requires Chain(view, n, f, s)
    ensures n <= NICFREE && Addresses(f)
    ensures n == 0 ==> s == [] && Chain(view, 1, f[0 := 0], s)
  {
  }

  /** One step of a walk down the chain. */
  lemma ChainNext(view: seq<Block>, n: nat, f: seq<nat>, s: seq<nat>)
    requires Chain(view, n, f, s)
    ensures n <= NICFREE && Addresses(f)
    ensures n == 0 ==> s == []
    ensures n > 0 && f[0] == 0 ==> |s| == n - 1
    ensures n > 0 && f[0] != 0 ==> f[0] in s && f[0] < |view| && n <= |s|
    ensures n > 0 && f[0] != 0 ==> Chain(view, LinkCount(view[f[0]]), LinkFree(view[f[0]]), s[..|s| - n])
  {
    if n > 0 && f[0] != 0 {
      assert f[..n][0] == f[0] == s[|s| - n];
    }
  }

  /** The mounted volume's in-core superblock. */
  class Super {
    const bio: Cache
    const isize: nat
    const fsize: nat
    var nfree: nat
    var free: seq<nat>
    var tfree: nat
    ghost var stack: seq<nat>

    /** mkfs's superblock before the free list is built. */
    constructor (cache: Cache, isize: nat, fsize: nat)
      requires cache.Valid() && 0 < isize <= fsize <= |cache.view| && fsize < 0x100_0000
      ensures Valid() && stack == [] && bio == cache && this.isize == isize && this.fsize == fsize
    {
      bio := cache;
      this.isize, this.fsize := isize, fsize;
      nfree, free, tfree, stack := 0, seq(NICFREE, i => 0), 0, [];
    }

    ghost predicate Valid()
      reads this, bio
    {
      && bio.Valid()
      && 0 < isize <= fsize <= |bio.view| && fsize < 0x100_0000
      && Chain(bio.view, nfree, free, stack)
      && Proper(stack, isize, fsize)
      && tfree == |stack|
    }

    ghost function Held(): map<nat, Buf>
      reads bio
    {
      Grip(bio.bufs)
    }

    /** Blocks nobody holds: the free list never hands out or overwrites a buffer in use. */
    ghost predicate StackLoose()
      reads this, bio
    {
      forall b :: b in stack ==> !Holding(Held(), b)
    }

    predicate BadBlock(b: nat) {
      b < isize || b >= fsize
    }

    /** alloc: the top of the stack, as a held and cleared buffer; nothing when the stack is empty. */
    method Alloc() returns (ok: bool, bp: nat)
      requires Valid() && StackLoose() && |Held()| < NBUF
      modifies this, bio
      ensures Valid() && bio.view == old(bio.view)
      ensures ok <==> old(stack) != []
      ensures !ok ==> stack == old(stack) && Held() == old(Held())
      ensures ok ==> stack == old(stack)[..|old(stack)| - 1]
      ensures ok ==> bp < NBUF && bp !in old(Held()) && Held() == old(Held())[bp := bio.bufs[bp]]
      ensures ok ==> bio.bufs[bp].onDev && bio.bufs[bp].blkno == old(stack)[|old(stack)| - 1]
      ensures ok ==> bio.bufs[bp].data == Zero()
    {
      hide AvLinked, Chosen, Back, DevLinked, Sized, Coherent, Quiet, Ring, Chain, Proper, LinkCount, LinkFree, PutLink;
      var bno;
      ok, bno := Pop();
      bp := 0;
      if ok {
        assert bno in old(stack);
        bp := bio.GetBlk(bno);
        bio.Store(bp, Zero());
        if tfree != 0 {
          tfree := tfree - 1;
        }
      } else {
        nfree, tfree := 0, 0;
        EmptyChain(bio.view, free);
      }
    }

    /** alloc's search for a block number, refilling the table from the link block it takes last. */
    method Pop() returns (ok: bool, bno: nat)
      requires Valid() && StackLoose() && |Held()| < NBUF
      modifies this, bio
      ensures bio.Valid() && bio.view == old(bio.view) && Held() == old(Held()) && Addresses(free)
      ensures ok <==> old(stack) != []
      ensures !ok ==> stack == old(stack)
      ensures ok ==> bno == old(stack)[|old(stack)| - 1] && isize <= bno < fsize && stack == old(stack)[..|old(stack)| - 1]
      ensures ok ==> Chain(bio.view, nfree, free, stack) && Proper(stack, isize, fsize)
      ensures tfree == old(tfree)
    {
      hide AvLinked, Chosen, Back, DevLinked, Sized, Coherent, Quiet, Ring, Chain, Proper, LinkCount, LinkFree, PutLink, Cache.Valid;
      ChainBasics(bio.view, nfree, free, stack);
      ok, bno := Peek();
      if !ok {
        return;
      }
      ProperPop(stack, isize, fsize);
      stack := stack[..|stack| - 1];
      if nfree <= 0 {
        ChainRefill(bio.view, free, old(stack));
        assert bno in old(stack);
        Refill(bno);
      } else {
        ChainPop(bio.view, nfree + 1, free, old(stack));
      }
    }

    /** The table kept in a link block. */
    method Refill(bno: nat)
      requires bio.Valid() && bno < |bio.view| && CanGet(Held(), bno)
      modifies this`nfree, this`free, bio
      ensures bio.Valid() && bio.view == old(bio.view) && Held() == old(Held())
      ensures nfree == LinkCount(bio.view[bno]) && free == LinkFree(bio.view[bno])
    {
      hide AvLinked, Chosen, Back, DevLinked, Sized, Coherent, Quiet, Ring, LinkCount, LinkFree;
      var bp := bio.Bread(bno);
      nfree := LinkCount(bio.bufs[bp].data);
      free := LinkFree(bio.bufs[bp].data);
      bio.Brelse(bp);
      assert Held() == old(Held());
    }

    /** The loop that takes entries from the table until one is in range; the first one is. */
    method Peek() returns (ok: bool, bno: nat)
      requires Valid()
      modifies this`nfree
      ensures ok <==> stack != []
      ensures ok ==> nfree + 1 == old(nfree) <= |free| && bno == free[nfree] == stack[|stack| - 1] && !BadBlock(bno)
    {
      hide AvLinked, Chosen, Back, DevLinked, Sized, Coherent, Quiet, Ring, Chain, Proper, Cache.Valid;
      ChainBasics(bio.view, nfree, free, stack);
      bno := 0;
      var bad := true;
      while bad
        invariant bad ==> nfree == old(nfree)
        invariant !bad ==> nfree + 1 == old(nfree) <= |free| && bno == free[nfree] && !BadBlock(bno)
                           && stack != [] && bno == stack[|stack| - 1]
        decreases bad
      {
        if nfree <= 0 || nfree > NICFREE {
          return false, 0;
        }
        TopIsProper();
        nfree := nfree - 1;
        bno := free[nfree];
        if bno == 0 {
          return false, 0;
        }
        bad := BadBlock(bno);
      }
      ok := true;
    }

    /** With one entry left the table's entry is the top of the stack or the end mark; with more it is the top. */
    lemma TopIsProper()
      requires Valid() && nfree > 0
      ensures nfree <= |free|
      ensures var b := free[nfree - 1];
        if b == 0 then stack == [] else stack != [] && b == stack[|stack| - 1] && isize <= b < fsize
    {
      hide AvLinked, Chosen, Back, DevLinked, Sized, Coherent, Quiet, Ring;
      if nfree > 1 {
        ChainPop(bio.view, nfree, free, stack);
        assert free[nfree - 1] in stack;
      } else {
        ChainRefill(bio.view, free, stack);
        assert free[0] != 0 ==> free[0] in stack;
      }
    }

    /** free: push a block, writing a full table out into it first; a block number out of range is dropped. */
    method Free(bno: nat)
      requires Valid() && |Held()| < NBUF
      requires !BadBlock(bno) ==> bno !in stack && !Holding(Held(), bno)
      modifies this, bio
      ensures Valid() && Held() == old(Held())
      ensures stack == if BadBlock(bno) then old(stack) else old(stack) + [bno]
      ensures |bio.view| == |old(bio.view)|
      ensures forall b :: 0 <= b < |bio.view| && (b != bno || BadBlock(bno)) ==> bio.view[b] == old(bio.view)[b]
    {
      hide AvLinked, Chosen, Back, DevLinked, Sized, Coherent, Quiet, Ring, Chain, Proper, LinkCount, LinkFree, PutLink;
      ChainBasics(bio.view, nfree, free, stack);
      if BadBlock(bno) {
        return;
      }
      if nfree <= 0 {
        nfree := 1;
        free := free[0 := 0];
      }
      ProperPush(stack, isize, fsize, bno);
      if nfree >= NICFREE {
        ghost var rest := Spill(bno);
        ChainSpill(old(bio.view), free, stack, bno, rest, free[0 := bno]);
        nfree := 0;
      } else {
        ChainPush(bio.view, nfree, free, stack, bno);
      }
      free := free[nfree := bno];
      nfree := nfree + 1;
      tfree := tfree + 1;
      stack := stack + [bno];
    }

    /** The full table goes into the block being freed; the rest of that block keeps what its buffer held. */
    method Spill(bno: nat) returns (ghost rest: Block)
      requires bio.Valid() && bno < |bio.view| && CanGet(Held(), bno) && nfree < 0x1_0000 && Addresses(free)
      modifies bio
      ensures bio.Valid() && Held() == old(Held())
      ensures bio.view == old(bio.view)[bno := PutLink(rest, nfree, free)]
    {
      hide AvLinked, Chosen, Back, DevLinked, Sized, Coherent, Quiet, Ring, PutLink;
      var bp := bio.GetBlk(bno);
      rest := bio.bufs[bp].data;
      bio.Store(bp, PutLink(bio.bufs[bp].data, nfree, free));
      bio.Bwrite(bp);
      assert Held() == old(Held());
    }

    /** v7fs_statfs's walk of the chain: none of its error exits is taken, and it counts the stack. */
    method CountFree() returns (bfree: nat, err: bool)
      requires Valid() && StackLoose() && |Held()| < NBUF
      modifies bio
      ensures Valid() && bio.view == old(bio.view) && Held() == old(Held())
      ensures !err && bfree == |stack|
    {
      hide AvLinked, Chosen, Back, DevLinked, Sized, Coherent, Quiet, Ring, Chain, LinkCount, LinkFree;
      ChainNext(bio.view, nfree, free, stack);
      err, bfree := false, 0;
      var n: nat := nfree;
      var next := if n > 0 then free[0] else 0;
      var length := 0;
      ghost var f, s := free, stack;
      while true
        invariant Valid() && bio.view == old(bio.view) && Held() == old(Held())
        invariant Addresses(f) && Chain(bio.view, n, f, s) && (n > 0 ==> next == f[0])
        invariant |s| <= |stack| && s == stack[..|s|] && bfree + |s| == |stack| && length + |s| <= |stack|
        decreases |s|
      {
        ChainNext(bio.view, n, f, s);
        if n > NICFREE {
          return bfree, true;
        }
        if n > 0 {
          bfree := bfree + (if next != 0 then n else n - 1);
        }
        if n == 0 || next == 0 {
          return;
        }
        length := length + 1;
        assert next in stack;
        StackFits(stack, isize, fsize);
        if length > fsize || BadBlock(next) {
          return bfree, true;
        }
        var bp := bio.Bread(next);
        s, f := s[..|s| - n], LinkFree(bio.bufs[bp].data);
        n, next := LinkCount(bio.bufs[bp].data), LinkFree(bio.bufs[bp].data)[0];
        bio.Brelse(bp);
        assert Held() == old(Held());
      }
    }
  }

  ghost function Elems(s: seq<nat>): (m: set<nat>)
    ensures forall b: nat :: b in m <==> b in s
    ensures Distinct(s) ==> |m| == |s|
  {
    if s == [] then {}
    else
      assert s == s[..|s| - 1] + [s[|s| - 1]];
      Elems(s[..|s| - 1]) + {s[|s| - 1]}
  }

  /** Distinct numbers below fsize: at most fsize of them. */
  lemma StackFits(s: seq<nat>, isize: nat, fsize: nat)
    requires Proper(s, isize, fsize)
    ensures |s| <= fsize
  {
    SubsetSize(Elems(s), Upto(fsize));
  }

  lemma {:induction false} SubsetSize(a: set<nat>, b: set<nat>)
    requires a <= b
    ensures |a| <= |b|
  {
    if a != {} {
      var x :| x in a;
      SubsetSize(a - {x}, b - {x});
    }
  }
}
