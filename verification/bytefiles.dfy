/** readi and writei of sys/rdwri.c: a file of mapped blocks and holes refines a sequence of bytes. */
module ByteFiles {
  import opened Blocks
  import opened BufferCache
  import opened FreeList
  import opened Trees
  import opened Files
  import opened BlockMap

  /** The largest file the block map can address. */
  const MAXSIZE := MAXBN * 512

  /** The byte at offset o: zero in a hole. */
  ghost function ByteAt(v: seq<Block>, addr: seq<nat>, o: nat): Byte
    requires |addr| == NADDR
  {
    var d := Lookup(v, addr, o / 512);
    if d == 0 then 0 else At(v, d)[o % 512]
  }

  ghost function Contents(v: seq<Block>, addr: seq<nat>, size: nat): (c: seq<Byte>)
    requires |addr| == NADDR
    ensures |c| == size
  {
    seq(size, o requires 0 <= o < size => ByteAt(v, addr, o))
  }

  /** Mapped bytes past the end of the file are zero, so that a later write past the end leaves a gap of zeros. */
  ghost predicate ZeroTail(v: seq<Block>, addr: seq<nat>, size: nat)
    requires |addr| == NADDR
  {
    forall o :: size <= o < MAXSIZE ==> ByteAt(v, addr, o) == 0
  }

  /** No holes before the end of the file. */
  ghost predicate Solid(v: seq<Block>, addr: seq<nat>, size: nat)
    requires |addr| == NADDR
  {
    forall bn :: 0 <= bn < MAXBN && bn * 512 < size ==> Lookup(v, addr, bn) != 0
  }

  /** Mapped blocks stay mapped. */
  ghost predicate StillMapped(v0: seq<Block>, addr0: seq<nat>, v: seq<Block>, addr: seq<nat>)
    requires |addr0| == |addr| == NADDR
  {
    forall bn :: 0 <= bn < MAXBN && Lookup(v0, addr0, bn) != 0 ==> Lookup(v, addr, bn) != 0
  }

  function Zeros(n: nat): (z: seq<Byte>)
    ensures |z| == n && forall k :: 0 <= k < n ==> z[k] == 0
  {
    seq(n, i => 0)
  }

  /** Byte string c with s written at offset off: a gap is filled with zeros, and bytes past s stay. */
  function Splice(c: seq<Byte>, off: nat, s: seq<Byte>): seq<Byte> {
    if s == [] then c
    else (if off <= |c| then c[..off] else c + Zeros(off - |c|)) + s + (if off + |s| < |c| then c[off + |s|..] else [])
  }

  /** Blocks moved from the free stack into the file and nowhere else; no other file's block changed. */
  ghost predicate Wrote(v0: seq<Block>, addr0: seq<nat>, st0: seq<nat>, v: seq<Block>, addr: seq<nat>, st: seq<nat>) {
    && |addr0| == |addr| == NADDR && |v| == |v0| && st <= st0
    && multiset(st) + multiset(FileTree(v, addr, NADDR)) == multiset(st0) + multiset(FileTree(v0, addr0, NADDR))
    && forall x: nat :: x !in FileTree(v0, addr0, NADDR) && x !in st0 ==> At(v, x) == At(v0, x)
  }

  lemma WrotePrefix(v0: seq<Block>, addr0: seq<nat>, st0: seq<nat>, v: seq<Block>, addr: seq<nat>, st: seq<nat>)
    requires Wrote(v0, addr0, st0, v, addr, st)
    ensures st <= st0
  {
  }

  lemma WroteNothing(v: seq<Block>, addr: seq<nat>, st: seq<nat>)
    requires |addr| == NADDR
    ensures Wrote(v, addr, st, v, addr, st)
  {
  }

  lemma WroteMore(v0: seq<Block>, addr0: seq<nat>, st0: seq<nat>, v1: seq<Block>, addr1: seq<nat>, st1: seq<nat>,
                  v2: seq<Block>, addr2: seq<nat>, st2: seq<nat>)
    requires Wrote(v0, addr0, st0, v1, addr1, st1) && Wrote(v1, addr1, st1, v2, addr2, st2)
    ensures Wrote(v0, addr0, st0, v2, addr2, st2)
  {
    hide FileTree, At;
    forall x: nat | x !in FileTree(v0, addr0, NADDR) && x !in st0
      ensures At(v2, x) == At(v0, x)
    {
      assert x !in multiset(st0) + multiset(FileTree(v0, addr0, NADDR));
      assert x !in multiset(st1) + multiset(FileTree(v1, addr1, NADDR));
    }
  }

  lemma GrownWrote(v0: seq<Block>, addr0: seq<nat>, st0: seq<nat>, v: seq<Block>, addr: seq<nat>, st: seq<nat>, bn: nat)
    requires Grown(v0, addr0, st0, v, addr, st, bn)
    ensures Wrote(v0, addr0, st0, v, addr, st)
  {
    hide FileTree, FileIndex, At, Lookup;
    FileIndexInTree(v0, addr0, NADDR);
  }

  /** Giving blocks to a file changes no byte of it. */
  lemma GrownBytes(v0: seq<Block>, addr0: seq<nat>, st0: seq<nat>, v: seq<Block>, addr: seq<nat>, st: seq<nat>, bn: nat)
    requires Grown(v0, addr0, st0, v, addr, st, bn) && bn < MAXBN
    requires Once(multiset(st0) + multiset(FileTree(v0, addr0, NADDR)))
    requires Lookup(v0, addr0, bn) == 0 && Lookup(v, addr, bn) != 0 ==> At(v, Lookup(v, addr, bn)) == Zero()
    ensures forall o :: 0 <= o < MAXSIZE ==> ByteAt(v, addr, o) == ByteAt(v0, addr0, o)
  {
    hide FileTree, FileIndex, At, Lookup, Once;
    OnceParts(multiset(st0), multiset(FileTree(v0, addr0, NADDR)));
    forall o | 0 <= o < MAXSIZE
      ensures ByteAt(v, addr, o) == ByteAt(v0, addr0, o)
    {
      var b, d := o / 512, Lookup(v0, addr0, o / 512);
      if b != bn && d != 0 {
        LookupInTree(v0, addr0, b);
        assert d in multiset(FileTree(v0, addr0, NADDR));
        assert d !in multiset(st0);
      }
    }
  }

  lemma GrownMapped(v0: seq<Block>, addr0: seq<nat>, st0: seq<nat>, v: seq<Block>, addr: seq<nat>, st: seq<nat>, bn: nat)
    requires Grown(v0, addr0, st0, v, addr, st, bn)
    ensures StillMapped(v0, addr0, v, addr) && (Lookup(v0, addr0, bn) != 0 ==> Lookup(v, addr, bn) != 0)
  {
    hide FileTree, FileIndex, At, Lookup;
  }

  function Patch(b: Block, on: nat, s: seq<Byte>): (r: Block)
    requires on + |s| <= 512
    ensures forall k :: 0 <= k < 512 ==> r[k] == if on <= k < on + |s| then s[k - on] else b[k]
  {
    b[..on] + s + b[on + |s|..]
  }

  /** Writing inside one data block changes those bytes of that logical block, and nothing else. */
  lemma PatchBytes(v: seq<Block>, v': seq<Block>, addr: seq<nat>, st: seq<nat>, bn: nat, on: nat, s: seq<Byte>)
    requires |addr| == NADDR && bn < MAXBN && on + |s| <= 512
    requires Once(multiset(st) + multiset(FileTree(v, addr, NADDR)))
    requires var d := Lookup(v, addr, bn); 0 < d < |v| && v' == v[d := Patch(v[d], on, s)]
    ensures Wrote(v, addr, st, v', addr, st) && FileTree(v', addr, NADDR) == FileTree(v, addr, NADDR)
    ensures forall o: nat :: Lookup(v', addr, o) == Lookup(v, addr, o)
    ensures forall o :: 0 <= o < MAXSIZE ==>
              ByteAt(v', addr, o) == if o / 512 == bn && on <= o % 512 < on + |s| then s[o % 512 - on] else ByteAt(v, addr, o)
    ensures Lookup(v, addr, bn) !in st
  {
    hide FileTree, FileIndex, Lookup, Patch, SlotOf, Once;
    var d := Lookup(v, addr, bn);
    OnceParts(multiset(st), multiset(FileTree(v, addr, NADDR)));
    LookupInTree(v, addr, bn);
    assert d in multiset(FileTree(v, addr, NADDR));
    FileFrame(v, v', addr, NADDR);
    forall o | 0 <= o < MAXSIZE
      ensures ByteAt(v', addr, o) == if o / 512 == bn && on <= o % 512 < on + |s| then s[o % 512 - on] else ByteAt(v, addr, o)
    {
      if o / 512 != bn && Lookup(v, addr, o / 512) == d {
        LookupInjective(v, addr, o / 512, bn);
      }
    }
  }

  /** writei's update of the contents, in terms of the byte string. */
  lemma WriteIsSplice(v0: seq<Block>, addr0: seq<nat>, size0: nat, v: seq<Block>, addr: seq<nat>, size: nat, off: nat, s: seq<Byte>)
    requires |addr0| == |addr| == NADDR && ZeroTail(v0, addr0, size0) && off + |s| <= MAXSIZE && size0 <= MAXSIZE
    requires size == if s != [] && off + |s| > size0 then off + |s| else size0
    requires Written(v0, addr0, v, addr, off, s)
    ensures Contents(v, addr, size) == Splice(Contents(v0, addr0, size0), off, s) && ZeroTail(v, addr, size)
  {
    hide ByteAt;
    var c, c' := Contents(v0, addr0, size0), Contents(v, addr, size);
    var e := Splice(c, off, s);
    assert |e| == size;
    forall o | 0 <= o < size
      ensures c'[o] == e[o]
    {
      assert o < size0 ==> c[o] == ByteAt(v0, addr0, o);
    }
  }

  lemma PatchAll(a: Block, b: Block, s: seq<Byte>)
    requires |s| == 512
    ensures Patch(a, 0, s) == Patch(b, 0, s)
  {
  }

  /** Bytes written so far: exactly those of s at off, over the starting contents. */
  ghost predicate Written(v0: seq<Block>, addr0: seq<nat>, v: seq<Block>, addr: seq<nat>, off: nat, s: seq<Byte>) {
    && |addr0| == |addr| == NADDR
    && forall o :: 0 <= o < MAXSIZE ==> ByteAt(v, addr, o) == if off <= o < off + |s| then s[o - off] else ByteAt(v0, addr0, o)
  }

  /** Change bytes of block d in its buffer, which a whole-block write does not read first, as a delayed write. */
  method Update(fs: Super, d: nat, on: nat, s: seq<Byte>)
    requires fs.bio.Valid() && d < |fs.bio.view| && CanGet(fs.Held(), d) && on + |s| <= 512
    modifies fs.bio
    ensures fs.bio.Valid() && fs.Held() == old(fs.Held())
    ensures fs.bio.view == old(fs.bio.view)[d := Patch(old(fs.bio.view)[d], on, s)]
  {
    hide AvLinked, Chosen, Back, DevLinked, Sized, Coherent, Quiet, Grip, Patch;
    var bp;
    if |s| == 512 {
      bp := fs.bio.GetBlk(d);
      PatchAll(fs.bio.bufs[bp].data, fs.bio.view[d], s);
    } else {
      bp := fs.bio.Bread(d);
    }
    fs.bio.Store(bp, Patch(fs.bio.bufs[bp].data, on, s));
    fs.bio.Bdwrite(bp);
    assert fs.Held() == old(fs.Held());
  }

  /** Put s into mapped logical block bn at byte on. */
  method PutBytes(fs: Super, ip: Inode, bn: nat, d: nat, on: nat, s: seq<Byte>)
    requires Ready(fs, ip) && |fs.Held()| < NBUF && bn < MAXBN && d == Lookup(fs.bio.view, ip.addr, bn) != 0
    requires 0 < |s| && on + |s| <= 512
    modifies fs.bio
    ensures Ready(fs, ip) && fs.Held() == old(fs.Held())
    ensures Wrote(old(fs.bio.view), ip.addr, fs.stack, fs.bio.view, ip.addr, fs.stack)
    ensures Written(old(fs.bio.view), ip.addr, fs.bio.view, ip.addr, bn * 512 + on, s)
    ensures forall o: nat :: Lookup(fs.bio.view, ip.addr, o) == Lookup(old(fs.bio.view), ip.addr, o)
  {
    hide AvLinked, Chosen, Back, DevLinked, Sized, Coherent, Quiet, Chain, Proper, FileTree, FileIndex, Lookup, Once, Grip, ByteAt,
         Patch, Wrote, Cache.Valid;
    ghost var v := fs.bio.view;
    InFile(v, ip.addr, fs.stack, bn, fs.isize, fs.fsize);
    Update(fs, d, on, s);
    PatchBytes(v, fs.bio.view, ip.addr, fs.stack, bn, on, s);
    ChainFrame(v, fs.bio.view, fs.nfree, fs.free, fs.stack);
    OffsetIn(bn, on, |s|);
  }

  lemma OffsetIn(bn: nat, on: nat, n: nat)
    requires on + n <= 512
    ensures forall o: nat :: (o / 512 == bn && on <= o % 512 < on + n) <==> bn * 512 + on <= o < bn * 512 + on + n
    ensures forall o: nat :: bn * 512 + on <= o < bn * 512 + on + n ==> o % 512 - on == o - (bn * 512 + on)
  {
  }

  /** A mapped block is inside the volume and one of the file's blocks. */
  lemma InFile(v: seq<Block>, addr: seq<nat>, st: seq<nat>, bn: nat, isize: nat, fsize: nat)
    requires |addr| == NADDR && Owned(st, FileTree(v, addr, NADDR), isize, fsize) && Lookup(v, addr, bn) != 0
    ensures isize <= Lookup(v, addr, bn) < fsize && Lookup(v, addr, bn) in FileTree(v, addr, NADDR)
  {
    hide FileTree, FileIndex, Lookup, Once;
    OnceParts(multiset(st), multiset(FileTree(v, addr, NADDR)));
    LookupInTree(v, addr, bn);
  }

  /** One turn of writei's loop: at most to the end of the block. */
  method WriteChunk(fs: Super, ip: Inode, off: nat, s: seq<Byte>) returns (ok: bool)
    requires Ready(fs, ip) && |fs.Held()| + 1 < NBUF && 0 < |s| && off % 512 + |s| <= 512 && off < MAXSIZE
    modifies fs, fs.bio, ip`addr, ip`changed
    ensures Ready(fs, ip) && fs.Held() == old(fs.Held())
    ensures Wrote(old(fs.bio.view), old(ip.addr), old(fs.stack), fs.bio.view, ip.addr, fs.stack)
    ensures Written(old(fs.bio.view), old(ip.addr), fs.bio.view, ip.addr, off, if ok then s else [])
    ensures !ok ==> fs.stack == [] && Lookup(old(fs.bio.view), old(ip.addr), off / 512) == 0
    ensures !ok && off < 512 * (NADDR - 3) ==> old(fs.stack) == []
    ensures |old(fs.stack)| <= |fs.stack| + 4
    ensures StillMapped(old(fs.bio.view), old(ip.addr), fs.bio.view, ip.addr)
    ensures ok ==> Lookup(fs.bio.view, ip.addr, off / 512) != 0
  {
    hide AvLinked, Chosen, Back, DevLinked, Sized, Coherent, Quiet, Chain, Proper, FileTree, FileIndex, Lookup, Once, Grip, ByteAt,
         Wrote, Cache.Valid, Grown, Zero, Loose;
    ghost var v0, addr0, st0 := fs.bio.view, ip.addr, fs.stack;
    var r, ra := Bmap(fs, ip, off / 512, true);
    ghost var v1, addr1, st1 := fs.bio.view, ip.addr, fs.stack;
    GrownWrote(v0, addr0, st0, v1, addr1, st1, off / 512);
    GrownBytes(v0, addr0, st0, v1, addr1, st1, off / 512);
    GrownMapped(v0, addr0, st0, v1, addr1, st1, off / 512);
    ok := r >= 0;
    if ok {
      PutBytes(fs, ip, off / 512, r, off % 512, s);
      WroteMore(v0, addr0, st0, v1, addr1, st1, fs.bio.view, ip.addr, fs.stack);
    }
  }

  /**
   A turn of writei's loop past the last block that bmap can map.  bmap sets EFBIG and returns 0, and writei goes on: the
   bytes go into the buffer of block 0, which is released unwritten, and the size grows though the file has none of
   them.  The cache keeps block 0 right if and only if the bytes are those it has there, or it was not buffered and
   all of it was to be written.
   */
  method WritePast(fs: Super, ip: Inode, off: nat, s: seq<Byte>)
    requires Ready(fs, ip) && |fs.Held()| + 1 < NBUF && !Holding(fs.Held(), 0) && HasBlocks(ip.mode)
    requires 0 < |s| && off % 512 + |s| <= 512 && off >= MAXSIZE
    modifies fs, fs.bio, ip`addr, ip`size, ip`changed
    ensures fs.bio.view == old(fs.bio.view) && fs.stack == old(fs.stack) && fs.Held() == old(fs.Held())
    ensures ip.addr == old(ip.addr) && ip.size == if off + |s| > old(ip.size) then off + |s| else old(ip.size)
    ensures |fs.bio.view| > 0
    ensures fs.bio.Valid() <==> (|s| == 512 && !old(Buffered(fs.bio.bufs, 0))) || fs.bio.view[0][off % 512..off % 512 + |s|] == s
  {
    hide AvLinked, Chosen, Back, DevLinked, Sized, Coherent, Quiet, Chain, Proper, FileTree, FileIndex, Lookup, Once, Grip, ByteAt,
         Cache.Valid, Grown, Zero, Loose, Patch, Buffered;
    var r, _ := Bmap(fs, ip, off / 512, true);
    Spoil(fs, r, off % 512, s);
    if off + |s| > ip.size {
      ip.size := off + |s|;
    }
    ip.changed := true;
  }

  /** The bytes go into block b's buffer, which is released unwritten. */
  method Spoil(fs: Super, b: int, on: nat, s: seq<Byte>)
    requires fs.bio.Valid() && 0 <= b < |fs.bio.view| && CanGet(fs.Held(), b) && on + |s| <= 512
    modifies fs.bio
    ensures fs.bio.view == old(fs.bio.view) && fs.Held() == old(fs.Held())
    ensures fs.bio.Valid() <==> (|s| == 512 && !old(Buffered(fs.bio.bufs, b))) || fs.bio.view[b][on..on + |s|] == s
  {
    hide AvLinked, Chosen, Back, DevLinked, Sized, Coherent, Quiet, Grip, Zero, Patch, Buffered;
    var bp := 0;
    if |s| == 512 {
      bp := fs.bio.GetBlk(b);
    } else {
      bp := fs.bio.Bread(b);
    }
    PatchSame(fs.bio.bufs[bp].data, on, s);
    fs.bio.Store(bp, Patch(fs.bio.bufs[bp].data, on, s));
    fs.bio.BrelseUnwritten(bp);
    assert fs.Held() == old(fs.Held());
  }

  lemma PatchSame(b: Block, on: nat, s: seq<Byte>)
    requires on + |s| <= 512
    ensures Patch(b, on, s) == b <==> b[on..on + |s|] == s
  {
    if Patch(b, on, s) == b {
      assert forall k :: on <= k < on + |s| ==> b[k] == s[k - on];
    }
  }

  /** How much of left bytes at off goes into one block. */
  function Share(off: nat, left: nat): (k: nat)
    requires left > 0
    ensures 0 < k <= left && off % 512 + k <= 512
    ensures k == left || (off + k) % 512 == 0
    ensures off % 512 + left <= 512 ==> k == left
  {
    if 512 - off % 512 < left then 512 - off % 512 else left
  }

  lemma WrittenNothing(v: seq<Block>, addr: seq<nat>, off: nat, src: seq<Byte>)
    requires |addr| == NADDR
    ensures Written(v, addr, v, addr, off, src[..0])
  {
  }

  lemma WrittenSame(v: seq<Block>, addr: seq<nat>, off: nat)
    requires |addr| == NADDR
    ensures Written(v, addr, v, addr, off, [])
  {
  }

  /**
   writei: the bytes go in block by block until they are all written or the volume is full; n says how
   many went in.  The size grows to the end of what was written.
   */
  method Writei(fs: Super, ip: Inode, off: nat, src: seq<Byte>) returns (n: nat)
    requires Ready(fs, ip) && |fs.Held()| + 1 < NBUF && off + |src| <= MAXSIZE && ip.size <= MAXSIZE && HasBlocks(ip.mode)
    requires ZeroTail(fs.bio.view, ip.addr, ip.size)
    modifies fs, fs.bio, ip`addr, ip`size, ip`changed
    ensures Ready(fs, ip) && fs.Held() == old(fs.Held()) && ip.size <= MAXSIZE
    ensures n <= |src| && (n < |src| ==> fs.stack == [] && (n == 0 || (off + n) % 512 == 0))
    ensures n == 0 < |src| && off < 512 * (NADDR - 3) ==> old(fs.stack) == []
    ensures off % 512 + |src| <= 512 ==> |old(fs.stack)| <= |fs.stack| + 4
    ensures Solid(old(fs.bio.view), old(ip.addr), old(ip.size)) && off <= old(ip.size) ==> Solid(fs.bio.view, ip.addr, ip.size)
    ensures Solid(old(fs.bio.view), old(ip.addr), old(ip.size)) && off + |src| <= old(ip.size) ==> n == |src|
    ensures Contents(fs.bio.view, ip.addr, ip.size) == Splice(Contents(old(fs.bio.view), old(ip.addr), old(ip.size)), off, src[..n])
    ensures ZeroTail(fs.bio.view, ip.addr, ip.size)
    ensures Wrote(old(fs.bio.view), old(ip.addr), old(fs.stack), fs.bio.view, ip.addr, fs.stack)
  {
    hide AvLinked, Chosen, Back, DevLinked, Sized, Coherent, Quiet, Chain, Proper, FileTree, FileIndex, Lookup, Once, Grip, ByteAt,
         Wrote, Cache.Valid, Owned, Loose, Contents, Splice, ZeroTail, Solid, StillMapped, Written, Share;
    ghost var v0, addr0, st0, size0 := fs.bio.view, ip.addr, fs.stack, ip.size;
    WroteNothing(v0, addr0, st0);
    WrittenNothing(v0, addr0, off, src);
    MappedSame(v0, addr0);
    n := 0;
    while n < |src|
      invariant 0 <= n <= |src| && Ready(fs, ip) && fs.Held() == old(fs.Held())
      invariant Wrote(v0, addr0, st0, fs.bio.view, ip.addr, fs.stack)
      invariant Written(v0, addr0, fs.bio.view, ip.addr, off, src[..n])
      invariant ip.size == (if n > 0 && off + n > size0 then off + n else size0)
      invariant n == 0 || n == |src| || (off + n) % 512 == 0
      invariant n == 0 ==> fs.stack == st0
      invariant off % 512 + |src| <= 512 ==> |st0| <= |fs.stack| + 4 && (n == 0 || n == |src|)
      invariant StillMapped(v0, addr0, fs.bio.view, ip.addr)
      invariant Solid(v0, addr0, size0) && off <= size0 ==> Solid(fs.bio.view, ip.addr, ip.size)
    {
      var k := Share(off + n, |src| - n);
      ghost var v1, addr1, st1 := fs.bio.view, ip.addr, fs.stack;
      WrittenSame(v1, addr1, off + n);
      assert src[n..n] == [];
      var ok := WriteChunk(fs, ip, off + n, src[n..n + k]);
      WroteMore(v0, addr0, st0, v1, addr1, st1, fs.bio.view, ip.addr, fs.stack);
      WrittenMore(v0, addr0, v1, addr1, fs.bio.view, ip.addr, off, src, n, if ok then k else 0);
      MappedMore(v0, addr0, v1, addr1, fs.bio.view, ip.addr);
      SolidMore(v1, addr1, ip.size, fs.bio.view, ip.addr, off + n, k, ok);
      SolidThere(v0, addr0, size0, v1, addr1, off + n);
      if !ok {
        break;
      }
      n := n + k;
      if off + n > ip.size && HasBlocks(ip.mode) {
        ip.size := off + n;
      }
      ip.changed := true;
    }
    WriteIsSplice(v0, addr0, size0, fs.bio.view, ip.addr, ip.size, off, src[..n]);
  }

  lemma MappedSame(v: seq<Block>, addr: seq<nat>)
    requires |addr| == NADDR
    ensures StillMapped(v, addr, v, addr)
  {
  }

  lemma MappedMore(v0: seq<Block>, addr0: seq<nat>, v1: seq<Block>, addr1: seq<nat>, v2: seq<Block>, addr2: seq<nat>)
    requires |addr0| == |addr1| == |addr2| == NADDR
    requires StillMapped(v0, addr0, v1, addr1) && StillMapped(v1, addr1, v2, addr2)
    ensures StillMapped(v0, addr0, v2, addr2)
  {
    hide Lookup;
  }

  /** A write inside one block, starting no later than the end, leaves no hole. */
  lemma SolidMore(v: seq<Block>, addr: seq<nat>, size: nat, v': seq<Block>, addr': seq<nat>, off: nat, k: nat, ok: bool)
    requires |addr| == |addr'| == NADDR && StillMapped(v, addr, v', addr') && off % 512 + k <= 512
    requires ok ==> Lookup(v', addr', off / 512) != 0
    ensures Solid(v, addr, size) ==> Solid(v', addr', size)
    ensures ok && k > 0 && Solid(v, addr, size) && off <= size ==> Solid(v', addr', if off + k > size then off + k else size)
  {
    hide Lookup;
    if ok && k > 0 && Solid(v, addr, size) && off <= size {
      forall bn | 0 <= bn < MAXBN && bn * 512 < off + k
        ensures Lookup(v', addr', bn) != 0
      {
        if bn * 512 >= size {
          assert bn == off / 512;
        }
      }
    }
  }

  lemma SolidThere(v0: seq<Block>, addr0: seq<nat>, size0: nat, v: seq<Block>, addr: seq<nat>, off: nat)
    requires |addr0| == |addr| == NADDR && StillMapped(v0, addr0, v, addr) && off < MAXSIZE
    ensures Solid(v0, addr0, size0) && off < size0 ==> Lookup(v, addr, off / 512) != 0
  {
    hide Lookup;
  }

  lemma WrittenMore(v0: seq<Block>, addr0: seq<nat>, v1: seq<Block>, addr1: seq<nat>, v2: seq<Block>, addr2: seq<nat>,
                    off: nat, src: seq<Byte>, n: nat, k: nat)
    requires n + k <= |src|
    requires Written(v0, addr0, v1, addr1, off, src[..n]) && Written(v1, addr1, v2, addr2, off + n, src[n..n + k])
    ensures Written(v0, addr0, v2, addr2, off, src[..n + k])
  {
    hide ByteAt;
    assert forall j :: 0 <= j < n + k ==> src[..n + k][j] == src[j];
    assert forall j :: 0 <= j < n ==> src[..n][j] == src[j];
    var mid := src[n..n + k];
    assert forall j :: 0 <= j < |mid| ==> mid[j] == src[n + j];
  }

  /** The contents of block r, with read-ahead of ra after a sequential read, or of a cleared buffer for a hole. */
  method Fetch(fs: Super, r: int, ra: nat, sequential: bool) returns (data: Block)
    requires fs.bio.Valid() && |fs.Held()| + 1 < NBUF && ra < |fs.bio.view|
    requires r >= 0 ==> r < |fs.bio.view| && !Holding(fs.Held(), r)
    modifies fs.bio
    ensures fs.bio.Valid() && fs.bio.view == old(fs.bio.view) && fs.Held() == old(fs.Held())
    ensures data == if r < 0 then Zero() else fs.bio.view[r]
    ensures r >= 0 && sequential && ra != 0 ==> Resident(fs.bio.bufs, ra) || GivenUp(old(fs.bio.bufs), old(fs.bio.avail), r)
  {
    hide AvLinked, Chosen, Back, DevLinked, Sized, Coherent, Quiet, Grip, Zero, GivenUp, Resident;
    var bp;
    if r < 0 {
      bp := fs.bio.GetEblk();
      fs.bio.Store(bp, Zero());
    } else if sequential {
      bp := fs.bio.Breada(r, ra);
    } else {
      bp := fs.bio.Bread(r);
    }
    data := fs.bio.bufs[bp].data;
    ResidentStays(fs.bio.bufs, bp, fs.bio.bufs[bp].(busy := false, async := false, age := false), ra);
    fs.bio.Brelse(bp);
    assert fs.Held() == old(fs.Held());
  }

  /** One turn of readi's loop: n bytes inside one block. */
  method ReadChunk(fs: Super, ip: Inode, off: nat, n: nat) returns (out: seq<Byte>)
    requires Ready(fs, ip) && |fs.Held()| + 1 < NBUF && off % 512 + n <= 512 && off < MAXSIZE
    modifies fs, fs.bio, ip`addr, ip`changed, ip`lastr
    ensures Ready(fs, ip) && fs.Held() == old(fs.Held())
    ensures fs.bio.view == old(fs.bio.view) && fs.stack == old(fs.stack) && ip.addr == old(ip.addr)
    ensures |out| == n && forall k :: 0 <= k < n ==> out[k] == ByteAt(fs.bio.view, ip.addr, off + k)
    ensures ip.lastr == off / 512
  {
    hide Resident, GivenUp, AvLinked, Chosen, Back, DevLinked, Sized, Coherent, Quiet, Chain, Proper, FileTree, FileIndex, Lookup, Once, Grip, Grown, Zero, Cache.Valid;
    var lbn, on := off / 512, off % 512;
    var r, ra := Bmap(fs, ip, lbn, false);
    if r >= 0 {
      InFile(fs.bio.view, ip.addr, fs.stack, lbn, fs.isize, fs.fsize);
    }
    var data := Fetch(fs, r, ra, ip.lastr + 1 == lbn);
    ip.lastr := lbn;
    out := data[on..on + n];
    ZeroIsZero();
    OffsetIn(lbn, on, n);
  }

  lemma ZeroIsZero()
    ensures forall k :: 0 <= k < 512 ==> Zero()[k] == 0
  {
  }

  /** The part of c that a read of count bytes at off sees. */
  function Window(c: seq<Byte>, off: nat, count: nat): seq<Byte> {
    if off >= |c| then [] else if off + count <= |c| then c[off..off + count] else c[off..]
  }

  /** readi: the file's bytes from off on, count of them or up to the end of the file. */
  method Readi(fs: Super, ip: Inode, off: nat, count: nat) returns (out: seq<Byte>)
    requires Ready(fs, ip) && |fs.Held()| + 1 < NBUF && ip.size <= MAXSIZE
    modifies fs, fs.bio, ip`addr, ip`changed, ip`lastr
    ensures Ready(fs, ip) && fs.Held() == old(fs.Held())
    ensures fs.bio.view == old(fs.bio.view) && fs.stack == old(fs.stack) && ip.addr == old(ip.addr)
    ensures out == Window(Contents(fs.bio.view, ip.addr, ip.size), off, count)
  {
    hide AvLinked, Chosen, Back, DevLinked, Sized, Coherent, Quiet, Chain, Proper, FileTree, FileIndex, Lookup, Once, Grip, ByteAt,
         Cache.Valid, Owned, Loose;
    out := [];
    ip.changed := true;
    while |out| < count
      invariant |out| <= count && Ready(fs, ip) && fs.Held() == old(fs.Held())
      invariant fs.bio.view == old(fs.bio.view) && fs.stack == old(fs.stack) && ip.addr == old(ip.addr)
      invariant out == [] || off + |out| <= ip.size
      invariant forall k :: 0 <= k < |out| ==> out[k] == ByteAt(fs.bio.view, ip.addr, off + k)
    {
      var at := off + |out|;
      var n := if 512 - at % 512 < count - |out| then 512 - at % 512 else count - |out|;
      var diff := ip.size - at;
      if diff <= 0 {
        break;
      }
      if diff < n {
        n := diff;
      }
      ghost var before := out;
      var chunk := ReadChunk(fs, ip, at, n);
      out := out + chunk;
      forall k | 0 <= k < |out|
        ensures out[k] == ByteAt(fs.bio.view, ip.addr, off + k)
      {
        assert out[k] == if k < |before| then before[k] else chunk[k - |before|];
        assert k >= |before| ==> at + (k - |before|) == off + k;
      }
    }
    ghost var w := Window(Contents(fs.bio.view, ip.addr, ip.size), off, count);
    assert |w| == |out|;
    assert forall k :: 0 <= k < |out| ==> out[k] == w[k];
  }

  /** Two writes, the second where the first ended, are one write: chunking does not change the result. */
  lemma SpliceChunks(c: seq<Byte>, off: nat, a: seq<Byte>, b: seq<Byte>)
    ensures Splice(Splice(c, off, a), off + |a|, b) == Splice(c, off, a + b)
  {
    if a == [] {
      assert a + b == b;
    } else if b == [] {
      assert a + b == a;
    } else {
      var x, y := Splice(Splice(c, off, a), off + |a|, b), Splice(c, off, a + b);
      assert |x| == |y|;
      forall k | 0 <= k < |x|
        ensures x[k] == y[k]
      {
        SpliceByte(c, off, a, k);
        SpliceByte(c, off, a + b, k);
        SpliceByte(Splice(c, off, a), off + |a|, b, k);
      }
    }
  }

  /** A read after a write: the written bytes where it wrote, zeros in a gap, the old bytes elsewhere. */
  lemma SpliceByte(c: seq<Byte>, off: nat, s: seq<Byte>, k: nat)
    requires s != []
    ensures |Splice(c, off, s)| == if off + |s| < |c| then |c| else off + |s|
    ensures k < |Splice(c, off, s)| ==>
              Splice(c, off, s)[k] == if off <= k < off + |s| then s[k - off] else if k < |c| then c[k] else 0
  {
  }

  /** A read returns what there is of the count bytes from off on. */
  lemma WindowByte(c: seq<Byte>, off: nat, count: nat, k: nat)
    ensures |Window(c, off, count)| == if off >= |c| then 0 else if |c| - off < count then |c| - off else count
    ensures k < |Window(c, off, count)| ==> off + k < |c| && Window(c, off, count)[k] == c[off + k]
  {
  }

  /** Byte o of a file is byte o mod 512 of its logical block o / 512, or zero in a hole; the first ten blocks are the inode's addresses. */
  lemma ContentsByte(v: seq<Block>, addr: seq<nat>, size: nat, o: nat)
    requires |addr| == NADDR && o < size
    ensures var d := Lookup(v, addr, o / 512); Contents(v, addr, size)[o] == if 0 < d < |v| then v[d][o % 512] else 0
    ensures o < 5120 ==> var d := addr[o / 512]; Contents(v, addr, size)[o] == if 0 < d < |v| then v[d][o % 512] else 0
  {
    hide Lookup;
    if o < 5120 {
      LookupIs(v, addr, o / 512);
    }
  }

  lemma WindowChunks(c: seq<Byte>, off: nat, n: nat, m: nat)
    requires |Window(c, off, n)| == n
    ensures Window(c, off, n) + Window(c, off + n, m) == Window(c, off, n + m)
  {
  }

  const UINT16_MAX := 65535

  /** v7fs_read: 65535 bytes at a time, until the count is reached or a read returns nothing. */
  method FsRead(fs: Super, ip: Inode, off: nat, count: nat) returns (out: seq<Byte>)
    requires Ready(fs, ip) && |fs.Held()| + 1 < NBUF && ip.size <= MAXSIZE
    modifies fs, fs.bio, ip`addr, ip`changed, ip`lastr
    ensures Ready(fs, ip) && fs.Held() == old(fs.Held())
    ensures fs.bio.view == old(fs.bio.view) && fs.stack == old(fs.stack) && ip.addr == old(ip.addr)
    ensures out == Window(Contents(fs.bio.view, ip.addr, ip.size), off, count)
  {
    hide AvLinked, Chosen, Back, DevLinked, Sized, Coherent, Quiet, Chain, Proper, FileTree, Contents, Grip, Cache.Valid, Owned, Loose, Window;
    out := [];
    ghost var c := Contents(fs.bio.view, ip.addr, ip.size);
    WindowShort(c, off, 0);
    while |out| < count
      invariant |out| <= count && Ready(fs, ip) && fs.Held() == old(fs.Held())
      invariant fs.bio.view == old(fs.bio.view) && fs.stack == old(fs.stack) && ip.addr == old(ip.addr)
      invariant out == Window(c, off, |out|)
      decreases count - |out|
    {
      var want := if count - |out| > UINT16_MAX then UINT16_MAX else count - |out|;
      var got := Readi(fs, ip, off + |out|, want);
      WindowShort(c, off + |out|, want);
      if got == [] {
        WindowEnd(c, off, |out|, want, count);
        return;
      }
      WindowChunks(c, off, |out|, |got|);
      out := out + got;
    }
  }

  /** A short read is a read of what it returned. */
  lemma WindowShort(c: seq<Byte>, off: nat, count: nat)
    ensures |Window(c, off, count)| <= count && Window(c, off, |Window(c, off, count)|) == Window(c, off, count) && Window(c, off, 0) == []
  {
  }

  /** Nothing read means that the end is reached. */
  lemma WindowEnd(c: seq<Byte>, off: nat, n: nat, want: nat, count: nat)
    requires |Window(c, off, n)| == n <= count && want > 0 && Window(c, off + n, want) == []
    ensures Window(c, off, n) == Window(c, off, count)
  {
  }

  /** v7fs_write: 65535 bytes at a time; running out of space is an error, with done bytes already in the file. */
  method FsWrite(fs: Super, ip: Inode, off: nat, src: seq<Byte>) returns (noSpace: bool, ghost done: nat)
    requires Ready(fs, ip) && |fs.Held()| + 1 < NBUF && off + |src| <= MAXSIZE && ip.size <= MAXSIZE && HasBlocks(ip.mode)
    requires ZeroTail(fs.bio.view, ip.addr, ip.size)
    modifies fs, fs.bio, ip`addr, ip`size, ip`changed
    ensures Ready(fs, ip) && fs.Held() == old(fs.Held()) && ip.size <= MAXSIZE
    ensures done <= |src| && (noSpace <==> done < |src|) && (noSpace ==> fs.stack == [])
    ensures Contents(fs.bio.view, ip.addr, ip.size) == Splice(Contents(old(fs.bio.view), old(ip.addr), old(ip.size)), off, src[..done])
    ensures ZeroTail(fs.bio.view, ip.addr, ip.size)
    ensures Wrote(old(fs.bio.view), old(ip.addr), old(fs.stack), fs.bio.view, ip.addr, fs.stack)
  {
    hide AvLinked, Chosen, Back, DevLinked, Sized, Coherent, Quiet, Chain, Proper, FileTree, Contents, Grip, Cache.Valid, Owned, Loose, Splice,
         ZeroTail, Wrote;
    ghost var v0, addr0, st0, c0 := fs.bio.view, ip.addr, fs.stack, Contents(fs.bio.view, ip.addr, ip.size);
    WroteNothing(v0, addr0, st0);
    var n := 0;
    SpliceNothing(c0, off);
    assert src[..0] == [];
    while n < |src|
      invariant 0 <= n <= |src| && Ready(fs, ip) && fs.Held() == old(fs.Held()) && ip.size <= MAXSIZE
      invariant Contents(fs.bio.view, ip.addr, ip.size) == Splice(c0, off, src[..n])
      invariant ZeroTail(fs.bio.view, ip.addr, ip.size)
      invariant Wrote(v0, addr0, st0, fs.bio.view, ip.addr, fs.stack)
    {
      var want := if |src| - n > UINT16_MAX then UINT16_MAX else |src| - n;
      var chunk := src[n..n + want];
      ghost var v1, addr1, st1 := fs.bio.view, ip.addr, fs.stack;
      var k := Writei(fs, ip, off + n, chunk);
      WroteMore(v0, addr0, st0, v1, addr1, st1, fs.bio.view, ip.addr, fs.stack);
      SpliceChunks(c0, off, src[..n], chunk[..k]);
      assert src[..n] + chunk[..k] == src[..n + k];
      n := n + k;
      if k != want {
        return true, n;
      }
    }
    return false, n;
  }

  lemma SpliceNothing(c: seq<Byte>, off: nat)
    ensures Splice(c, off, []) == c
  {
  }
}
