/**
 The buffer cache of dev/bio.c: NBUF buffers on a device list, a list of unassociated buffers
 and a last-used-order available list, with delayed writes.  Pointers are node numbers: a buffer
 is 0..NBUF-1, FREEHEAD is `bfreelist` and DEVHEAD the device's `d_tab`.
 */
module BufferCache {
  import opened Blocks
  import opened Rings

  const NBUF := 29
  const FREEHEAD := 29
  const DEVHEAD := 30
  const NODES := 31

  /** A buffer header and its contents; onDev says b_dev is the root device rather than NODEV. */
  datatype Buf = Buf(onDev: bool, blkno: int, read: bool, done: bool, busy: bool, age: bool,
                     async: bool, delwri: bool, data: Block)

  ghost predicate Dirty(bufs: seq<Buf>, b: int) {
    exists k :: 0 <= k < |bufs| && bufs[k].onDev && bufs[k].delwri && bufs[k].blkno == b
  }

  /** Some buffer has the block's contents. */
  ghost predicate Buffered(bufs: seq<Buf>, b: int) {
    exists k :: 0 <= k < |bufs| && bufs[k].onDev && bufs[k].done && bufs[k].blkno == b
  }

  ghost function DirtySet(bufs: seq<Buf>): set<int> {
    set k | 0 <= k < |bufs| && bufs[k].delwri
  }

  /** The buffers somebody holds. */
  ghost function Grip(bufs: seq<Buf>): map<nat, Buf> {
    map k: nat | 0 <= k < |bufs| && bufs[k].busy :: bufs[k]
  }

  ghost predicate Holding(grip: map<nat, Buf>, b: int) {
    exists k :: k in grip && grip[k].onDev && grip[k].blkno == b
  }

  /** Neither of getblk's two sleeps can be reached: the block is not held and a buffer is free. */
  ghost predicate CanGet(grip: map<nat, Buf>, b: int) {
    !Holding(grip, b) && |grip| < NBUF
  }

  /** What ties the buffers and the disk to the logical contents `view` of every block. */
  ghost predicate Coherent(disk: seq<Block>, view: seq<Block>, bufs: seq<Buf>) {
    && |disk| == |view|
    && (forall k :: 0 <= k < |bufs| && bufs[k].onDev ==> 0 <= bufs[k].blkno < |disk|)
    && (forall j, k | 0 <= j < |bufs| && 0 <= k < |bufs| && bufs[j].onDev && bufs[k].onDev ::
          bufs[j].blkno == bufs[k].blkno ==> j == k)
    && (forall k :: 0 <= k < |bufs| && bufs[k].delwri ==> bufs[k].onDev && bufs[k].done)
    && (forall k | 0 <= k < |bufs| && bufs[k].onDev && !bufs[k].busy && bufs[k].done ::
          bufs[k].data == view[bufs[k].blkno])
    && (forall b :: 0 <= b < |disk| && disk[b] != view[b] ==> Dirty(bufs, b))
  }

  ghost predicate Sized(disk: seq<Block>, view: seq<Block>, bufs: seq<Buf>) {
    && |bufs| == NBUF && |disk| == |view|
    && (forall k :: 0 <= k < |bufs| && bufs[k].onDev ==> 0 <= bufs[k].blkno < |disk|)
    && (forall k :: 0 <= k < |bufs| && bufs[k].delwri ==> bufs[k].onDev && bufs[k].done)
  }

  /** No transfer is under way. */
  ghost predicate Quiet(bufs: seq<Buf>) {
    forall k :: 0 <= k < |bufs| ==> !bufs[k].async
  }

  /** A buffer is on the available list exactly when it is not busy. */
  ghost predicate AvLinked(bufs: seq<Buf>, avForw: seq<nat>, avBack: seq<nat>, avail: seq<nat>) {
    && |bufs| == NBUF && |avForw| == NODES
    && Ring(avForw, avBack, FREEHEAD, avail)
    && (forall k :: k in avail ==> k < NBUF)
    && (forall k: nat :: k < NBUF ==> (k in avail <==> !bufs[k].busy))
  }

  /** A buffer is on the device's list exactly when it stands for a block of the device. */
  ghost predicate DevLinked(bufs: seq<Buf>, bForw: seq<nat>, bBack: seq<nat>, devq: seq<nat>, freeq: seq<nat>) {
    && |bufs| == NBUF && |bForw| == NODES
    && Ring(bForw, bBack, DEVHEAD, devq)
    && Ring(bForw, bBack, FREEHEAD, freeq)
    && (forall k :: k in devq || k in freeq ==> k < NBUF)
    && (forall k: nat :: k < NBUF ==> (k in devq <==> bufs[k].onDev))
    && (forall k: nat :: k < NBUF ==> (k in freeq <==> !bufs[k].onDev))
  }

  /** 0, 1, .. n - 1. */
  ghost function Count(n: nat): (q: seq<nat>)
    ensures |q| == n && forall j :: 0 <= j < n ==> q[j] == j
  {
    seq(n, j => j)
  }

  function Upto(n: nat): (s: set<nat>)
    ensures |s| == n
    ensures forall k: nat :: k in s <==> k < n
  {
    if n == 0 then {} else Upto(n - 1) + {n - 1}
  }

  lemma SomeAvailable(bufs: seq<Buf>, avForw: seq<nat>, avBack: seq<nat>, avail: seq<nat>)
    requires AvLinked(bufs, avForw, avBack, avail) && |Grip(bufs)| < NBUF
    ensures |avForw| == NODES && avail != [] && avForw[FREEHEAD] == avail[0] && avail[0] < NBUF && !bufs[avail[0]].busy
  {
    assert avail == [] ==> Grip(bufs).Keys == Upto(NBUF);
    assert |Grip(bufs).Keys| == |Grip(bufs)|;
    assert avForw[Ith(FREEHEAD, avail, 0)] == Ith(FREEHEAD, avail, 1);
    assert avail[0] in avail;
  }

  lemma MinusFirst(bufs: seq<Buf>, avForw: seq<nat>, avBack: seq<nat>, avail: seq<nat>)
    requires AvLinked(bufs, avForw, avBack, avail) && avail != []
    ensures Minus(avail, avail[0]) == avail[1..]
  {
    RingSizes(avForw, avBack, FREEHEAD, avail);
  }

  lemma GripEntry(bufs: seq<Buf>, k: nat)
    requires k in Grip(bufs)
    ensures k < |bufs| && Grip(bufs)[k] == bufs[k]
  {
  }

  lemma GripOf(bufs: seq<Buf>, k: nat, nb: Buf)
    requires k < |bufs|
    ensures Grip(bufs[k := nb]) == if nb.busy then Grip(bufs)[k := nb] else Grip(bufs) - {k}
  {
  }

  lemma DirtyStays(bufs: seq<Buf>, k: nat, nb: Buf, b: int)
    requires k < |bufs| && Dirty(bufs, b)
    requires bufs[k].delwri && bufs[k].blkno == b ==> nb.onDev && nb.delwri && nb.blkno == b
    ensures Dirty(bufs[k := nb], b)
  {
    var j :| 0 <= j < |bufs| && bufs[j].onDev && bufs[j].delwri && bufs[j].blkno == b;
    assert bufs[k := nb][j].onDev && bufs[k := nb][j].delwri && bufs[k := nb][j].blkno == b;
  }

  /** Taking or releasing a buffer, and changing its read and age marks, keeps the cache coherent. */
  lemma CoherentHandover(disk: seq<Block>, view: seq<Block>, bufs: seq<Buf>, k: nat, nb: Buf)
    requires Coherent(disk, view, bufs) && k < |bufs|
    requires nb == bufs[k].(busy := nb.busy, age := nb.age, read := nb.read, async := nb.async)
    requires nb.busy || (nb.onDev && nb.done ==> nb.data == view[nb.blkno])
    ensures Coherent(disk, view, bufs[k := nb])
  {
    forall b | 0 <= b < |disk| && disk[b] != view[b]
      ensures Dirty(bufs[k := nb], b)
    {
      DirtyStays(bufs, k, nb, b);
    }
  }

  /** A buffer that holds a block's valid data is released; that keeps the cache coherent if and only if they are the block's. */
  lemma ReleasedUnwritten(disk: seq<Block>, view: seq<Block>, bufs: seq<Buf>, k: nat, nb: Buf)
    requires Coherent(disk, view, bufs) && k < |bufs| && nb == bufs[k].(busy := false, async := false, age := false)
    ensures Coherent(disk, view, bufs[k := nb]) <==> (nb.onDev && nb.done ==> nb.data == view[nb.blkno])
  {
    if nb.onDev && nb.done ==> nb.data == view[nb.blkno] {
      CoherentHandover(disk, view, bufs, k, nb);
    } else {
      assert bufs[k := nb][k] == nb;
    }
  }

  /** A block written through: the disk and the logical contents both take the buffer's data. */
  lemma CoherentWritten(disk: seq<Block>, view: seq<Block>, bufs: seq<Buf>, k: nat, nb: Buf)
    requires Coherent(disk, view, bufs) && k < |bufs| && bufs[k].onDev && !nb.delwri
    requires nb.onDev && nb.blkno == bufs[k].blkno && nb.data == bufs[k].data
    ensures Coherent(disk[nb.blkno := nb.data], view[nb.blkno := nb.data], bufs[k := nb])
  {
    forall b | 0 <= b < |disk| && b != nb.blkno && disk[b] != view[b]
      ensures Dirty(bufs[k := nb], b)
    {
      DirtyStays(bufs, k, nb, b);
    }
  }

  /** A delayed write: only the logical contents take the data, and the buffer is marked. */
  lemma CoherentDelayed(disk: seq<Block>, view: seq<Block>, bufs: seq<Buf>, k: nat, nb: Buf)
    requires Coherent(disk, view, bufs) && k < |bufs| && bufs[k].onDev
    requires nb.onDev && nb.delwri && nb.done && nb.blkno == bufs[k].blkno && nb.data == bufs[k].data
    ensures Coherent(disk, view[nb.blkno := nb.data], bufs[k := nb])
  {
    forall b | 0 <= b < |disk| && disk[b] != view[nb.blkno := nb.data][b]
      ensures Dirty(bufs[k := nb], b)
    {
      if b == nb.blkno {
        assert bufs[k := nb][k].onDev && bufs[k := nb][k].delwri;
      } else {
        DirtyStays(bufs, k, nb, b);
      }
    }
  }

  /** A clean buffer may be given to another block, or to none. */
  lemma CoherentReassigned(disk: seq<Block>, view: seq<Block>, bufs: seq<Buf>, k: nat, nb: Buf)
    requires Coherent(disk, view, bufs) && k < |bufs| && !bufs[k].delwri
    requires nb.busy && !nb.delwri
    requires nb.onDev ==> 0 <= nb.blkno < |disk| && forall j :: 0 <= j < |bufs| && bufs[j].onDev ==> bufs[j].blkno != nb.blkno
    ensures Coherent(disk, view, bufs[k := nb])
  {
    forall b | 0 <= b < |disk| && disk[b] != view[b]
      ensures Dirty(bufs[k := nb], b)
    {
      DirtyStays(bufs, k, nb, b);
    }
  }

  /** A read from disk fills a busy buffer that held nothing valid. */
  lemma CoherentFilled(disk: seq<Block>, view: seq<Block>, bufs: seq<Buf>, k: nat, nb: Buf)
    requires Coherent(disk, view, bufs) && k < |bufs| && bufs[k].onDev && !bufs[k].done
    requires nb.onDev && nb.blkno == bufs[k].blkno && !nb.delwri && nb.data == disk[nb.blkno]
    ensures Coherent(disk, view, bufs[k := nb]) && nb.data == view[nb.blkno]
  {
    assert !Dirty(bufs, nb.blkno);
    forall b | 0 <= b < |disk| && disk[b] != view[b]
      ensures Dirty(bufs[k := nb], b)
    {
      DirtyStays(bufs, k, nb, b);
    }
  }

  /** A finished transfer. */
  function Completed(b: Buf): Buf {
    if b.async then b.(done := true, busy := false, async := false, age := false) else b.(done := true)
  }

  lemma AvSame(bufs: seq<Buf>, forw: seq<nat>, back: seq<nat>, avail: seq<nat>, k: nat, nb: Buf)
    requires AvLinked(bufs, forw, back, avail) && k < NBUF && nb.busy == bufs[k].busy
    ensures AvLinked(bufs[k := nb], forw, back, avail)
  {
  }

  lemma DevSame(bufs: seq<Buf>, bForw: seq<nat>, bBack: seq<nat>, devq: seq<nat>, freeq: seq<nat>, k: nat, nb: Buf)
    requires DevLinked(bufs, bForw, bBack, devq, freeq) && k < NBUF && nb.onDev == bufs[k].onDev
    ensures DevLinked(bufs[k := nb], bForw, bBack, devq, freeq)
  {
  }

  /** Where node x is on a list. */
  ghost function IndexOf(q: seq<nat>, x: nat): (k: nat)
    requires x in q
    ensures k < |q| && q[k] == x
  {
    var k :| 0 <= k < |q| && q[k] == x;
    k
  }

  ghost function Minus(q: seq<nat>, x: nat): seq<nat> {
    if x in q then Without(q, IndexOf(q, x)) else q
  }

  /** The available list when buffer bp, whose header is b, is released: an aged one goes to the head. */
  ghost function Back(avail: seq<nat>, b: Buf, bp: nat): seq<nat> {
    if b.age then [bp] + avail else avail + [bp]
  }

  /** A buffer stands for block b. */
  ghost predicate Resident(bufs: seq<Buf>, b: int) {
    exists k :: 0 <= k < |bufs| && bufs[k].onDev && bufs[k].blkno == b
  }

  /**
   The available buffer that is given up: the first one that is not a delayed write, the delayed writes in front of it
   having gone out and to the end of the list.
   */
  ghost predicate Recycled(was: seq<Buf>, avail: seq<nat>, avail': seq<nat>, bp: nat) {
    exists d: nat :: d <= |avail| && Leading(was, avail, d) && [bp] + avail' == avail[d..] + avail[..d]
  }

  /** The first d of the list are delayed writes and the next is not. */
  ghost predicate Leading(was: seq<Buf>, avail: seq<nat>, d: nat) {
    && d <= |avail| && avail != [] && (forall j :: 0 <= j < |avail| ==> avail[j] < |was|)
    && (forall j :: 0 <= j < d ==> was[avail[j]].delwri) && (d < |avail| ==> !was[avail[d]].delwri)
  }

  /** What getblk takes: the block's buffer if it has one, else the one that is given up; no other buffer changes its block. */
  ghost predicate Chosen(was: seq<Buf>, avail: seq<nat>, bufs: seq<Buf>, avail': seq<nat>, bp: nat, b: int) {
    && |bufs| == |was| && bp < |bufs|
    && (if Resident(was, b) then was[bp].onDev && was[bp].blkno == b && bp in avail && avail' == Minus(avail, bp)
        else Recycled(was, avail, avail', bp))
    && forall k :: 0 <= k < |bufs| && k != bp ==> bufs[k].onDev == was[k].onDev && bufs[k].blkno == was[k].blkno
  }

  /** The first d available buffers have been written out and gone to the end. */
  ghost predicate Passed(was: seq<Buf>, avail: seq<nat>, bufs: seq<Buf>, avail': seq<nat>, d: nat) {
    && |bufs| == |was| && d <= |avail| && (forall j :: 0 <= j < |avail| ==> avail[j] < |was|) && Distinct(avail)
    && avail' == avail[d..] + avail[..d]
    && (forall j :: 0 <= j < d ==> was[avail[j]].delwri && !bufs[avail[j]].delwri)
    && (forall j :: d <= j < |avail| ==> bufs[avail[j]].delwri == was[avail[j]].delwri)
    && forall k :: 0 <= k < |bufs| ==> bufs[k].onDev == was[k].onDev && bufs[k].blkno == was[k].blkno
  }

  lemma NonePassed(bufs: seq<Buf>, avForw: seq<nat>, avBack: seq<nat>, avail: seq<nat>)
    requires AvLinked(bufs, avForw, avBack, avail)
    ensures Passed(bufs, avail, bufs, avail, 0)
  {
    RingSizes(avForw, avBack, FREEHEAD, avail);
    forall j | 0 <= j < |avail|
      ensures avail[j] < |bufs|
    {
      assert avail[j] in avail;
    }
  }

  /** The oldest buffer is taken if it is clean; else it is written out, and there is one more behind. */
  lemma Passing(was: seq<Buf>, avail: seq<nat>, bufs: seq<Buf>, avail': seq<nat>, d: nat, bufs': seq<Buf>, avail'': seq<nat>, bp: nat, clean: bool)
    requires Passed(was, avail, bufs, avail', d) && avail' != [] && bp == avail'[0] && |bufs'| == |bufs| == NBUF
    requires avail'' == (if clean then avail'[1..] else avail'[1..] + [bp]) && (clean <==> bp !in DirtySet(bufs)) && (!clean ==> bp !in DirtySet(bufs'))
    requires forall k :: 0 <= k < NBUF && k != bp ==> bufs'[k] == bufs[k]
    requires forall k :: 0 <= k < NBUF ==> bufs'[k].onDev == bufs[k].onDev && bufs'[k].blkno == bufs[k].blkno
    ensures clean ==> Recycled(was, avail, avail'', bp)
    ensures !clean ==> Passed(was, avail, bufs', avail'', d + 1)
  {
    hide Passed, Recycled;
    if clean {
      PassedClean(was, avail, bufs, avail', d, avail'', bp);
    } else {
      PassedDirty(was, avail, bufs, avail', d, bufs', avail'', bp);
    }
  }

  lemma PassedClean(was: seq<Buf>, avail: seq<nat>, bufs: seq<Buf>, avail': seq<nat>, d: nat, avail'': seq<nat>, bp: nat)
    requires Passed(was, avail, bufs, avail', d) && avail' != [] && bp == avail'[0] && |bufs| == NBUF
    requires avail'' == avail'[1..] && bp !in DirtySet(bufs)
    ensures Recycled(was, avail, avail'', bp)
  {
    assert [bp] + avail'' == avail';
    if d < |avail| {
      assert bp == avail[d];
    }
    assert Leading(was, avail, d);
  }

  lemma PassedDirty(was: seq<Buf>, avail: seq<nat>, bufs: seq<Buf>, avail': seq<nat>, d: nat, bufs': seq<Buf>, avail'': seq<nat>, bp: nat)
    requires Passed(was, avail, bufs, avail', d) && avail' != [] && bp == avail'[0] && |bufs'| == |bufs| == NBUF
    requires avail'' == avail'[1..] + [bp] && bp in DirtySet(bufs) && bp !in DirtySet(bufs')
    requires forall k :: 0 <= k < NBUF && k != bp ==> bufs'[k] == bufs[k]
    requires forall k :: 0 <= k < NBUF ==> bufs'[k].onDev == bufs[k].onDev && bufs'[k].blkno == bufs[k].blkno
    ensures Passed(was, avail, bufs', avail'', d + 1)
  {
    assert d < |avail| && bp == avail[d];
    RotateOne(avail, d);
    forall j | 0 <= j < |avail| && j != d
      ensures bufs'[avail[j]] == bufs[avail[j]]
    {
    }
  }

  lemma RotateOne(q: seq<nat>, d: nat)
    requires d < |q|
    ensures (q[d..] + q[..d])[1..] + [q[d]] == q[d + 1..] + q[..d + 1]
  {
  }

  /** The search finds the block's buffer, if it has one, before any buffer is passed over. */
  lemma Found(was: seq<Buf>, avail: seq<nat>, bufs: seq<Buf>, avail': seq<nat>, d: nat, b: int, bp: nat)
    requires Passed(was, avail, bufs, avail', d) && |bufs| == NBUF && (d > 0 ==> !Resident(was, b))
    requires bp == DEVHEAD || (bp < NBUF && bufs[bp].onDev && bufs[bp].blkno == b)
    requires bp == DEVHEAD ==> forall k :: 0 <= k < NBUF && bufs[k].onDev ==> bufs[k].blkno != b
    ensures bp == DEVHEAD <==> !Resident(was, b)
    ensures bp != DEVHEAD ==> d == 0 && avail' == avail && was[bp].onDev && was[bp].blkno == b
    ensures bp == DEVHEAD ==> !Buffered(bufs, b)
    ensures bp != DEVHEAD && bufs[bp].done ==> Buffered(bufs, b)
  {
    assert bp != DEVHEAD ==> was[bp].onDev && was[bp].blkno == b;
  }

  lemma ChosenHit(was: seq<Buf>, avail: seq<nat>, bufs': seq<Buf>, bufs: seq<Buf>, avail': seq<nat>, bp: nat, b: int)
    requires Passed(was, avail, bufs', avail, 0) && Resident(was, b) && bp < |was| && was[bp].onDev && was[bp].blkno == b
    requires bp in avail && avail' == Minus(avail, bp) && bufs == bufs'[bp := bufs'[bp].(busy := true)]
    ensures Chosen(was, avail, bufs, avail', bp, b)
  {
    hide Minus, Resident;
  }

  lemma ChosenMiss(was: seq<Buf>, avail: seq<nat>, bufs': seq<Buf>, avail': seq<nat>, bufs: seq<Buf>, avail'': seq<nat>, d: nat, bp: nat, b: int)
    requires Passed(was, avail, bufs', avail', d) && !Resident(was, b) && bp < |bufs| == |bufs'|
    requires Recycled(was, avail, avail'', bp) && forall k :: 0 <= k < |bufs| && k != bp ==> bufs[k] == bufs'[k]
    ensures Chosen(was, avail, bufs, avail'', bp, b)
  {
    hide Minus, Resident, Recycled;
  }

  lemma ChosenFilled(was: seq<Buf>, avail: seq<nat>, bufs: seq<Buf>, avail': seq<nat>, bp: nat, b: int, nb: Buf)
    requires Chosen(was, avail, bufs, avail', bp, b)
    ensures Chosen(was, avail, bufs[bp := nb], avail', bp, b)
  {
    hide Minus, Resident, Recycled;
  }

  lemma ResidentIs(bufs: seq<Buf>, b: int)
    ensures Resident(bufs, b) <==> exists k :: 0 <= k < |bufs| && bufs[k].onDev && bufs[k].blkno == b
  {
  }

  lemma ResidentStays(bufs: seq<Buf>, k: nat, nb: Buf, b: int)
    requires k < |bufs| && nb.onDev == bufs[k].onDev && nb.blkno == bufs[k].blkno
    ensures Resident(bufs, b) ==> Resident(bufs[k := nb], b)
  {
    if Resident(bufs, b) {
      var j :| 0 <= j < |bufs| && bufs[j].onDev && bufs[j].blkno == b;
      assert bufs[k := nb][j].onDev && bufs[k := nb][j].blkno == b;
    }
  }

  /** The buffer of block b is the one that is given up next. */
  ghost predicate GivenUp(was: seq<Buf>, avail: seq<nat>, b: int) {
    exists k: nat, q: seq<nat> :: k < |was| && was[k].onDev && was[k].blkno == b && Recycled(was, avail, q, k)
  }

  /** Buffer k, which was given up, has another block, and no other buffer has. */
  ghost predicate Ahead(was: seq<Buf>, avail: seq<nat>, bufs: seq<Buf>, k: nat) {
    && |bufs| == |was| && (exists q: seq<nat> :: Recycled(was, avail, q, k))
    && forall j :: 0 <= j < |bufs| && j != k ==> bufs[j].onDev == was[j].onDev && bufs[j].blkno == was[j].blkno
  }

  lemma AheadChosen(was: seq<Buf>, avail: seq<nat>, bufs: seq<Buf>, avail': seq<nat>, k: nat, b: int)
    requires Chosen(was, avail, bufs, avail', k, b) && !Resident(was, b)
    ensures Ahead(was, avail, bufs, k)
  {
    hide Recycled, Resident, Minus;
  }

  lemma AheadSame(was: seq<Buf>, avail: seq<nat>, bufs: seq<Buf>, bufs': seq<Buf>, k: nat)
    requires Ahead(was, avail, bufs, k) && |bufs'| == |bufs| && forall j :: 0 <= j < |bufs| && j != k ==> bufs'[j] == bufs[j]
    ensures Ahead(was, avail, bufs', k)
  {
    hide Recycled;
  }

  /** Reading the block after its read-ahead keeps the block read ahead, unless its buffer was what the other lost. */
  lemma AheadStays(was: seq<Buf>, avail: seq<nat>, bufs: seq<Buf>, avail': seq<nat>, bufs': seq<Buf>, avail'': seq<nat>, k: nat, bp: nat, b: int, ra: int)
    requires Resident(was, b) && (bufs == was || Ahead(was, avail, bufs, k)) && Chosen(bufs, avail', bufs', avail'', bp, b)
    requires bufs'[bp].onDev && bufs'[bp].blkno == b
    ensures Resident(bufs, ra) ==> Resident(bufs', ra) || GivenUp(was, avail, b)
  {
    hide Recycled, Minus;
    var n :| 0 <= n < |was| && was[n].onDev && was[n].blkno == b;
    if !GivenUp(was, avail, b) && bufs != was {
      assert n != k;
    }
    if !GivenUp(was, avail, b) && Resident(bufs, ra) {
      assert bufs[n].onDev && bufs[n].blkno == b;
      var m :| 0 <= m < |bufs| && bufs[m].onDev && bufs[m].blkno == ra;
      assert bufs'[m].onDev && bufs'[m].blkno == ra;
    }
  }

  lemma BufferedSame(was: seq<Buf>, bufs: seq<Buf>, bp: nat, b: int)
    requires |was| == |bufs| && !Buffered(was, b) && forall k :: 0 <= k < |bufs| ==> bufs[k].onDev == was[k].onDev && bufs[k].blkno == was[k].blkno
    requires forall k :: 0 <= k < |was| && was[k].onDev ==> was[k].blkno != b
    ensures !Buffered(bufs, b)
  {
  }

  lemma MinusMembers(q: seq<nat>, x: nat)
    requires Distinct(q)
    ensures forall n: nat :: n in Minus(q, x) <==> n in q && n != x
  {
  }

  lemma RingSizes(forw: seq<nat>, back: seq<nat>, h: nat, q: seq<nat>)
    requires Ring(forw, back, h, q)
    ensures |forw| == |back| && h < |forw| && h !in q && Distinct(q)
  {
  }

  /** Taking a buffer off whichever of the two lists it is on leaves both well formed. */
  lemma Detached(bufs: seq<Buf>, forw: seq<nat>, back: seq<nat>, devq: seq<nat>, freeq: seq<nat>, x: nat)
    requires DevLinked(bufs, forw, back, devq, freeq) && x < NBUF
    ensures forw[x] < NODES && back[x] < NODES && back[x] != x
    ensures var f, b := forw[back[x] := forw[x]], back[forw[x] := back[x]];
      Ring(f, b, DEVHEAD, Minus(devq, x)) && Ring(f, b, FREEHEAD, Minus(freeq, x))
  {
    if x in devq {
      DetachedFrom(forw, back, DEVHEAD, devq, FREEHEAD, freeq, x);
    } else {
      DetachedFrom(forw, back, FREEHEAD, freeq, DEVHEAD, devq, x);
    }
  }

  lemma DetachedFrom(forw: seq<nat>, back: seq<nat>, h: nat, q: seq<nat>, h': nat, q': seq<nat>, x: nat)
    requires Ring(forw, back, h, q) && Ring(forw, back, h', q') && x in q && h != h' && h !in q' && h' !in q
    requires forall n :: n in q ==> n !in q'
    ensures forw[x] < |forw| && back[x] < |forw| && back[x] != x
    ensures Ring(forw[back[x] := forw[x]], back[forw[x] := back[x]], h, Minus(q, x))
    ensures Ring(forw[back[x] := forw[x]], back[forw[x] := back[x]], h', q')
  {
    var k := IndexOf(q, x);
    Unlink(forw, back, h, q, k);
    assert x == Ith(h, q, k + 1);
    assert forw[x] == Ith(h, q, k + 2) && back[x] == Ith(h, q, k);
    Apart(forw, back, forw[back[x] := forw[x]], back[forw[x] := back[x]], h', q');
  }

  /** getblk's and geteblk's relinking: off its list, and first on the list of head h. */
  lemma Moved(bufs: seq<Buf>, forw: seq<nat>, back: seq<nat>, devq: seq<nat>, freeq: seq<nat>, x: nat, toDev: bool, nb: Buf)
    requires DevLinked(bufs, forw, back, devq, freeq) && x < NBUF && nb.onDev == toDev
    ensures |forw| == |back| == NODES && forw[x] < NODES && back[x] < NODES && back[x] != x
    ensures var f, b := forw[back[x] := forw[x]], back[forw[x] := back[x]];
      var h := if toDev then DEVHEAD else FREEHEAD;
      && f[h] < NODES
      && DevLinked(bufs[x := nb], f[x := f[h]][h := x], b[f[h] := x][x := h],
                   if toDev then [x] + Minus(devq, x) else Minus(devq, x),
                   if toDev then Minus(freeq, x) else [x] + Minus(freeq, x))
  {
    hide Ring;
    Detached(bufs, forw, back, devq, freeq, x);
    RingSizes(forw, back, DEVHEAD, devq);
    RingSizes(forw, back, FREEHEAD, freeq);
    MinusMembers(devq, x);
    MinusMembers(freeq, x);
    var f, b := forw[back[x] := forw[x]], back[forw[x] := back[x]];
    var d, e := Minus(devq, x), Minus(freeq, x);
    if toDev {
      LinkedFirst(f, b, DEVHEAD, d, FREEHEAD, e, x);
    } else {
      LinkedFirst(f, b, FREEHEAD, e, DEVHEAD, d, x);
    }
  }

  lemma LinkedFirst(forw: seq<nat>, back: seq<nat>, h: nat, q: seq<nat>, h': nat, q': seq<nat>, x: nat)
    requires Ring(forw, back, h, q) && Ring(forw, back, h', q') && x < |forw| && x !in q && x !in q'
    requires h != h' && h !in q' && h' !in q && x != h && x != h'
    requires forall n :: n in q ==> n !in q'
    ensures forw[h] < |forw|
    ensures Ring(forw[x := forw[h]][h := x], back[forw[h] := x][x := h], h, [x] + q)
    ensures Ring(forw[x := forw[h]][h := x], back[forw[h] := x][x := h], h', q')
  {
    LinkFirst(forw, back, h, q, x);
    assert forw[h] == Ith(h, q, 1) by { assert h == Ith(h, q, 0); }
    Apart(forw, back, forw[x := forw[h]][h := x], back[forw[h] := x][x := h], h', q');
  }

  lemma AvTake(bufs: seq<Buf>, forw: seq<nat>, back: seq<nat>, avail: seq<nat>, k: nat)
    requires AvLinked(bufs, forw, back, avail) && k < |avail|
    ensures var x := avail[k];
      && |forw| == |back| == NODES && x < NBUF && back[x] < NODES && forw[x] < NODES && back[x] != x
      && AvLinked(bufs[x := bufs[x].(busy := true)], forw[back[x] := forw[x]], back[forw[x] := back[x]], Without(avail, k))
  {
    var x := avail[k];
    Unlink(forw, back, FREEHEAD, avail, k);
    assert x == Ith(FREEHEAD, avail, k + 1);
    assert back[x] == Ith(FREEHEAD, avail, k);
    assert x in avail;
    forall n: nat
      ensures n in Without(avail, k) <==> n in avail && n != x
    {
    }
  }

  lemma AvPutFirst(bufs: seq<Buf>, forw: seq<nat>, back: seq<nat>, avail: seq<nat>, x: nat, nb: Buf)
    requires AvLinked(bufs, forw, back, avail) && x < NBUF && bufs[x].busy && !nb.busy
    ensures forw[FREEHEAD] < NODES
    ensures AvLinked(bufs[x := nb], forw[x := forw[FREEHEAD]][FREEHEAD := x], back[forw[FREEHEAD] := x][x := FREEHEAD], [x] + avail)
  {
    LinkFirst(forw, back, FREEHEAD, avail, x);
  }

  lemma AvPutLast(bufs: seq<Buf>, forw: seq<nat>, back: seq<nat>, avail: seq<nat>, x: nat, nb: Buf)
    requires AvLinked(bufs, forw, back, avail) && x < NBUF && bufs[x].busy && !nb.busy
    ensures back[FREEHEAD] < NODES
    ensures AvLinked(bufs[x := nb], forw[back[FREEHEAD] := x][x := FREEHEAD], back[x := back[FREEHEAD]][FREEHEAD := x], avail + [x])
  {
    LinkLast(forw, back, FREEHEAD, avail, x);
  }

  /** binit's state before its i-th pass: the first i buffers are free and on both lists. */
  ghost predicate Enlisted(bufs: seq<Buf>, forw: seq<nat>, back: seq<nat>, freeq: seq<nat>, i: nat) {
    && |bufs| == NBUF && |forw| == NODES && Ring(forw, back, FREEHEAD, freeq)
    && forw[DEVHEAD] == DEVHEAD && back[DEVHEAD] == DEVHEAD
    && (forall k: nat :: k in freeq <==> k < i)
    && (forall k: nat :: k < NBUF ==> Unused(bufs[k]) && (bufs[k].busy <==> k >= i))
  }

  ghost predicate Unused(b: Buf) {
    !b.onDev && !b.done && !b.async && !b.delwri && !b.age
  }

  lemma Enlist(bufs: seq<Buf>, forw: seq<nat>, back: seq<nat>, freeq: seq<nat>, i: nat)
    requires Enlisted(bufs, forw, back, freeq, i) && i < NBUF
    ensures |bufs| == NBUF && |forw| == |back| == NODES && forw[FREEHEAD] < NODES && bufs[i].busy
    ensures Enlisted(bufs[i := bufs[i].(busy := false, async := false, age := false)],
                     forw[i := forw[FREEHEAD]][FREEHEAD := i], back[forw[FREEHEAD] := i][i := FREEHEAD], [i] + freeq, i + 1)
  {
    LinkFirst(forw, back, FREEHEAD, freeq, i);
    assert forw[FREEHEAD] == Ith(FREEHEAD, freeq, 1) != DEVHEAD by {
      assert FREEHEAD == Ith(FREEHEAD, freeq, 0);
      assert freeq != [] ==> freeq[0] in freeq;
    }
  }

  lemma NoneEnlisted(bufs: seq<Buf>, avForw: seq<nat>, avBack: seq<nat>, forw: seq<nat>, back: seq<nat>)
    requires |bufs| == NBUF && |avForw| == |avBack| == |forw| == |back| == NODES
    requires forall k :: 0 <= k < NBUF ==> Unused(bufs[k]) && bufs[k].busy
    requires forall k :: 0 <= k < NODES ==> avForw[k] == avBack[k] == FREEHEAD && forw[k] == back[k] == k
    ensures AvLinked(bufs, avForw, avBack, []) && Enlisted(bufs, forw, back, [], 0)
  {
  }

  lemma AllEnlisted(image: seq<Block>, bufs: seq<Buf>, forw: seq<nat>, back: seq<nat>, freeq: seq<nat>)
    requires Enlisted(bufs, forw, back, freeq, NBUF)
    ensures DevLinked(bufs, forw, back, [], freeq) && Coherent(image, image, bufs) && Quiet(bufs) && Grip(bufs) == map[]
  {
  }

  lemma OnlyBuffer(disk: seq<Block>, view: seq<Block>, bufs: seq<Buf>, k: nat)
    requires Coherent(disk, view, bufs) && k < |bufs| && bufs[k].onDev
    ensures Buffered(bufs, bufs[k].blkno) <==> bufs[k].done
  {
  }

  lemma DelwriFacts(disk: seq<Block>, view: seq<Block>, bufs: seq<Buf>, k: nat)
    requires Coherent(disk, view, bufs) && k < |bufs| && !bufs[k].busy
    ensures bufs[k].delwri ==> bufs[k].onDev && bufs[k].done && bufs[k].data == view[bufs[k].blkno]
  {
  }

  lemma CoherentStore(disk: seq<Block>, view: seq<Block>, bufs: seq<Buf>, k: nat, nb: Buf)
    requires Coherent(disk, view, bufs) && k < |bufs| && bufs[k].busy && nb == bufs[k].(data := nb.data)
    ensures Coherent(disk, view, bufs[k := nb])
  {
    forall b | 0 <= b < |disk| && disk[b] != view[b]
      ensures Dirty(bufs[k := nb], b)
    {
      DirtyStays(bufs, k, nb, b);
    }
  }

  lemma AllClean(disk: seq<Block>, view: seq<Block>, bufs: seq<Buf>)
    requires Coherent(disk, view, bufs)
    requires forall k :: 0 <= k < |bufs| && bufs[k].delwri ==> bufs[k].busy
    ensures forall b :: 0 <= b < |view| && !Holding(Grip(bufs), b) ==> disk[b] == view[b]
  {
    forall b | 0 <= b < |view| && disk[b] != view[b]
      ensures Holding(Grip(bufs), b)
    {
      var k :| 0 <= k < |bufs| && bufs[k].onDev && bufs[k].delwri && bufs[k].blkno == b;
      assert k in Grip(bufs);
    }
  }

  class Cache {
    var disk: seq<Block>
    var bufs: seq<Buf>
    var avForw: seq<nat>
    var avBack: seq<nat>
    var bForw: seq<nat>
    var bBack: seq<nat>
    ghost var avail: seq<nat>
    ghost var devq: seq<nat>
    ghost var freeq: seq<nat>
    /** The logical contents of the disk: what the last write of each block said. */
    ghost var view: seq<Block>

    ghost predicate Valid()
      reads this
    {
      && AvLinked(bufs, avForw, avBack, avail)
      && DevLinked(bufs, bForw, bBack, devq, freeq)
      && |bufs| == NBUF && |disk| == |view|
      && Sized(disk, view, bufs) && Coherent(disk, view, bufs) && Quiet(bufs)
    }

    /** binit: every buffer unassociated and available. */
    constructor (image: seq<Block>)
      ensures Valid() && view == image && disk == image && Grip(bufs) == map[] && avail == Count(NBUF)
    {
      disk, view := image, image;
      bufs := seq(NBUF, k => Buf(false, 0, false, false, true, false, false, false, Zero()));
      avForw, avBack := seq(NODES, k => FREEHEAD), seq(NODES, k => FREEHEAD);
      bForw, bBack := seq(NODES, k => k), seq(NODES, k => k);
      avail, devq, freeq := [], [], [];
      new;
      hide Ring, AvLinked, Enlisted, Back;
      NoneEnlisted(bufs, avForw, avBack, bForw, bBack);
      for i := 0 to NBUF
        invariant disk == view == image && devq == []
        invariant AvLinked(bufs, avForw, avBack, avail) && avail == Count(i)
        invariant Enlisted(bufs, bForw, bBack, freeq, i)
      {
        Adopt(i);
      }
      AllEnlisted(image, bufs, bForw, bBack, freeq);
    }

    /** binit's treatment of one buffer: onto the list of unassociated ones, and released. */
    method Adopt(i: nat)
      requires i < NBUF && AvLinked(bufs, avForw, avBack, avail) && Enlisted(bufs, bForw, bBack, freeq, i)
      modifies this`avForw, this`avBack, this`avail, this`bufs, this`bForw, this`bBack, this`freeq
      ensures AvLinked(bufs, avForw, avBack, avail) && Enlisted(bufs, bForw, bBack, freeq, i + 1) && avail == old(avail) + [i]
    {
      hide Ring, AvLinked;
      Enlist(bufs, bForw, bBack, freeq, i);
      bBack := bBack[bForw[FREEHEAD] := i][i := FREEHEAD];
      bForw := bForw[i := bForw[FREEHEAD]][FREEHEAD := i];
      freeq := [i] + freeq;
      PutBack(i);
    }

    /** Unlink a buffer from the available list and mark it busy. */
    method NotAvail(bp: nat)
      requires Valid() && bp < NBUF && !bufs[bp].busy
      modifies this`avForw, this`avBack, this`avail, this`bufs
      ensures Valid() && bufs == old(bufs)[bp := old(bufs)[bp].(busy := true)]
      ensures Grip(bufs) == old(Grip(bufs))[bp := bufs[bp]]
      ensures bufs[bp].onDev && bufs[bp].done ==> bufs[bp].data == view[bufs[bp].blkno]
      ensures bp in old(avail) && avail == Minus(old(avail), bp)
    {
      hide DevLinked, Ring, Dirty;
      ghost var nb := bufs[bp].(busy := true);
      CoherentHandover(disk, view, bufs, bp, nb);
      DevSame(bufs, bForw, bBack, devq, freeq, bp, nb);
      GripOf(bufs, bp, nb);
      ghost var k := IndexOf(avail, bp);
      AvTake(bufs, avForw, avBack, avail, k);
      avForw := avForw[avBack[bp] := avForw[bp]];
      avBack := avBack[avForw[bp] := avBack[bp]];
      avail := Without(avail, k);
      bufs := bufs[bp := bufs[bp].(busy := true)];
    }

    /** The list surgery of brelse: to the head of the available list if aged, else to its tail. */
    method PutBack(bp: nat)
      requires AvLinked(bufs, avForw, avBack, avail) && bp < NBUF && bufs[bp].busy
      modifies this`avForw, this`avBack, this`avail, this`bufs
      ensures AvLinked(bufs, avForw, avBack, avail)
      ensures bufs == old(bufs)[bp := old(bufs)[bp].(busy := false, async := false, age := false)]
      ensures avail == Back(old(avail), old(bufs)[bp], bp)
    {
      ghost var nb := bufs[bp].(busy := false, async := false, age := false);
      if bufs[bp].age {
        AvPutFirst(bufs, avForw, avBack, avail, bp, nb);
        avBack := avBack[avForw[FREEHEAD] := bp][bp := FREEHEAD];
        avForw := avForw[bp := avForw[FREEHEAD]][FREEHEAD := bp];
        avail := [bp] + avail;
      } else {
        AvPutLast(bufs, avForw, avBack, avail, bp, nb);
        avForw := avForw[avBack[FREEHEAD] := bp][bp := FREEHEAD];
        avBack := avBack[bp := avBack[FREEHEAD]][FREEHEAD := bp];
        avail := avail + [bp];
      }
      bufs := bufs[bp := bufs[bp].(busy := false, async := false, age := false)];
    }

    /** Release a buffer, with no I/O implied.  Its holder must not have left unwritten changes in it. */
    method Brelse(bp: nat)
      requires Valid() && bp in Grip(bufs)
      requires bufs[bp].onDev && bufs[bp].done ==> bufs[bp].data == view[bufs[bp].blkno]
      modifies this`avForw, this`avBack, this`avail, this`bufs
      ensures Valid()
      ensures bufs == old(bufs)[bp := old(bufs)[bp].(busy := false, async := false, age := false)]
      ensures Grip(bufs) == old(Grip(bufs)) - {bp} && avail == Back(old(avail), old(bufs)[bp], bp)
    {
      hide Coherent, DevLinked;
      ghost var nb := bufs[bp].(busy := false, async := false, age := false);
      GripOf(bufs, bp, nb);
      CoherentHandover(disk, view, bufs, bp, nb);
      DevSame(bufs, bForw, bBack, devq, freeq, bp, nb);
      PutBack(bp);
    }

    /** brelse of a buffer that may have been changed and not written: the cache stays valid exactly if it was not. */
    method BrelseUnwritten(bp: nat)
      requires Valid() && bp in Grip(bufs)
      modifies this`avForw, this`avBack, this`avail, this`bufs
      ensures Valid() <==> old(bufs[bp].onDev && bufs[bp].done ==> bufs[bp].data == view[bufs[bp].blkno])
      ensures bufs == old(bufs)[bp := old(bufs)[bp].(busy := false, async := false, age := false)]
      ensures Grip(bufs) == old(Grip(bufs)) - {bp} && avail == Back(old(avail), old(bufs)[bp], bp)
    {
      hide DevLinked, Ring, Dirty;
      ghost var nb := bufs[bp].(busy := false, async := false, age := false);
      GripOf(bufs, bp, nb);
      ReleasedUnwritten(disk, view, bufs, bp, nb);
      DevSame(bufs, bForw, bBack, devq, freeq, bp, nb);
      hide Coherent;
      PutBack(bp);
    }

    /** iodone: the transfer is complete; an asynchronous one also releases the buffer. */
    method Iodone(bp: nat)
      requires AvLinked(bufs, avForw, avBack, avail) && bp < NBUF && bufs[bp].busy
      modifies this`avForw, this`avBack, this`avail, this`bufs
      ensures AvLinked(bufs, avForw, avBack, avail)
      ensures bufs == old(bufs)[bp := Completed(old(bufs)[bp])]
      ensures avail == if old(bufs)[bp].async then Back(old(avail), old(bufs)[bp], bp) else old(avail)
    {
      bufs := bufs[bp := bufs[bp].(done := true)];
      if bufs[bp].async {
        PutBack(bp);
      }
    }

    /** The root device's strategy routine: the transfer happens at once and cannot fail. */
    method Strategy(bp: nat)
      requires AvLinked(bufs, avForw, avBack, avail) && bp < NBUF && bufs[bp].busy
      requires 0 <= bufs[bp].blkno < |disk|
      modifies this`disk, this`avForw, this`avBack, this`avail, this`bufs
      ensures AvLinked(bufs, avForw, avBack, avail)
      ensures var b := old(bufs)[bp];
        if b.read
        then disk == old(disk) && bufs == old(bufs)[bp := Completed(b.(data := old(disk)[b.blkno]))]
        else disk == old(disk)[b.blkno := b.data] && bufs == old(bufs)[bp := Completed(b)]
      ensures avail == if old(bufs)[bp].async then Back(old(avail), old(bufs)[bp], bp) else old(avail)
    {
      if bufs[bp].read {
        bufs := bufs[bp := bufs[bp].(data := disk[bufs[bp].blkno])];
      } else {
        disk := disk[bufs[bp].blkno := bufs[bp].data];
      }
      Iodone(bp);
    }

    /** What bwrite does with the buffer itself: it goes to disk, and to the end of the available list. */
    method Transfer(bp: nat)
      requires AvLinked(bufs, avForw, avBack, avail) && bp < NBUF && bufs[bp].busy && 0 <= bufs[bp].blkno < |disk|
      modifies this`disk, this`avForw, this`avBack, this`avail, this`bufs
      ensures AvLinked(bufs, avForw, avBack, avail) && avail == old(avail) + [bp]
      ensures disk == old(disk[bufs[bp].blkno := bufs[bp].data])
      ensures var b := old(bufs)[bp];
        bufs == old(bufs)[bp := b.(read := false, done := true, busy := false, async := false, delwri := false, age := b.async && b.delwri)]
    {
      var flag := bufs[bp];
      hide AvLinked;
      AvSame(bufs, avForw, avBack, avail, bp, flag.(read := false, done := false, delwri := false, age := false));
      bufs := bufs[bp := flag.(read := false, done := false, delwri := false, age := false)];
      Strategy(bp);
      if !flag.async {
        PutBack(bp);
      } else if flag.delwri {
        AvSame(bufs, avForw, avBack, avail, bp, bufs[bp].(age := true));
        bufs := bufs[bp := bufs[bp].(age := true)];
      }
    }

    /** bwrite proper; with the async mark set, iodone has released the buffer already. */
    method WriteOut(bp: nat)
      requires AvLinked(bufs, avForw, avBack, avail) && DevLinked(bufs, bForw, bBack, devq, freeq)
      requires Sized(disk, view, bufs) && Coherent(disk, view, bufs) && bp in Grip(bufs) && bufs[bp].onDev
      requires forall k :: 0 <= k < NBUF && k != bp ==> !bufs[k].async
      modifies this`disk, this`view, this`avForw, this`avBack, this`avail, this`bufs
      ensures Valid() && view == old(view[bufs[bp].blkno := bufs[bp].data])
      ensures Grip(bufs) == old(Grip(bufs)) - {bp}
      ensures disk == old(disk[bufs[bp].blkno := bufs[bp].data])
      ensures DirtySet(bufs) == old(DirtySet(bufs)) - {bp}
      ensures forall k :: 0 <= k < NBUF && k != bp ==> bufs[k] == old(bufs)[k]
      ensures bufs[bp].onDev && bufs[bp].blkno == old(bufs)[bp].blkno && avail == old(avail) + [bp]
      ensures bufs[bp].age <==> old(bufs)[bp].async && old(bufs)[bp].delwri
    {
      hide AvLinked, DevLinked, Coherent, Ring;
      Transfer(bp);
      ghost var nb := bufs[bp];
      view := view[nb.blkno := nb.data];
      GripOf(old(bufs), bp, nb);
      CoherentWritten(old(disk), old(view), old(bufs), bp, nb);
      DevSame(old(bufs), bForw, bBack, devq, freeq, bp, nb);
    }

    /** Write a held buffer, wait, and release it. */
    method Bwrite(bp: nat)
      requires Valid() && bp in Grip(bufs) && bufs[bp].onDev
      modifies this`disk, this`view, this`avForw, this`avBack, this`avail, this`bufs
      ensures Valid() && view == old(view[bufs[bp].blkno := bufs[bp].data])
      ensures Grip(bufs) == old(Grip(bufs)) - {bp}
      ensures disk == old(disk[bufs[bp].blkno := bufs[bp].data]) && avail == old(avail) + [bp]
    {
      hide AvLinked, DevLinked, Coherent, Ring;
      WriteOut(bp);
    }

    /** Release a buffer, marking it to be written before it is given up. */
    method Bdwrite(bp: nat)
      requires Valid() && bp in Grip(bufs) && bufs[bp].onDev
      modifies this`view, this`avForw, this`avBack, this`avail, this`bufs
      ensures Valid() && view == old(view[bufs[bp].blkno := bufs[bp].data])
      ensures Grip(bufs) == old(Grip(bufs)) - {bp}
      ensures avail == Back(old(avail), old(bufs)[bp], bp)
    {
      hide AvLinked, DevLinked, Coherent, Ring;
      bufs := bufs[bp := bufs[bp].(delwri := true, done := true)];
      ghost var nb := bufs[bp];
      CoherentDelayed(disk, view, old(bufs), bp, nb);
      GripOf(old(bufs), bp, nb);
      DevSame(old(bufs), bForw, bBack, devq, freeq, bp, nb);
      AvSame(old(bufs), avForw, avBack, avail, bp, nb);
      view := view[nb.blkno := nb.data];
      Brelse(bp);
    }

    /** Release the buffer and start I/O on it. */
    method Bawrite(bp: nat)
      requires Valid() && bp in Grip(bufs) && bufs[bp].onDev
      modifies this`disk, this`view, this`avForw, this`avBack, this`avail, this`bufs
      ensures Valid() && view == old(view[bufs[bp].blkno := bufs[bp].data])
      ensures disk == old(disk[bufs[bp].blkno := bufs[bp].data])
      ensures Grip(bufs) == old(Grip(bufs)) - {bp}
      ensures DirtySet(bufs) == old(DirtySet(bufs)) - {bp}
      ensures forall k :: 0 <= k < NBUF && k != bp ==> bufs[k] == old(bufs)[k]
      ensures bufs[bp].onDev && bufs[bp].blkno == old(bufs)[bp].blkno
      ensures avail == old(avail) + [bp] && (bufs[bp].age <==> old(bufs)[bp].delwri)
    {
      hide AvLinked, DevLinked, Coherent, Ring;
      ghost var nb := bufs[bp].(async := true);
      CoherentHandover(disk, view, bufs, bp, nb);
      GripOf(bufs, bp, nb);
      DevSame(bufs, bForw, bBack, devq, freeq, bp, nb);
      AvSame(bufs, avForw, avBack, avail, bp, nb);
      bufs := bufs[bp := bufs[bp].(async := true)];
      WriteOut(bp);
    }

    /** The walk down the device's list that getblk and incore share: a buffer for block b, or the head. */
    method Search(b: int) returns (bp: nat)
      requires Valid()
      ensures bp == DEVHEAD || (bp < NBUF && bufs[bp].onDev && bufs[bp].blkno == b)
      ensures bp == DEVHEAD ==> forall k :: 0 <= k < NBUF && bufs[k].onDev ==> bufs[k].blkno != b
    {
      hide AvLinked, Coherent;
      assert DEVHEAD == Ith(DEVHEAD, devq, 0) && |bForw| == NODES;
      forall j | 0 <= j < |devq|
        ensures devq[j] < NBUF && bufs[devq[j]].onDev
      {
        assert devq[j] in devq;
      }
      bp := bForw[DEVHEAD];
      ghost var i := 0;
      while bp != DEVHEAD && bufs[bp].blkno != b
        invariant 0 <= i <= |devq| && bp == Ith(DEVHEAD, devq, i + 1)
        invariant bp == DEVHEAD || (bp < NBUF && bufs[bp].onDev)
        invariant forall j :: 0 <= j < i ==> bufs[devq[j]].blkno != b
        decreases |devq| - i
      {
        bp := bForw[bp];
        i := i + 1;
      }
      assert i < |devq| ==> bp == devq[i];
    }

    method Incore(b: int) returns (r: bool)
      requires Valid()
      ensures r <==> exists k :: 0 <= k < NBUF && bufs[k].onDev && bufs[k].blkno == b
    {
      var bp := Search(b);
      r := bp != DEVHEAD;
    }

    /** Take the oldest available buffer, or write it out if it is a delayed write. */
    method TakeOldest() returns (bp: nat, clean: bool)
      requires Valid() && |Grip(bufs)| < NBUF
      modifies this`disk, this`view, this`avForw, this`avBack, this`avail, this`bufs
      ensures Valid() && view == old(view)
      ensures bp < NBUF && bp !in old(Grip(bufs))
      ensures clean ==> !bufs[bp].delwri && bufs == old(bufs)[bp := old(bufs)[bp].(busy := true)]
                        && Grip(bufs) == old(Grip(bufs))[bp := bufs[bp]]
      ensures !clean ==> Grip(bufs) == old(Grip(bufs)) && DirtySet(bufs) < old(DirtySet(bufs))
      ensures forall k :: 0 <= k < NBUF ==> bufs[k].onDev == old(bufs)[k].onDev && bufs[k].blkno == old(bufs)[k].blkno
      ensures old(avail) != [] && bp == old(avail)[0] && avail == (if clean then old(avail)[1..] else old(avail)[1..] + [bp])
      ensures clean <==> bp !in old(DirtySet(bufs))
      ensures forall k :: 0 <= k < NBUF && k != bp ==> bufs[k] == old(bufs)[k]
      ensures !clean ==> bp !in DirtySet(bufs)
    {
      hide AvLinked, DevLinked, Coherent, Ring, Minus;
      SomeAvailable(bufs, avForw, avBack, avail);
      MinusFirst(bufs, avForw, avBack, avail);
      bp := avForw[FREEHEAD];
      ghost var before := Grip(bufs);
      assert bp !in before;
      DelwriFacts(disk, view, bufs, bp);
      NotAvail(bp);
      clean := !bufs[bp].delwri;
      if !clean {
        assert bp in DirtySet(bufs);
        assert bp in old(DirtySet(bufs));
        Bawrite(bp);
        assert Grip(bufs) == before;
      }
    }

    /** A turn of getblk's loop for a block without a buffer: the oldest available buffer is taken for it, or written out. */
    method Recycle(b: int, ghost was: seq<Buf>, ghost q: seq<nat>, ghost d: nat) returns (bp: nat, clean: bool)
      requires Valid() && 0 <= b < |view| && |Grip(bufs)| < NBUF && Passed(was, q, bufs, avail, d)
      requires !Resident(was, b) && !Buffered(bufs, b) && forall k :: 0 <= k < NBUF && bufs[k].onDev ==> bufs[k].blkno != b
      modifies this
      ensures Valid() && view == old(view) && bp < NBUF && bp !in old(Grip(bufs))
      ensures clean ==> Grip(bufs) == old(Grip(bufs))[bp := bufs[bp]] && bufs[bp].onDev && bufs[bp].blkno == b && !bufs[bp].done && Chosen(was, q, bufs, avail, bp, b)
      ensures !clean ==> Grip(bufs) == old(Grip(bufs)) && DirtySet(bufs) < old(DirtySet(bufs)) && Passed(was, q, bufs, avail, d + 1) && !Buffered(bufs, b)
    {
      hide AvLinked, DevLinked, Coherent, Ring, Minus, Chosen, Passed, Recycled, Resident, Buffered;
      ghost var bufs', avail' := bufs, avail;
      bp, clean := TakeOldest();
      Passing(was, q, bufs', avail', d, bufs, avail, bp, clean);
      if clean {
        Assign(bp, true, b);
        ChosenMiss(was, q, bufs', avail', bufs, avail, d, bp, b);
      } else {
        BufferedSame(bufs', bufs, bp, b);
      }
    }

    /**
     A buffer for block b: the one that stands for it, else the oldest available one, after the
     delayed writes in front of it have gone out.  The loop ends because every pass writes one.
     */
    method GetBlk(b: int) returns (bp: nat)
      requires Valid() && 0 <= b < |view| && CanGet(Grip(bufs), b)
      modifies this
      ensures Valid() && view == old(view)
      ensures bp < NBUF && bp !in old(Grip(bufs)) && bufs[bp].onDev && bufs[bp].blkno == b
      ensures Grip(bufs) == old(Grip(bufs))[bp := bufs[bp]]
      ensures bufs[bp].done ==> bufs[bp].data == view[b]
      ensures bufs[bp].done <==> old(Buffered(bufs, b))
      ensures Chosen(old(bufs), old(avail), bufs, avail, bp, b)
    {
      hide AvLinked, DevLinked, Coherent, Ring, Minus, Chosen, Passed, Recycled, Resident, Buffered;
      ghost var d: nat := 0;
      NonePassed(bufs, avForw, avBack, avail);
      while true
        invariant Valid() && view == old(view) && Grip(bufs) == old(Grip(bufs)) && Buffered(bufs, b) == old(Buffered(bufs, b))
        invariant Passed(old(bufs), old(avail), bufs, avail, d) && (d > 0 ==> !Resident(old(bufs), b))
        decreases DirtySet(bufs)
      {
        bp := Search(b);
        Found(old(bufs), old(avail), bufs, avail, d, b, bp);
        if bp != DEVHEAD {
          ghost var bufs' := bufs;
          assert !bufs[bp].busy by { assert bufs[bp].busy ==> bp in Grip(bufs); }
          OnlyBuffer(disk, view, bufs, bp);
          NotAvail(bp);
          ChosenHit(old(bufs), old(avail), bufs', bufs, avail, bp, b);
          return;
        }
        var clean;
        bp, clean := Recycle(b, old(bufs), old(avail), d);
        if clean {
          return;
        }
        d := d + 1;
      }
    }

    /** The end of getblk and geteblk: drop the buffer's old block and file it under the new one, or none. */
    method Assign(bp: nat, toDev: bool, b: int)
      requires Valid() && bp in Grip(bufs) && !bufs[bp].delwri
      requires toDev ==> 0 <= b < |view| && forall j :: 0 <= j < NBUF && bufs[j].onDev ==> bufs[j].blkno != b
      modifies this`bForw, this`bBack, this`bufs, this`devq, this`freeq
      ensures Valid() && Grip(bufs) == old(Grip(bufs))[bp := bufs[bp]]
      ensures bufs[bp].onDev == toDev && !bufs[bp].done && (toDev ==> bufs[bp].blkno == b)
      ensures bufs == old(bufs)[bp := bufs[bp]]
    {
      hide AvLinked, DevLinked, Coherent, Ring, Minus;
      var nb := Buf(toDev, if toDev then b else bufs[bp].blkno, false, false, true, false, false, false, bufs[bp].data);
      var dp := if toDev then DEVHEAD else FREEHEAD;
      CoherentReassigned(disk, view, bufs, bp, nb);
      GripOf(bufs, bp, nb);
      AvSame(bufs, avForw, avBack, avail, bp, nb);
      bufs := bufs[bp := nb];
      Rehang(old(bufs), bp, toDev, dp);
    }

    /** Take the buffer off its list and put it first on the other. */
    method Rehang(ghost was: seq<Buf>, bp: nat, toDev: bool, dp: nat)
      requires DevLinked(was, bForw, bBack, devq, freeq) && bp < NBUF == |bufs| == |was| && bufs == was[bp := bufs[bp]]
      requires bufs[bp].onDev == toDev && dp == if toDev then DEVHEAD else FREEHEAD
      modifies this`bForw, this`bBack, this`devq, this`freeq
      ensures DevLinked(bufs, bForw, bBack, devq, freeq)
    {
      hide DevLinked, Minus, Ring;
      Moved(was, bForw, bBack, devq, freeq, bp, toDev, bufs[bp]);
      bForw := bForw[bBack[bp] := bForw[bp]];
      bBack := bBack[bForw[bp] := bBack[bp]];
      bBack := bBack[bForw[dp] := bp][bp := dp];
      bForw := bForw[bp := bForw[dp]][dp := bp];
      devq, freeq := if toDev then [bp] + Minus(devq, bp) else Minus(devq, bp),
                     if toDev then Minus(freeq, bp) else [bp] + Minus(freeq, bp);
    }

    /** An empty buffer, assigned to no block. */
    method GetEblk() returns (bp: nat)
      requires Valid() && |Grip(bufs)| < NBUF
      modifies this
      ensures Valid() && view == old(view)
      ensures bp < NBUF && bp !in old(Grip(bufs)) && !bufs[bp].onDev
      ensures Grip(bufs) == old(Grip(bufs))[bp := bufs[bp]]
      ensures Recycled(old(bufs), old(avail), avail, bp)
    {
      hide AvLinked, DevLinked, Coherent, Ring, Passed, Recycled;
      ghost var d: nat := 0;
      NonePassed(bufs, avForw, avBack, avail);
      while true
        invariant Valid() && view == old(view) && Grip(bufs) == old(Grip(bufs)) && Passed(old(bufs), old(avail), bufs, avail, d)
        decreases DirtySet(bufs)
      {
        var clean;
        ghost var bufs', avail' := bufs, avail;
        bp, clean := TakeOldest();
        Passing(old(bufs), old(avail), bufs', avail', d, bufs, avail, bp, clean);
        if clean {
          Assign(bp, false, 0);
          return;
        }
        d := d + 1;
      }
    }

    /** The block's contents in a held buffer. */
    method Bread(b: int) returns (bp: nat)
      requires Valid() && 0 <= b < |view| && CanGet(Grip(bufs), b)
      modifies this
      ensures Valid() && view == old(view)
      ensures bp < NBUF && bp !in old(Grip(bufs)) && bufs[bp].onDev && bufs[bp].blkno == b
      ensures Grip(bufs) == old(Grip(bufs))[bp := bufs[bp]]
      ensures bufs[bp].done && bufs[bp].data == view[b]
      ensures Chosen(old(bufs), old(avail), bufs, avail, bp, b)
    {
      hide AvLinked, DevLinked, Coherent, Ring, Chosen;
      bp := GetBlk(b);
      if bufs[bp].done {
        return;
      }
      ghost var was := bufs;
      assert bp in Grip(bufs);
      AvSame(bufs, avForw, avBack, avail, bp, bufs[bp].(read := true));
      bufs := bufs[bp := bufs[bp].(read := true)];
      Strategy(bp);
      Filled(was, bp);
      ChosenFilled(old(bufs), old(avail), was, avail, bp, b, bufs[bp]);
    }

    /** bread's transfer leaves the cache valid and the block's logical contents in the buffer. */
    lemma Filled(was: seq<Buf>, bp: nat)
      requires Sized(disk, view, was) && Coherent(disk, view, was) && Quiet(was) && DevLinked(was, bForw, bBack, devq, freeq)
      requires bp < NBUF && was[bp].busy && was[bp].onDev && !was[bp].done
      requires AvLinked(bufs, avForw, avBack, avail)
      requires var nb := bufs[bp];
        bufs == was[bp := nb] && nb.onDev && nb.blkno == was[bp].blkno && nb.data == disk[nb.blkno]
        && !nb.async && !nb.delwri && nb.done
      ensures Valid() && bufs[bp].data == view[bufs[bp].blkno]
      ensures Grip(bufs) == if bufs[bp].busy then Grip(was)[bp := bufs[bp]] else Grip(was) - {bp}
    {
      hide AvLinked, DevLinked, Coherent, Ring;
      CoherentFilled(disk, view, was, bp, bufs[bp]);
      DevSame(was, bForw, bBack, devq, freeq, bp, bufs[bp]);
      GripOf(was, bp, bufs[bp]);
    }

    /** Change the contents of a held buffer. */
    method Store(bp: nat, data: Block)
      requires Valid() && bp in Grip(bufs)
      modifies this`bufs
      ensures Valid() && bufs == old(bufs)[bp := old(bufs)[bp].(data := data)]
      ensures Grip(bufs) == old(Grip(bufs))[bp := bufs[bp]]
    {
      hide AvLinked, DevLinked, Coherent, Ring;
      ghost var nb := bufs[bp].(data := data);
      CoherentStore(disk, view, bufs, bp, nb);
      DevSame(bufs, bForw, bBack, devq, freeq, bp, nb);
      AvSame(bufs, avForw, avBack, avail, bp, nb);
      GripOf(bufs, bp, nb);
      bufs := bufs[bp := bufs[bp].(data := data)];
    }

    /** Read block b, and start a read of block ra, which is not allocated to the caller. */
    method Breada(b: int, ra: int) returns (bp: nat)
      requires Valid() && 0 <= b < |view| && 0 <= ra < |view|
      requires CanGet(Grip(bufs), b) && |Grip(bufs)| + 1 < NBUF
      modifies this
      ensures Valid() && view == old(view)
      ensures bp < NBUF && bp !in old(Grip(bufs)) && bufs[bp].onDev && bufs[bp].blkno == b
      ensures Grip(bufs) == old(Grip(bufs))[bp := bufs[bp]]
      ensures bufs[bp].done && bufs[bp].data == view[b]
      ensures ra != 0 ==> Resident(bufs, ra) || GivenUp(old(bufs), old(avail), b)
    {
      hide AvLinked, DevLinked, Coherent, Ring, Chosen, Resident, GivenUp, Passed;
      ghost var k: nat := 0;
      var there := Incore(b);
      ResidentIs(bufs, b);
      if !there {
        bp := Bread(b);
      } else {
        bp := 0;
      }
      if ra != 0 {
        var raThere := Incore(ra);
        ResidentIs(bufs, ra);
        if !raThere {
          k := ReadAhead(ra);
        }
      }
      ghost var after, q := bufs, avail;
      ResidentIs(bufs, ra);
      if there {
        bp := Bread(b);
        AheadStays(old(bufs), old(avail), after, q, bufs, avail, k, bp, b, ra);
      } else {
        assert bp in Grip(bufs);
      }
    }

    /** The read-ahead half of breada: the buffer is released as soon as the read completes. */
    method ReadAhead(ra: int) returns (ghost k: nat)
      requires Valid() && 0 <= ra < |view| && |Grip(bufs)| < NBUF
      requires forall k :: 0 <= k < NBUF && bufs[k].onDev ==> bufs[k].blkno != ra
      modifies this
      ensures Valid() && view == old(view) && Grip(bufs) == old(Grip(bufs))
      ensures k < NBUF && bufs[k].onDev && bufs[k].blkno == ra && Ahead(old(bufs), old(avail), bufs, k)
    {
      hide AvLinked, DevLinked, Coherent, Ring, Buffered, Chosen, Resident, Ahead;
      var rabp := GetBlk(ra);
      k := rabp;
      ghost var was := bufs;
      assert rabp in Grip(bufs);
      ResidentIs(old(bufs), ra);
      AheadChosen(old(bufs), old(avail), was, avail, k, ra);
      if bufs[rabp].done {
        Brelse(rabp);
      } else {
        AvSame(bufs, avForw, avBack, avail, rabp, bufs[rabp].(read := true, async := true));
        bufs := bufs[rabp := bufs[rabp].(read := true, async := true)];
        Strategy(rabp);
        Filled(was, rabp);
      }
      AheadSame(old(bufs), old(avail), was, bufs, k);
      assert Grip(bufs) == old(Grip(bufs));
    }

    /** The first delayed write on the available list, or its head if there is none. */
    method FindDelayed() returns (bp: nat)
      requires Valid()
      ensures bp == FREEHEAD || (bp < NBUF && !bufs[bp].busy && bufs[bp].delwri)
      ensures bp == FREEHEAD ==> forall k :: 0 <= k < NBUF && bufs[k].delwri ==> bufs[k].busy
    {
      hide DevLinked, Coherent;
      assert FREEHEAD == Ith(FREEHEAD, avail, 0) && |avForw| == NODES;
      forall j | 0 <= j < |avail|
        ensures avail[j] < NBUF && !bufs[avail[j]].busy
      {
        assert avail[j] in avail;
      }
      bp := avForw[FREEHEAD];
      ghost var i := 0;
      while bp != FREEHEAD && !bufs[bp].delwri
        invariant 0 <= i <= |avail| && bp == Ith(FREEHEAD, avail, i + 1)
        invariant bp == FREEHEAD || (bp < NBUF && !bufs[bp].busy)
        invariant forall j :: 0 <= j < i ==> !bufs[avail[j]].delwri
        decreases |avail| - i
      {
        bp := avForw[bp];
        i := i + 1;
      }
      assert i < |avail| ==> bp == avail[i];
    }

    /** Write out every delayed write; afterwards the disk holds the logical contents of every block nobody holds. */
    method Bflush()
      requires Valid()
      modifies this
      ensures Valid() && view == old(view) && Grip(bufs) == old(Grip(bufs))
      ensures forall b :: 0 <= b < |view| && !Holding(Grip(bufs), b) ==> disk[b] == view[b]
    {
      hide AvLinked, DevLinked, Coherent, Ring;
      while true
        invariant Valid() && view == old(view) && Grip(bufs) == old(Grip(bufs))
        decreases DirtySet(bufs)
      {
        var bp := FindDelayed();
        if bp == FREEHEAD {
          AllClean(disk, view, bufs);
          return;
        }
        ghost var before := Grip(bufs);
        assert bp in DirtySet(bufs);
        DelwriFacts(disk, view, bufs, bp);
        NotAvail(bp);
        assert bp in DirtySet(bufs);
        Bawrite(bp);
        assert Grip(bufs) == before;
      }
    }
  }
}
