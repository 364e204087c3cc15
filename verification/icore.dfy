/** The in-core inode table: what iget, iput and iupdat make of the i-list on disk. */
module InodeCore {
  import opened Blocks
  import opened BufferCache

  const NINODE := 200
  const NADDRS := 13
  const INOPB := 8
  /** The bytes of a disk inode that iupdat always writes, and the whole of it. */
  const PACKED := 51
  const DINODE := 64
  /** One more than the last block of the longest i-list mkfs accepts. */
  const MAXISIZE := 8194
  const NICINOD := 100

  /** The fields of an inode that are kept both on disk and in core. */
  datatype Core = Core(mode: nat, nlink: nat, uid: nat, gid: nat, size: nat, addr: seq<nat>)

  predicate Shaped(c: Core) {
    |c.addr| == NADDRS
  }

  /** What the disk's fields can hold: two bytes, four for the size, three for an address. */
  predicate InRange(c: Core) {
    && Shaped(c) && c.mode < 65536 && c.nlink < 65536 && c.uid < 65536 && c.gid < 65536 && c.size < 0x1_0000_0000
    && forall i :: 0 <= i < NADDRS ==> c.addr[i] < 0x100_0000
  }

  function Two(n: nat): (b: seq<Byte>)
    ensures |b| == 2
  {
    [n / 256 % 256, n % 256]
  }

  function Three(n: nat): (b: seq<Byte>)
    ensures |b| == 3
  {
    [n / 65536 % 256] + Two(n)
  }

  function Four(n: nat): (b: seq<Byte>)
    ensures |b| == 4
  {
    [n / 16777216 % 256] + Three(n)
  }

  function Number(b: seq<Byte>): (n: nat)
    ensures |b| == 0 ==> n == 0
    ensures |b| == 1 ==> n < 256
    ensures |b| == 2 ==> n < 65536
    ensures |b| == 3 ==> n < 0x100_0000
    ensures |b| == 4 ==> n < 0x1_0000_0000
  {
    if b == [] then 0 else Number(b[..|b| - 1]) * 256 + b[|b| - 1] as int
  }

  lemma TwoBack(n: nat)
    ensures Number(Two(n)) == n <==> n < 65536
  {
    var b := Two(n);
    assert b[..1] == [n / 256 % 256] && b[..1][..0] == [];
    assert Number(b[..1]) == n / 256 % 256;
  }

  lemma ThreeBack(n: nat)
    ensures Number(Three(n)) == n <==> n < 0x100_0000
  {
    var b := Three(n);
    assert b[..1] == [n / 65536 % 256] && b[..1][..0] == [] && b[..2][..1] == b[..1];
    assert Number(b[..1]) == n / 65536 % 256;
    assert Number(b[..2]) == n / 65536 % 256 * 256 + n / 256 % 256;
    assert n / 65536 == n / 256 / 256;
  }

  lemma FourBack(n: nat)
    ensures Number(Four(n)) == n <==> n < 0x1_0000_0000
  {
    var b := Four(n);
    assert b[..1] == [n / 16777216 % 256] && b[..1][..0] == [] && b[..2][..1] == b[..1] && b[..3][..2] == b[..2];
    assert Number(b[..1]) == n / 16777216 % 256;
    assert Number(b[..2]) == n / 16777216 % 256 * 256 + n / 65536 % 256;
    assert Number(b[..3]) == Number(b[..2]) * 256 + n / 256 % 256;
    assert n / 65536 == n / 256 / 256;
    assert n / 16777216 == n / 65536 / 256;
  }

  /** The first k addresses, three bytes each. */
  function AddrBytes(addr: seq<nat>, k: nat): (b: seq<Byte>)
    requires k <= |addr|
    ensures |b| == 3 * k
  {
    if k == 0 then [] else AddrBytes(addr, k - 1) + Three(addr[k - 1])
  }

  lemma {:induction false} AddrBytesAt(addr: seq<nat>, k: nat, i: nat)
    requires i < k <= |addr|
    ensures AddrBytes(addr, k)[3 * i..3 * i + 3] == Three(addr[i])
  {
    hide Three;
    if i < k - 1 {
      AddrBytesAt(addr, k - 1, i);
      assert AddrBytes(addr, k)[3 * i..3 * i + 3] == AddrBytes(addr, k - 1)[3 * i..3 * i + 3];
    }
  }

  /** iupdat's bytes. */
  function Packed(c: Core): (b: seq<Byte>)
    requires Shaped(c)
    ensures |b| == PACKED
  {
    Two(c.mode) + Two(c.nlink) + Two(c.uid) + Two(c.gid) + Four(c.size) + AddrBytes(c.addr, NADDRS)
  }

  /** iexpand. */
  function Expanded(b: seq<Byte>): (c: Core)
    requires |b| == PACKED
    ensures InRange(c)
  {
    Core(Number(b[0..2]), Number(b[2..4]), Number(b[4..6]), Number(b[6..8]), Number(b[8..12]),
         seq(NADDRS, i requires 0 <= i < NADDRS => Number(b[12 + 3 * i..15 + 3 * i])))
  }

  /** The bytes of a disk inode, most significant first. */
  lemma PackedLayout(c: Core, i: nat)
    requires Shaped(c) && i < NADDRS
    ensures var b := Packed(c);
      && b[0] == c.mode / 256 % 256 && b[1] == c.mode % 256 && b[2] == c.nlink / 256 % 256 && b[3] == c.nlink % 256
      && b[4] == c.uid / 256 % 256 && b[5] == c.uid % 256 && b[6] == c.gid / 256 % 256 && b[7] == c.gid % 256
      && b[8] == c.size / 16777216 % 256 && b[9] == c.size / 65536 % 256 && b[10] == c.size / 256 % 256 && b[11] == c.size % 256
      && b[12 + 3 * i] == c.addr[i] / 65536 % 256 && b[13 + 3 * i] == c.addr[i] / 256 % 256 && b[14 + 3 * i] == c.addr[i] % 256
  {
    hide AddrBytes;
    var b, a := Packed(c), AddrBytes(c.addr, NADDRS);
    AddrBytesAt(c.addr, NADDRS, i);
    var t := a[3 * i..3 * i + 3];
    assert b[12 + 3 * i] == t[0] && b[13 + 3 * i] == t[1] && b[14 + 3 * i] == t[2];
  }

  /** The fields of a disk inode from its bytes. */
  lemma ExpandedFields(b: seq<Byte>, i: nat)
    requires |b| == PACKED && i < NADDRS
    ensures var c := Expanded(b);
      && c.mode == Pair(b, 0) && c.nlink == Pair(b, 2) && c.uid == Pair(b, 4) && c.gid == Pair(b, 6)
      && c.size == Pair(b, 8) * 65536 + Pair(b, 10)
      && c.addr[i] == b[12 + 3 * i] as int * 65536 + Pair(b, 13 + 3 * i)
  {
    hide Number;
    TwoNumber(b[0..2]);
    TwoNumber(b[2..4]);
    TwoNumber(b[4..6]);
    TwoNumber(b[6..8]);
    MoreNumber(b[8..12]);
    MoreNumber(b[12 + 3 * i..15 + 3 * i]);
  }

  function Pair(b: seq<Byte>, o: nat): nat
    requires o + 2 <= |b|
  {
    b[o] as int * 256 + b[o + 1] as int
  }

  lemma TwoNumber(b: seq<Byte>)
    requires |b| == 2
    ensures Number(b) == Pair(b, 0)
  {
    assert b[..1][..0] == [] && b[..1][0] == b[0];
  }

  lemma MoreNumber(b: seq<Byte>)
    ensures |b| == 3 ==> Number(b) == b[0] as int * 65536 + Pair(b, 1)
    ensures |b| == 4 ==> Number(b) == Pair(b, 0) * 65536 + Pair(b, 2)
  {
    if |b| == 3 {
      TwoNumber(b[..2]);
    } else if |b| == 4 {
      TwoNumber(b[..2]);
      assert b[..3][..2] == b[..2];
    }
  }

  /** An inode written out is read back exactly if its fields are in range: iupdat cuts a longer block address to three bytes. */
  lemma InodeRoundTrip(c: Core)
    requires Shaped(c)
    ensures Expanded(Packed(c)) == c <==> InRange(c)
  {
    hide Two, Four, Three, AddrBytes, Number;
    var b := Packed(c);
    assert b[0..2] == Two(c.mode) && b[2..4] == Two(c.nlink) && b[4..6] == Two(c.uid) && b[6..8] == Two(c.gid) && b[8..12] == Four(c.size);
    TwoBack(c.mode);
    TwoBack(c.nlink);
    TwoBack(c.uid);
    TwoBack(c.gid);
    FourBack(c.size);
    var e := Expanded(b);
    forall i | 0 <= i < NADDRS
      ensures e.addr[i] == c.addr[i] <==> c.addr[i] < 0x100_0000
    {
      AddrBytesAt(c.addr, NADDRS, i);
      assert b[12 + 3 * i..15 + 3 * i] == AddrBytes(c.addr, NADDRS)[3 * i..3 * i + 3];
      ThreeBack(c.addr[i]);
    }
    if InRange(c) {
      assert e.addr == c.addr;
    }
  }

  /** itod and itoo: the block of an inode number and the place in it. */
  function Itod(ino: nat): nat {
    (ino + 15) / 8
  }

  function Itoo(ino: nat): (k: nat)
    ensures k < INOPB
  {
    (ino + 15) % 8
  }

  /** The i-list begins at block 2 with inode 1, eight inodes to a block. */
  lemma PlaceIn(ino: nat)
    requires ino >= 1
    ensures Itod(ino) == 2 + (ino - 1) / 8 && Itoo(ino) == (ino - 1) % 8
  {
  }

  lemma Places(a: nat, b: nat)
    requires Itod(a) == Itod(b) && Itoo(a) == Itoo(b)
    ensures a == b
  {
  }

  function DinodeAt(b: Block, k: nat): Core
    requires k < INOPB
  {
    Expanded(b[DINODE * k..DINODE * k + PACKED])
  }

  /** iupdat's change of a block: the packed fields, and whatever it makes of the three times. */
  function PutDinode(b: Block, k: nat, c: Core, times: seq<Byte>): (r: Block)
    requires k < INOPB && Shaped(c) && |times| == 12
  {
    b[..DINODE * k] + Packed(c) + b[DINODE * k + PACKED..DINODE * k + 52] + times + b[DINODE * k + DINODE..]
  }

  lemma PutDinodeAt(b: Block, k: nat, c: Core, times: seq<Byte>, j: nat)
    requires k < INOPB && j < INOPB && Shaped(c) && |times| == 12
    ensures DinodeAt(PutDinode(b, k, c, times), j) == if j == k then Expanded(Packed(c)) else DinodeAt(b, j)
  {
    hide Packed, Expanded;
    var r := PutDinode(b, k, c, times);
    if j == k {
      assert r[DINODE * j..DINODE * j + PACKED] == Packed(c);
    } else {
      assert DINODE * j + DINODE <= DINODE * k || DINODE * k + DINODE <= DINODE * j;
      forall i | DINODE * j <= i < DINODE * j + PACKED
        ensures r[i] == b[i]
      {
        PutElsewhere(b, k, c, times, i);
      }
      assert r[DINODE * j..DINODE * j + PACKED] == b[DINODE * j..DINODE * j + PACKED];
    }
  }

  lemma PutElsewhere(b: Block, k: nat, c: Core, times: seq<Byte>, i: nat)
    requires k < INOPB && i < 512 && Shaped(c) && |times| == 12 && (i < DINODE * k || DINODE * k + DINODE <= i)
    ensures PutDinode(b, k, c, times)[i] == b[i]
  {
    hide Packed;
    var o := DINODE * k;
    var head := b[..o] + Packed(c) + b[o + PACKED..o + 52] + times;
    assert PutDinode(b, k, c, times) == head + b[o + DINODE..] && |head| == o + DINODE;
  }

  /**
   A place of the table.  An unused one has count 0 and number 0, and i_dev 0, which is the root device like every
   other.  The three marks are IACC, IUPD and ICHG.
   */
  datatype Slot = Slot(number: nat, count: nat, acc: bool, upd: bool, chg: bool, core: Core)

  predicate Marked(s: Slot) {
    s.acc || s.upd || s.chg
  }

  /** The three times of a disk inode after iupdat. */
  function Stamped(b: Block, k: nat, s: Slot, ta: nat, tm: nat, now: nat): (r: seq<Byte>)
    requires k < INOPB
    ensures |r| == 12
  {
    var o := DINODE * k + 52;
    (if s.acc then Four(ta) else b[o..o + 4]) + (if s.upd then Four(tm) else b[o + 4..o + 8]) + (if s.chg then Four(now) else b[o + 8..o + 12])
  }

  /** A time is written, most significant byte first, exactly if its mark is set: access, modification, change. */
  lemma StampedLayout(b: Block, k: nat, s: Slot, ta: nat, tm: nat, now: nat)
    requires k < INOPB
    ensures var r, o := Stamped(b, k, s, ta, tm, now), DINODE * k + 52;
      && r[0..4] == (if s.acc then Four(ta) else b[o..o + 4])
      && r[4..8] == (if s.upd then Four(tm) else b[o + 4..o + 8])
      && r[8..12] == (if s.chg then Four(now) else b[o + 8..o + 12])
  {
    hide Four;
  }

  /** What the i-list says of inode ino. */
  ghost function OnList(view: seq<Block>, ino: nat): Core
    requires Itod(ino) < |view|
  {
    DinodeAt(view[Itod(ino)], Itoo(ino))
  }

  /** The place of inode ino in the table, or its length. */
  ghost function Place(slots: seq<Slot>, ino: nat): (k: nat)
    ensures k <= |slots| && (k < |slots| ==> slots[k].number == ino) && forall j :: 0 <= j < k ==> slots[j].number != ino
  {
    if slots == [] then 0 else if slots[0].number == ino then 0 else 1 + Place(slots[1..], ino)
  }

  ghost predicate InCore(slots: seq<Slot>, ino: nat) {
    exists k :: 0 <= k < |slots| && slots[k].number == ino
  }

  /** An inode's value: the table's if it is in core, else the list's. */
  ghost function Logical(view: seq<Block>, slots: seq<Slot>, ino: nat): Core
    requires Itod(ino) < |view|
  {
    if Place(slots, ino) < |slots| then slots[Place(slots, ino)].core else OnList(view, ino)
  }

  /** Every inode of the list has the same value in both states. */
  ghost predicate SameInodes(view: seq<Block>, slots: seq<Slot>, view': seq<Block>, slots': seq<Slot>, isize: nat) {
    |view| == |view'| && isize <= |view| && forall ino: nat :: 1 <= ino && Itod(ino) < isize ==> Logical(view', slots', ino) == Logical(view, slots, ino)
  }

  /** Only blocks of the i-list differ. */
  ghost predicate ListOnly(view: seq<Block>, view': seq<Block>, isize: nat) {
    |view| == |view'| && forall b :: isize <= b < |view| ==> view'[b] == view[b]
  }

  /** Nobody holds a buffer of the i-list, and one is free: getblk cannot sleep. */
  ghost predicate ListFree(grip: map<nat, Buf>, isize: nat) {
    |grip| < NBUF && forall b :: 2 <= b < isize ==> !Holding(grip, b)
  }

  ghost predicate TableOk(view: seq<Block>, slots: seq<Slot>, isize: nat) {
    && |slots| == NINODE && 2 <= isize <= MAXISIZE && isize <= |view|
    && (forall k :: 0 <= k < NINODE ==> SlotOk(view, slots[k], isize))
    && forall j, k :: 0 <= j < k < NINODE && slots[j].number != 0 ==> slots[j].number != slots[k].number
  }

  ghost predicate SlotOk(view: seq<Block>, s: Slot, isize: nat) {
    && (s.count == 0 <==> s.number == 0) && InRange(s.core) && (s.number == 0 ==> !Marked(s))
    && (s.number != 0 ==> Itod(s.number) < isize <= |view| && (!Marked(s) ==> s.core == OnList(view, s.number)))
  }

  lemma PlaceIs(slots: seq<Slot>, ino: nat, k: nat)
    requires k < |slots| && slots[k].number == ino && forall j :: 0 <= j < |slots| && j != k ==> slots[j].number != ino
    ensures Place(slots, ino) == k
  {
    hide Place;
    var p := Place(slots, ino);
  }

  lemma PlaceNone(slots: seq<Slot>, ino: nat)
    requires forall j :: 0 <= j < |slots| ==> slots[j].number != ino
    ensures Place(slots, ino) == |slots|
  {
    hide Place;
    var p := Place(slots, ino);
  }

  /** A place may be given any inode that no other place has, and given up once the list has its inode. */
  lemma SlotKept(view: seq<Block>, slots: seq<Slot>, isize: nat, k: nat, s: Slot)
    requires TableOk(view, slots, isize) && k < NINODE && SlotOk(view, s, isize)
    requires s.number != 0 ==> forall j :: 0 <= j < NINODE && j != k ==> slots[j].number != s.number
    ensures TableOk(view, slots[k := s], isize) && |slots| == NINODE && isize <= |view|
  {
    hide SlotOk;
  }

  /** What the changed place says of its inode is that inode's value, and no other inode's value moves. */
  lemma SlotChanged(view: seq<Block>, slots: seq<Slot>, isize: nat, k: nat, s: Slot, ino: nat)
    requires TableOk(view, slots, isize) && k < NINODE && ino >= 1 && Itod(ino) < isize
    requires s.number != 0 ==> forall j :: 0 <= j < NINODE && j != k ==> slots[j].number != s.number
    requires slots[k].number != 0 && slots[k].number != s.number ==> slots[k].core == OnList(view, slots[k].number)
    ensures Logical(view, slots[k := s], ino) == if ino == s.number then s.core else Logical(view, slots, ino)
  {
    hide Place, OnList, SlotOk;
    var t := slots[k := s];
    var p, q := Place(slots, ino), Place(t, ino);
    if ino == s.number {
      PlaceIs(t, ino, k);
    } else if p < |slots| && p != k {
      PlaceIs(t, ino, p);
    } else {
      PlaceNone(t, ino);
    }
  }

  lemma SlotsSame(view: seq<Block>, slots: seq<Slot>, isize: nat, k: nat, s: Slot)
    requires TableOk(view, slots, isize) && k < NINODE && SlotOk(view, s, isize)
    requires s.number != 0 ==> forall j :: 0 <= j < NINODE && j != k ==> slots[j].number != s.number
    requires slots[k].number != 0 && slots[k].number != s.number ==> slots[k].core == OnList(view, slots[k].number)
    requires s.number != 0 ==> s.core == Logical(view, slots, s.number)
    ensures TableOk(view, slots[k := s], isize) && SameInodes(view, slots, view, slots[k := s], isize)
  {
    SlotKept(view, slots, isize, k, s);
    hide TableOk, SlotOk, Logical, OnList;
    forall ino: nat | 1 <= ino && Itod(ino) < isize
      ensures Logical(view, slots[k := s], ino) == Logical(view, slots, ino)
    {
      SlotChanged(view, slots, isize, k, s, ino);
    }
  }

  /** The i-list after iupdat has written inode ino. */
  lemma ListPut(view: seq<Block>, ino: nat, c: Core, times: seq<Byte>, other: nat)
    requires Itod(ino) < |view| && Itod(other) < |view| && InRange(c) && |times| == 12
    ensures OnList(view[Itod(ino) := PutDinode(view[Itod(ino)], Itoo(ino), c, times)], other) == if other == ino then c else OnList(view, other)
  {
    hide PutDinode, DinodeAt, InRange, Itod, Itoo;
    var k := Itod(ino);
    InRangeShaped(c);
    PutDinodeAt(view[k], Itoo(ino), c, times, Itoo(other));
    InodeRoundTrip(c);
    if Itod(other) == k && other != ino {
      if Itoo(other) == Itoo(ino) {
        Places(other, ino);
      }
    }
  }

  lemma InRangeShaped(c: Core)
    requires InRange(c)
    ensures Shaped(c)
  {
  }

  ghost function Unmarked(s: Slot): Slot {
    s.(acc := false, upd := false, chg := false)
  }

  /** iupdat keeps every inode's value, and afterwards the list has the inode as the table does. */
  lemma Updated(view: seq<Block>, slots: seq<Slot>, isize: nat, k: nat, times: seq<Byte>)
    requires TableOk(view, slots, isize) && k < NINODE && slots[k].number != 0 && |times| == 12
    ensures var ino, c := slots[k].number, slots[k].core;
      && Itod(ino) < |view| && InRange(c)
      && var w, t := view[Itod(ino) := PutDinode(view[Itod(ino)], Itoo(ino), c, times)], slots[k := Unmarked(slots[k])];
      TableOk(w, t, isize) && SameInodes(view, slots, w, t, isize) && OnList(w, ino) == c
  {
    hide Place, OnList, PutDinode, InRange, Itod, Itoo;
    assert SlotOk(view, slots[k], isize);
    var ino, c := slots[k].number, slots[k].core;
    InRangeShaped(c);
    var w, t := view[Itod(ino) := PutDinode(view[Itod(ino)], Itoo(ino), c, times)], slots[k := Unmarked(slots[k])];
    ListPut(view, ino, c, times, ino);
    forall j | 0 <= j < NINODE
      ensures SlotOk(w, t[j], isize)
    {
      assert SlotOk(view, slots[j], isize);
      if j != k && slots[j].number != 0 {
        ListPut(view, ino, c, times, slots[j].number);
      }
    }
    forall n: nat | 1 <= n && Itod(n) < isize
      ensures Logical(w, t, n) == Logical(view, slots, n)
    {
      var p := Place(slots, n);
      if p < |slots| {
        PlaceIs(t, n, p);
      } else {
        PlaceNone(t, n);
        ListPut(view, ino, c, times, n);
      }
    }
  }

  /** The numbers, in 16 bits, that ialloc's search lists from the first n inodes of the list. */
  ghost function Candidates(view: seq<Block>, slots: seq<Slot>, n: nat): seq<nat>
    requires Itod(n) < |view|
  {
    if n == 0 then []
    else if OnList(view, n).mode == 0 && !InCore(slots, n % 65536)
    then Candidates(view, slots, n - 1) + [n % 65536]
    else Candidates(view, slots, n - 1)
  }

  lemma CandidatesStep(view: seq<Block>, slots: seq<Slot>, n: nat)
    requires Itod(n) < |view| && Itod(n + 1) < |view|
    ensures Candidates(view, slots, n + 1) ==
            Candidates(view, slots, n) + if OnList(view, n + 1).mode == 0 && !InCore(slots, (n + 1) % 65536) then [(n + 1) % 65536] else []
  {
    hide OnList, InCore;
  }

  /** The search lists an inode exactly if it is free on the list and not in core; so what it lists is free. */
  lemma {:induction false} CandidatesFree(view: seq<Block>, slots: seq<Slot>, isize: nat, n: nat, ino: nat)
    requires TableOk(view, slots, isize) && Itod(n) < isize && 1 <= ino < 65536 && Itod(ino) < isize
    ensures ino in Candidates(view, slots, n) <==> ino <= n && OnList(view, ino).mode == 0 && !InCore(slots, ino)
    ensures ino in Candidates(view, slots, n) ==> Logical(view, slots, ino).mode == 0
  {
    hide OnList;
    if n > 0 {
      CandidatesFree(view, slots, isize, n - 1, ino);
    }
  }

  /** The search lists the inodes in the order of their numbers; the number 0 of inode 65536 comes last. */
  lemma {:induction false} CandidatesInOrder(view: seq<Block>, slots: seq<Slot>, n: nat, i: nat, j: nat)
    requires Itod(n) < |view| && n <= 65536 && i < j < |Candidates(view, slots, n)|
    ensures var c := Candidates(view, slots, n); c[i] <= n && (c[i] < c[j] <= n || c[j] == 0)
  {
    hide OnList, InCore;
    if n > 0 {
      var c := Candidates(view, slots, n - 1);
      CandidatesBelow(view, slots, n - 1);
      if j < |c| {
        CandidatesInOrder(view, slots, n - 1, i, j);
      }
    }
  }

  lemma {:induction false} CandidatesBelow(view: seq<Block>, slots: seq<Slot>, n: nat)
    requires Itod(n) < |view| && n <= 65536
    ensures forall i :: 0 <= i < |Candidates(view, slots, n)| ==> Candidates(view, slots, n)[i] <= n
  {
    hide OnList, InCore;
    if n > 0 {
      CandidatesBelow(view, slots, n - 1);
    }
  }

  /** Number 0, which inode 65536 has in 16 bits, is listed only if that inode is free and no place of the table is unused. */
  lemma {:induction false} ZeroListed(view: seq<Block>, slots: seq<Slot>, isize: nat, n: nat)
    requires TableOk(view, slots, isize) && Itod(n) < isize
    ensures 0 in Candidates(view, slots, n) <==> n == 65536 && OnList(view, n).mode == 0 && forall k :: 0 <= k < NINODE ==> slots[k].count != 0
  {
    hide OnList, InRange;
    if n > 0 {
      ZeroListed(view, slots, isize, n - 1);
      assert n <= 65536;
      if n == 65536 {
        forall k | 0 <= k < NINODE
          ensures slots[k].number == 0 <==> slots[k].count == 0
        {
          assert SlotOk(view, slots[k], isize);
        }
      }
    }
  }

  /** A file made and not yet written back is free on the list; only the look into the table keeps the search off it. */
  lemma StaleList(view: seq<Block>, slots: seq<Slot>, ino: nat)
    requires Itod(ino) < |view| && OnList(view, ino).mode == 0 && Logical(view, slots, ino).mode != 0
    ensures InCore(slots, ino) && exists k :: 0 <= k < |slots| && slots[k].number == ino && slots[k].core != OnList(view, ino)
  {
    hide OnList;
    assert slots[Place(slots, ino)].number == ino;
  }

  predicate NoLinks(c: Core) {
    c.nlink == 0 || c.nlink >= 32768
  }

  /** What iput leaves of an inode without links: itrunc empties regular files and directories. */
  function Released(c: Core): (r: Core)
    requires InRange(c)
    ensures InRange(r) && r.mode == 0 && r.nlink == c.nlink
  {
    var t := c.mode / 4096;
    if t == 8 || t == 4 then c.(mode := 0, size := 0, addr := seq(NADDRS, i => 0)) else c.(mode := 0)
  }

  /** With nothing marked, the list alone gives every inode's value. */
  lemma AllWritten(view: seq<Block>, slots: seq<Slot>, isize: nat, ino: nat)
    requires TableOk(view, slots, isize) && (forall k :: 0 <= k < NINODE ==> !Marked(slots[k])) && 1 <= ino && Itod(ino) < isize
    ensures Logical(view, slots, ino) == OnList(view, ino)
  {
    hide OnList, Place;
    var p := Place(slots, ino);
    if p < |slots| {
      assert SlotOk(view, slots[p], isize);
    }
  }

  lemma PlaceOf(ino: nat, adr: nat, i: nat)
    requires ino + 15 == 8 * adr + i && i < INOPB
    ensures Itod(ino) == adr && Itoo(ino) == i
  {
  }

  lemma OnListIs(view: seq<Block>, ino: nat)
    requires Itod(ino) < |view|
    ensures OnList(view, ino) == DinodeAt(view[Itod(ino)], Itoo(ino))
  {
  }

  lemma OnListInRange(view: seq<Block>, ino: nat)
    requires Itod(ino) < |view|
    ensures InRange(OnList(view, ino))
  {
  }

  lemma ListBlock(ino: nat)
    requires 1 <= ino
    ensures 2 <= Itod(ino)
  {
  }

  lemma EmptyCore(c: Core)
    requires c == Core(0, 0, 0, 0, 0, seq(NADDRS, i => 0))
    ensures InRange(c)
  {
  }

  lemma ListFreeGet(grip: map<nat, Buf>, isize: nat, ino: nat)
    requires ListFree(grip, isize) && 1 <= ino && Itod(ino) < isize
    ensures CanGet(grip, Itod(ino))
  {
    assert 2 <= Itod(ino);
  }

  class Table {
    const bio: Cache
    const isize: nat
    var slots: seq<Slot>

    ghost predicate Valid()
      reads this, bio
    {
      bio.Valid() && TableOk(bio.view, slots, isize) && ListFree(Grip(bio.bufs), isize)
    }

    /** v7_zerocore: no inode is in core. */
    constructor (bio: Cache, isize: nat)
      requires bio.Valid() && 2 <= isize <= MAXISIZE && isize <= |bio.view| && ListFree(Grip(bio.bufs), isize)
      ensures Valid() && this.bio == bio && this.isize == isize
      ensures forall ino: nat :: 1 <= ino && Itod(ino) < isize ==> Logical(bio.view, slots, ino) == OnList(bio.view, ino)
    {
      hide OnList, InRange, Sized, AvLinked, Chosen, Back, DevLinked, Coherent;
      this.bio, this.isize := bio, isize;
      slots := seq(NINODE, k => Slot(0, 0, false, false, false, Core(0, 0, 0, 0, 0, seq(NADDRS, i => 0))));
      new;
      EmptyCore(slots[0].core);
      forall ino: nat | 1 <= ino && Itod(ino) < isize
        ensures Logical(bio.view, slots, ino) == OnList(bio.view, ino)
      {
        AllWritten(bio.view, slots, isize, ino);
      }
    }

    /** iget's walk: the place of the inode, or else the first unused one. */
    method Find(ino: nat) returns (k: nat, free: nat)
      requires |slots| == NINODE
      ensures k <= NINODE && free <= NINODE && (k < NINODE ==> slots[k].number == ino)
      ensures k == NINODE ==> !InCore(slots, ino) && (free < NINODE ==> slots[free].count == 0)
      ensures k == NINODE && free == NINODE ==> forall j :: 0 <= j < NINODE ==> slots[j].count != 0
    {
      k, free := 0, NINODE;
      while k < NINODE
        invariant 0 <= k <= NINODE && free <= NINODE
        invariant forall j :: 0 <= j < k ==> slots[j].number != ino && (free == NINODE ==> slots[j].count != 0)
        invariant free < NINODE ==> free < k && slots[free].count == 0
      {
        if slots[k].number == ino {
          return;
        }
        if free == NINODE && slots[k].count == 0 {
          free := k;
        }
        k := k + 1;
      }
    }

    /** A reference to inode ino, read from the list unless it is in core; it fails exactly if the table is full. */
    method Iget(ino: nat) returns (ok: bool, k: nat)
      requires Valid() && 1 <= ino < 65536 && Itod(ino) < isize
      modifies this`slots, bio
      ensures Valid() && bio.view == old(bio.view) && Grip(bio.bufs) == old(Grip(bio.bufs))
      ensures ok <==> old(InCore(slots, ino) || exists j :: 0 <= j < NINODE && slots[j].count == 0)
      ensures ok ==> k < NINODE && slots == old(slots)[k := slots[k]] && slots[k].number == ino
      ensures ok ==> slots[k].core == old(Logical(bio.view, slots, ino)) && slots[k].count == (if old(InCore(slots, ino)) then old(slots)[k].count else 0) + 1
      ensures !ok ==> slots == old(slots)
      ensures SameInodes(old(bio.view), old(slots), bio.view, slots, isize)
    {
      hide OnList, InRange, Sized, AvLinked, Chosen, Back, DevLinked, Coherent, Place, Quiet, Itod;
      var free;
      k, free := Find(ino);
      ghost var before := slots;
      ok := true;
      if k < NINODE {
        assert SlotOk(bio.view, slots[k], isize);
        PlaceIs(slots, ino, k);
        slots := slots[k := slots[k].(count := slots[k].count + 1)];
        SlotsSame(bio.view, before, isize, k, slots[k]);
        return;
      }
      if free == NINODE {
        ok := false;
        return;
      }
      k := free;
      PlaceNone(slots, ino);
      Load(k, ino);
    }

    /** Inode ino, which is not in core, into an unused place. */
    method Load(k: nat, ino: nat)
      requires Valid() && 1 <= ino < 65536 && Itod(ino) < isize && k < NINODE && slots[k].count == 0 && !InCore(slots, ino)
      modifies this`slots, bio
      ensures Valid() && bio.view == old(bio.view) && Grip(bio.bufs) == old(Grip(bio.bufs))
      ensures slots == old(slots)[k := Slot(ino, 1, false, false, false, OnList(bio.view, ino))]
      ensures SameInodes(old(bio.view), old(slots), bio.view, slots, isize)
    {
      hide OnList, InRange, Sized, AvLinked, Chosen, Back, DevLinked, Coherent, Place, Quiet, Itod;
      ghost var before := slots;
      assert SlotOk(bio.view, slots[k], isize);
      slots := slots[k := slots[k].(number := ino, count := slots[k].count + 1, acc := false, upd := false, chg := false)];
      ListFreeGet(Grip(bio.bufs), isize, ino);
      ListBlock(ino);
      var b := ReadBlock(Itod(ino));
      OnListIs(bio.view, ino);
      slots := slots[k := slots[k].(core := DinodeAt(b, Itoo(ino)))];
      OnListInRange(bio.view, ino);
      PlaceNone(before, ino);
      SlotsSame(bio.view, before, isize, k, slots[k]);
      assert slots == before[k := slots[k]];
    }

    /** A block of the i-list, read and released. */
    method ReadBlock(adr: nat) returns (b: Block)
      requires bio.Valid() && ListFree(Grip(bio.bufs), isize) && 2 <= adr < isize <= |bio.view|
      modifies bio
      ensures bio.Valid() && bio.view == old(bio.view) && Grip(bio.bufs) == old(Grip(bio.bufs)) && b == bio.view[adr]
    {
      hide Sized, AvLinked, Chosen, Back, DevLinked, Coherent, Quiet;
      assert !Holding(Grip(bio.bufs), adr);
      var bp := bio.Bread(adr);
      b := bio.bufs[bp].data;
      bio.Brelse(bp);
      assert Grip(bio.bufs) == old(Grip(bio.bufs));
    }

    /** A holder's change of an inode in core. */
    method Modify(k: nat, c: Core, upd: bool, chg: bool)
      requires Valid() && k < NINODE && slots[k].count > 0 && InRange(c) && (upd || chg)
      modifies this`slots
      ensures Valid() && slots == old(slots)[k := old(slots)[k].(core := c, upd := old(slots)[k].upd || upd, chg := old(slots)[k].chg || chg)]
      ensures forall ino: nat :: 1 <= ino && Itod(ino) < isize ==>
        Logical(bio.view, slots, ino) == if ino == slots[k].number then c else old(Logical(bio.view, slots, ino))
    {
      hide OnList, InRange, Sized, AvLinked, Chosen, Back, DevLinked, Coherent, Place, Quiet, Itod, Logical;
      ghost var before := slots;
      assert SlotOk(bio.view, slots[k], isize);
      slots := slots[k := slots[k].(core := c, upd := slots[k].upd || upd, chg := slots[k].chg || chg)];
      SlotKept(bio.view, before, isize, k, slots[k]);
      forall ino: nat | 1 <= ino && Itod(ino) < isize
        ensures Logical(bio.view, slots, ino) == if ino == slots[k].number then c else Logical(bio.view, before, ino)
      {
        SlotChanged(bio.view, before, isize, k, slots[k], ino);
      }
    }

    /** Write a marked inode to the list; no inode's value moves. */
    method Iupdat(k: nat, ta: nat, tm: nat, now: nat)
      requires Valid() && k < NINODE && slots[k].number != 0
      modifies this`slots, bio
      ensures Valid() && slots == old(slots)[k := Unmarked(old(slots)[k])] && Grip(bio.bufs) == old(Grip(bio.bufs))
      ensures SameInodes(old(bio.view), old(slots), bio.view, slots, isize)
      ensures OnList(bio.view, slots[k].number) == slots[k].core
      ensures forall b :: 0 <= b < |bio.view| && b != Itod(slots[k].number) ==> bio.view[b] == old(bio.view[b])
      ensures ListOnly(old(bio.view), bio.view, isize)
    {
      hide OnList, InRange, Sized, AvLinked, Chosen, Back, DevLinked, Coherent, Place, Quiet, Itod, Stamped, PutDinode;
      assert SlotOk(bio.view, slots[k], isize);
      if !Marked(slots[k]) {
        assert slots[k] == Unmarked(slots[k]);
        return;
      }
      ghost var view := bio.view;
      ghost var grip := Grip(bio.bufs);
      var s := slots[k];
      assert s.number >= 1;
      ListFreeGet(grip, isize, s.number);
      var bp := bio.Bread(Itod(s.number));
      InRangeShaped(s.core);
      var b := bio.bufs[bp].data;
      var times := Stamped(b, Itoo(s.number), s, ta, tm, now);
      bio.Store(bp, PutDinode(b, Itoo(s.number), s.core, times));
      slots := slots[k := s.(acc := false, upd := false, chg := false)];
      bio.Bdwrite(bp);
      Updated(view, old(slots), isize, k, times);
      assert Grip(bio.bufs) == grip;
    }

    /** Give a reference up.  The last one releases an inode without links, and the inode leaves the table written. */
    method Iput(k: nat, ta: nat, tm: nat, now: nat)
      requires Valid() && k < NINODE && slots[k].count > 0
      modifies this`slots, bio
      ensures Valid() && Grip(bio.bufs) == old(Grip(bio.bufs))
      ensures slots == old(slots)[k := slots[k]] && slots[k].count == old(slots)[k].count - 1
      ensures slots[k].count > 0 ==> slots[k] == old(slots)[k].(count := slots[k].count) && bio.view == old(bio.view)
      ensures slots[k].count == 0 ==> !InCore(slots, old(slots)[k].number)
      ensures ListOnly(old(bio.view), bio.view, isize)
      ensures forall ino: nat :: 1 <= ino && Itod(ino) < isize ==>
        Logical(bio.view, slots, ino) ==
          if ino == old(slots)[k].number && old(slots)[k].count == 1 && NoLinks(old(slots)[k].core) then Released(old(slots)[k].core)
          else old(Logical(bio.view, slots, ino))
    {
      hide OnList, InRange, Sized, AvLinked, Chosen, Back, DevLinked, Coherent, Place, Quiet, Itod, Released;
      ghost var before := slots;
      assert SlotOk(bio.view, slots[k], isize);
      if slots[k].count > 1 {
        PlaceIs(slots, slots[k].number, k);
        slots := slots[k := slots[k].(count := slots[k].count - 1)];
        SlotsSame(bio.view, before, isize, k, slots[k]);
        return;
      }
      if NoLinks(slots[k].core) {
        Modify(k, Released(slots[k].core), true, true);
      }
      Leave(k, ta, tm, now);
    }

    /** The last reference gone, the inode is written and its place given up. */
    method Leave(k: nat, ta: nat, tm: nat, now: nat)
      requires Valid() && k < NINODE && slots[k].count == 1
      modifies this`slots, bio
      ensures Valid() && Grip(bio.bufs) == old(Grip(bio.bufs)) && SameInodes(old(bio.view), old(slots), bio.view, slots, isize)
      ensures ListOnly(old(bio.view), bio.view, isize)
      ensures slots == old(slots)[k := slots[k]] && slots[k].count == 0 && !InCore(slots, old(slots)[k].number)
    {
      hide OnList, InRange, Sized, AvLinked, Chosen, Back, DevLinked, Coherent, Place, Quiet, Itod, Logical;
      assert SlotOk(bio.view, slots[k], isize);
      Iupdat(k, ta, tm, now);
      ghost var last := slots;
      slots := slots[k := slots[k].(acc := false, upd := false, chg := false, number := 0)];
      slots := slots[k := slots[k].(count := slots[k].count - 1)];
      assert slots == last[k := slots[k]];
      assert SlotOk(bio.view, slots[k], isize) by { assert SlotOk(bio.view, last[k], isize); }
      SlotsSame(bio.view, last, isize, k, slots[k]);
    }

    /** Is inode number in core? */
    method Seek(number: nat) returns (r: bool)
      requires |slots| == NINODE
      ensures r <==> InCore(slots, number)
    {
      for k := 0 to NINODE
        invariant forall j :: 0 <= j < k ==> slots[j].number != number
      {
        if slots[k].number == number {
          return true;
        }
      }
      return false;
    }

    /** The search of one block of the list, from inode n + 1 on. */
    method ScanBlock(b: Block, adr: nat, first: nat, was: seq<nat>, ghost n: nat) returns (listed: seq<nat>, number: nat, ghost m: nat)
      requires TableOk(bio.view, slots, isize) && 2 <= adr < isize && b == bio.view[adr]
      requires n == 8 * (adr - 2) && first == (n + 1) % 65536 && was == Candidates(bio.view, slots, n) && |was| < NICINOD
      ensures n <= m <= n + INOPB && Itod(m) < |bio.view| && listed == Candidates(bio.view, slots, m) && |listed| <= NICINOD
      ensures |listed| < NICINOD ==> m == n + INOPB && number == (m + 1) % 65536
    {
      hide OnList, SlotOk, Itod, Itoo, Candidates, InCore, DinodeAt;
      PlaceOf(n, adr - 1, 7);
      listed, number, m := was, first, n;
      var i := 0;
      while i < INOPB && |listed| < NICINOD
        invariant 0 <= i <= INOPB && m == n + i && |listed| <= NICINOD && number == (m + 1) % 65536
        invariant Itod(m) < |bio.view| && listed == Candidates(bio.view, slots, m)
      {
        var free := DinodeAt(b, i).mode == 0;
        PlaceOf(m + 1, adr, i);
        OnListIs(bio.view, m + 1);
        CandidatesStep(bio.view, slots, m);
        if free {
          var here := Seek(number);
          free := !here;
        }
        if free {
          listed := listed + [number];
        }
        m := m + 1;
        number := (number + 1) % 65536;
        i := i + 1;
      }
    }

    /** ialloc's search of the list: the first NICINOD candidates, with each block read through the cache. */
    method Scan() returns (listed: seq<nat>, ghost n: nat)
      requires Valid()
      modifies bio
      ensures Valid() && bio.view == old(bio.view) && Grip(bio.bufs) == old(Grip(bio.bufs))
      ensures n <= 8 * (isize - 2) && Itod(n) < |bio.view| && listed == Candidates(bio.view, slots, n) && |listed| <= NICINOD
      ensures |listed| < NICINOD ==> n == 8 * (isize - 2)
    {
      hide OnList, Sized, AvLinked, Chosen, Back, DevLinked, Coherent, Quiet, SlotOk;
      listed, n := [], 0;
      var number, adr := 1, 2;
      while adr < isize && |listed| < NICINOD
        invariant 2 <= adr <= isize && Valid() && bio.view == old(bio.view) && Grip(bio.bufs) == old(Grip(bio.bufs))
        invariant Itod(n) < |bio.view| && listed == Candidates(bio.view, slots, n) && |listed| <= NICINOD && n <= 8 * (adr - 2)
        invariant |listed| < NICINOD ==> n == 8 * (adr - 2) && number == (n + 1) % 65536
      {
        var b := ReadBlock(adr);
        listed, number, n := ScanBlock(b, adr, number, listed, n);
        adr := adr + 1;
      }
    }

    /** update's walk of the table and bflush: afterwards the disk alone gives every inode the value it had. */
    method Sync(ta: nat, tm: nat, now: nat)
      requires Valid()
      modifies this`slots, bio
      ensures Valid() && Grip(bio.bufs) == old(Grip(bio.bufs)) && |bio.disk| == |bio.view|
      ensures SameInodes(old(bio.view), old(slots), bio.view, slots, isize) && ListOnly(old(bio.view), bio.view, isize)
      ensures forall b :: 0 <= b < |bio.view| && !Holding(Grip(bio.bufs), b) ==> bio.disk[b] == bio.view[b]
      ensures forall ino: nat :: 1 <= ino && Itod(ino) < isize ==> OnList(bio.disk, ino) == old(Logical(bio.view, slots, ino))
    {
      hide OnList, InRange, Sized, AvLinked, Chosen, Back, DevLinked, Coherent, Place, Quiet, SlotOk, Itod;
      for k := 0 to NINODE
        invariant Valid() && Grip(bio.bufs) == old(Grip(bio.bufs))
        invariant SameInodes(old(bio.view), old(slots), bio.view, slots, isize) && ListOnly(old(bio.view), bio.view, isize)
        invariant forall j :: 0 <= j < k ==> !Marked(slots[j])
      {
        assert SlotOk(bio.view, slots[k], isize);
        Refresh(k, ta, tm, now);
      }
      bio.Bflush();
      forall ino: nat | 1 <= ino && Itod(ino) < isize
        ensures OnList(bio.disk, ino) == Logical(bio.view, slots, ino)
      {
        AllWritten(bio.view, slots, isize, ino);
        ListFreeGet(Grip(bio.bufs), isize, ino);
        OnListIs(bio.disk, ino);
        OnListIs(bio.view, ino);
      }
    }

    /** One turn of update's walk. */
    method Refresh(k: nat, ta: nat, tm: nat, now: nat)
      requires Valid() && k < NINODE
      modifies this`slots, bio
      ensures Valid() && Grip(bio.bufs) == old(Grip(bio.bufs)) && slots == old(slots)[k := Unmarked(old(slots)[k])]
      ensures SameInodes(old(bio.view), old(slots), bio.view, slots, isize) && ListOnly(old(bio.view), bio.view, isize)
    {
      hide OnList, InRange, Sized, AvLinked, Chosen, Back, DevLinked, Coherent, Place, Quiet, Itod;
      assert SlotOk(bio.view, slots[k], isize);
      ghost var before := slots;
      if slots[k].count != 0 {
        PlaceIs(slots, slots[k].number, k);
        slots := slots[k := slots[k].(count := slots[k].count + 1)];
        SlotsSame(bio.view, before, isize, k, slots[k]);
        Iupdat(k, ta, tm, now);
        Iput(k, ta, tm, now);
      }
      assert slots[k] == Unmarked(before[k]);
    }
  }
}
