/** read_dump.py's parse: a dump stream with records missing, and what the loss does to the files. */
module DumpStream {
  import opened Blocks

  datatype Option<T> = None | Some(value: T)

  /** A tape: record number to record; lost records are absent. */
  type Tape = map<nat, Block>

  function Word(r: Block, o: nat): (w: nat)
    requires o + 2 <= 512
    ensures w < 65536
  {
    r[o] as nat * 256 + r[o + 1] as nat
  }

  function WordSum(r: Block, n: nat): nat
    requires n <= 256
  {
    if n == 0 then 0 else WordSum(r, n - 1) + Word(r, 2 * (n - 1))
  }

  const MAGIC := 60011
  const CHECKSUM := 84446 % 65536
  const TS_TAPE := 1
  const TS_INODE := 2
  const TS_ADDR := 4

  /** r[88:88 + cnt], with Python's rule for a negative end. */
  function AddrMap(r: Block): seq<Byte> {
    var w := Word(r, 86);
    var cnt: int := if w < 32768 then w else w - 65536;
    var end := 88 + cnt;
    var stop := if end < 0 then end + 512 else end;
    if stop <= 88 then [] else if stop >= 512 then r[88..] else r[88..stop]
  }

  datatype Header = Tape | Inode(ino: nat, amap: seq<Byte>, size: nat, tapea: nat) | Addr(amap: seq<Byte>) | Other

  /** parse_header and what parse takes from the record: a record is a header if magic and checksum are right. */
  function HeaderOf(r: Block): Option<Header> {
    if Word(r, 18) != MAGIC || WordSum(r, 256) % 65536 != CHECKSUM then None
    else
      var ty := Word(r, 0);
      if ty == TS_TAPE then Some(Tape)
      else if ty == TS_INODE then Some(Inode(Word(r, 16), AddrMap(r), Word(r, 30) * 65536 + Word(r, 32), Word(r, 12) * 65536 + Word(r, 14)))
      else if ty == TS_ADDR then Some(Addr(AddrMap(r)))
      else Some(Other)
  }

  /** The inode being read, its address map, the place in the map, and the logical block that place stands for. */
  datatype State = State(cur: Option<nat>, amap: seq<Byte>, ai: nat, logical: nat)

  function Start(): State {
    State(None, [], 0, 0)
  }

  /** take_slot: past holes to the next mapped block, if there is one. */
  function Take(s: State): (o: (State, Option<nat>))
    decreases |s.amap| - s.ai
  {
    if s.ai >= |s.amap| then (s, None)
    else if s.amap[s.ai] == 0 then Take(s.(ai := s.ai + 1, logical := s.logical + 1))
    else (s.(ai := s.ai + 1, logical := s.logical + 1), Some(s.logical))
  }

  /** What a record, or the lack of one, does to the state. */
  function After(s: State, r: Option<Block>): State {
    var h := if r.Some? then HeaderOf(r.value) else None;
    match h
    case None => if s.cur.Some? then Take(s).0 else s
    case Some(Tape) => State(None, [], s.ai, s.logical)
    case Some(Inode(ino, amap, _, _)) => State(Some(ino), amap, 0, 0)
    case Some(Addr(amap)) => State(s.cur, amap, 0, s.logical)
    case Some(Other) => State(None, [], s.ai, s.logical)
  }

  function Get(tape: Tape, n: nat): Option<Block> {
    if n in tape then Some(tape[n]) else None
  }

  /** The state before record n. */
  function Before(tape: Tape, n: nat): State {
    if n == 0 then Start() else After(Before(tape, n - 1), Get(tape, n - 1))
  }

  predicate IsData(tape: Tape, n: nat) {
    n in tape && HeaderOf(tape[n]) == None
  }

  /** Where a data record belongs: an inode and a logical block; None if it is an orphan. */
  function Slot(tape: Tape, n: nat): Option<(nat, nat)> {
    var s := Before(tape, n);
    if IsData(tape, n) && s.cur.Some? && Take(s).1.Some? then Some((s.cur.value, Take(s).1.value)) else None
  }

  /** The blocks found in the first n records. */
  function Found(tape: Tape, n: nat): map<(nat, nat), Block> {
    if n == 0 then map[]
    else
      var k := Slot(tape, n - 1);
      if k.Some? then Found(tape, n - 1)[k.value := tape[n - 1]] else Found(tape, n - 1)
  }

  /** The data records of the first n that belong nowhere. */
  function Orphans(tape: Tape, n: nat): seq<nat> {
    if n == 0 then []
    else if IsData(tape, n - 1) && Slot(tape, n - 1) == None then Orphans(tape, n - 1) + [n - 1]
    else Orphans(tape, n - 1)
  }

  /** The sizes of the inodes whose headers are among the first n records. */
  function Sizes(tape: Tape, n: nat): map<nat, nat> {
    if n == 0 then map[]
    else
      var h := if n - 1 in tape then HeaderOf(tape[n - 1]) else None;
      if h.Some? && h.value.Inode? then Sizes(tape, n - 1)[h.value.ino := h.value.size] else Sizes(tape, n - 1)
  }

  /** j is the first place from a on where the map has a block, or its end. */
  ghost predicate NextMapped(amap: seq<Byte>, a: nat, j: nat) {
    a <= j <= |amap| && (j < |amap| ==> amap[j] != 0) && forall i :: a <= i < j ==> amap[i] == 0
  }

  /** The slot taken is the next mapped block, and every place passed, hole or not, is one logical block. */
  lemma {:induction false} TakeIs(s: State, j: nat)
    requires NextMapped(s.amap, s.ai, j)
    ensures Take(s) == if j == |s.amap| then (s.(ai := j, logical := s.logical + (j - s.ai)), None)
                       else (s.(ai := j + 1, logical := s.logical + (j - s.ai) + 1), Some(s.logical + (j - s.ai)))
    decreases j - s.ai
  {
    if s.ai < j {
      TakeIs(s.(ai := s.ai + 1, logical := s.logical + 1), j);
    }
  }

  /** take_slot. */
  method TakeSlot(amap: seq<Byte>, ai0: nat, logical0: nat) returns (ai: nat, logical: nat, lb: Option<nat>)
    ensures ai0 <= |amap| && lb.None? ==> NextMapped(amap, ai0, |amap|) && ai == |amap| && logical == logical0 + (ai - ai0)
    ensures ai0 > |amap| ==> lb.None? && ai == ai0 && logical == logical0
    ensures lb.Some? ==> ai0 < ai <= |amap| && NextMapped(amap, ai0, ai - 1) && lb.value == logical0 + (ai - 1 - ai0) && logical == lb.value + 1
    ensures forall cur: Option<nat> :: Take(State(cur, amap, ai0, logical0)) == (State(cur, amap, ai, logical), lb)
  {
    ai, logical := ai0, logical0;
    while ai < |amap| && amap[ai] == 0
      invariant ai0 <= ai && logical == logical0 + (ai - ai0) && if ai0 <= |amap| then ai <= |amap| else ai == ai0
      invariant forall i :: ai0 <= i < ai ==> amap[i] == 0
      invariant forall cur: Option<nat> :: Take(State(cur, amap, ai0, logical0)) == Take(State(cur, amap, ai, logical))
    {
      ai, logical := ai + 1, logical + 1;
    }
    if ai >= |amap| {
      return ai, logical, None;
    }
    lb := Some(logical);
    ai, logical := ai + 1, logical + 1;
  }

  /** The headers of inodes among the first n records, in order: tape address and inode. */
  function Order(tape: Tape, n: nat): seq<(nat, nat)> {
    if n == 0 then []
    else
      var h := if n - 1 in tape then HeaderOf(tape[n - 1]) else None;
      if h.Some? && h.value.Inode? then Order(tape, n - 1) + [(h.value.tapea, h.value.ino)] else Order(tape, n - 1)
  }

  /** Which of the first n records is the last TS_TAPE header. */
  function TapeHeader(tape: Tape, n: nat): Option<nat> {
    if n == 0 then None
    else if n - 1 in tape && HeaderOf(tape[n - 1]) == Some(Header.Tape) then Some(n - 1)
    else TapeHeader(tape, n - 1)
  }

  function Missing(tape: Tape, n: nat): seq<nat> {
    if n == 0 then [] else if n - 1 in tape then Missing(tape, n - 1) else Missing(tape, n - 1) + [n - 1]
  }

  /** The highest record number on the tape. */
  ghost predicate IsLast(tape: Tape, last: nat) {
    last in tape && forall k :: k in tape ==> k <= last
  }

  method MaxKey(tape: Tape) returns (last: nat)
    requires tape != map[]
    ensures IsLast(tape, last)
  {
    var rest := tape.Keys;
    var k :| k in rest;
    last := k;
    rest := rest - {k};
    while rest != {}
      invariant rest <= tape.Keys && last in tape && forall j :: j in tape.Keys && j !in rest ==> j <= last
      decreases |rest|
    {
      k :| k in rest;
      if k > last {
        last := k;
      }
      rest := rest - {k};
    }
  }

  /** All that parse finds in the first n records. */
  datatype Parsed = Parsed(tapehdr: Option<nat>, sizes: map<nat, nat>, blocks: map<(nat, nat), Block>, order: seq<(nat, nat)>, missing: seq<nat>, orphans: seq<nat>)

  function ParsedOf(tape: Tape, n: nat): Parsed {
    Parsed(TapeHeader(tape, n), Sizes(tape, n), Found(tape, n), Order(tape, n), Missing(tape, n), Orphans(tape, n))
  }

  /** parse: one pass over the records up to the highest one, in which a missing record still uses up a map slot. */
  method Parse(tape: Tape) returns (r: Parsed, last: nat)
    requires tape != map[]
    ensures IsLast(tape, last) && r == ParsedOf(tape, last + 1)
  {
    last := MaxKey(tape);
    var sizes: map<nat, nat>, blocks: map<(nat, nat), Block>, order: seq<(nat, nat)>, missing: seq<nat>, orphans: seq<nat> := map[], map[], [], [], [];
    var tapehdr: Option<nat> := None;
    var cur: Option<nat>, amap: seq<Byte>, ai, logical := None, [], 0, 0;
    for n := 0 to last + 1
      invariant State(cur, amap, ai, logical) == Before(tape, n)
      invariant Parsed(tapehdr, sizes, blocks, order, missing, orphans) == ParsedOf(tape, n)
    {
      hide HeaderOf, Take;
      var h := if n in tape then HeaderOf(tape[n]) else None;
      if h == None {
        var lb: Option<nat> := None;
        if cur.Some? {
          ai, logical, lb := TakeSlot(amap, ai, logical);
        }
        if n !in tape {
          missing := missing + [n];
        } else if lb == None {
          orphans := orphans + [n];
        } else {
          blocks := blocks[(cur.value, lb.value) := tape[n]];
        }
      } else {
        match h.value {
          case Tape =>
            tapehdr := Some(n);
            cur, amap := None, [];
          case Inode(ino, map', size, tapea) =>
            sizes := sizes[ino := size];
            order := order + [(tapea, ino)];
            cur, amap, ai, logical := Some(ino), map', 0, 0;
          case Addr(map') => amap, ai := map', 0;
          case Other => cur, amap := None, [];
        }
      }
    }
    r := Parsed(tapehdr, sizes, blocks, order, missing, orphans);
  }

  /** The lost records are data records. */
  ghost predicate OnlyData(tape: Tape, lost: set<nat>) {
    forall n :: n in lost ==> IsData(tape, n)
  }

  /** A lost data record still takes its place in the map: nothing after it moves. */
  lemma {:induction false} StateKept(tape: Tape, lost: set<nat>, n: nat)
    requires OnlyData(tape, lost)
    ensures Before(tape - lost, n) == Before(tape, n)
  {
    hide HeaderOf, Take;
    if n > 0 {
      StateKept(tape, lost, n - 1);
      assert n - 1 in lost ==> IsData(tape, n - 1);
    }
  }

  lemma SlotKept(tape: Tape, lost: set<nat>, n: nat)
    requires OnlyData(tape, lost)
    ensures n !in lost ==> Slot(tape - lost, n) == Slot(tape, n) && IsData(tape - lost, n) == IsData(tape, n)
    ensures n in lost ==> Slot(tape - lost, n) == None && !IsData(tape - lost, n)
  {
    hide HeaderOf, Take, Before;
    StateKept(tape, lost, n);
  }

  lemma {:induction false} SizesKept(tape: Tape, lost: set<nat>, n: nat)
    requires OnlyData(tape, lost)
    ensures Sizes(tape - lost, n) == Sizes(tape, n)
  {
    hide HeaderOf;
    if n > 0 {
      SizesKept(tape, lost, n - 1);
      assert n - 1 in lost ==> IsData(tape, n - 1);
    }
  }

  ghost predicate InodeAt(tape: Tape, n: nat, ino: nat) {
    n in tape && HeaderOf(tape[n]).Some? && HeaderOf(tape[n]).value.Inode? && HeaderOf(tape[n]).value.ino == ino
  }

  /** Each inode has one header. */
  ghost predicate OneHeaderEach(tape: Tape) {
    forall a, b, ino :: InodeAt(tape, a, ino) && InodeAt(tape, b, ino) ==> a == b
  }

  lemma {:induction false} TakeGrows(s: State)
    ensures Take(s).0.cur == s.cur && Take(s).0.logical >= s.logical
    ensures Take(s).1.Some? ==> s.logical <= Take(s).1.value < Take(s).0.logical
    decreases |s.amap| - s.ai
  {
    if s.ai < |s.amap| && s.amap[s.ai] == 0 {
      TakeGrows(s.(ai := s.ai + 1, logical := s.logical + 1));
    }
  }

  /** After a record of an inode, until another header for it, its logical blocks only go up. */
  lemma {:induction false} LogicalGrows(tape: Tape, a: nat, b: nat, ino: nat, x: nat)
    requires a < b && Slot(tape, a) == Some((ino, x)) && (forall m :: a < m < b ==> !InodeAt(tape, m, ino)) && Before(tape, b).cur == Some(ino)
    ensures Before(tape, b).logical > x
    decreases b
  {
    hide HeaderOf, Take;
    var s := Before(tape, b - 1);
    TakeGrows(s);
    if b - 1 > a {
      assert !InodeAt(tape, b - 1, ino);
      LogicalGrows(tape, a, b - 1, ino, x);
    }
  }

  /** The last header of an inode at or before n, if the state belongs to it. */
  lemma {:induction false} HeaderBefore(tape: Tape, n: nat, ino: nat) returns (h: nat)
    requires Before(tape, n).cur == Some(ino)
    ensures h < n && InodeAt(tape, h, ino)
  {
    hide HeaderOf, Take;
    TakeGrows(Before(tape, n - 1));
    if InodeAt(tape, n - 1, ino) {
      h := n - 1;
    } else {
      h := HeaderBefore(tape, n - 1, ino);
    }
  }

  /** With one header for each inode, no two records belong in one place. */
  lemma SlotsDiffer(tape: Tape, a: nat, b: nat)
    requires OneHeaderEach(tape) && a < b && Slot(tape, a).Some? && Slot(tape, b).Some?
    ensures Slot(tape, a) != Slot(tape, b)
  {
    hide HeaderOf, Take, Before;
    var (ino, x) := Slot(tape, a).value;
    if Slot(tape, b).value.0 == ino {
      var h := HeaderBefore(tape, a, ino);
      LogicalGrows(tape, a, b, ino, x);
      TakeGrows(Before(tape, b));
    }
  }

  /** No two of the first n records belong in one place. */
  ghost predicate Unshared(tape: Tape, n: nat) {
    forall a: nat, b: nat :: a < b < n && Slot(tape, a).Some? ==> Slot(tape, a) != Slot(tape, b)
  }

  lemma OneHeaderUnshared(tape: Tape, n: nat)
    requires OneHeaderEach(tape)
    ensures Unshared(tape, n)
  {
    hide OneHeaderEach, Slot;
    forall a: nat, b: nat | a < b < n && Slot(tape, a).Some?
      ensures Slot(tape, a) != Slot(tape, b)
    {
      if Slot(tape, b).Some? {
        SlotsDiffer(tape, a, b);
      }
    }
  }

  /** A block is found exactly if some record belongs there. */
  lemma {:induction false} FoundHas(tape: Tape, n: nat, k: (nat, nat))
    ensures k in Found(tape, n) <==> exists m: nat :: m < n && Slot(tape, m) == Some(k)
  {
    hide Slot;
    if n > 0 {
      FoundHas(tape, n - 1, k);
      assert Slot(tape, n - 1).Some? ==> n - 1 in tape by { SlotIn(tape, n - 1); }
      if Slot(tape, n - 1) == Some(k) {
        assert k in Found(tape, n);
      }
    }
  }

  lemma SlotIn(tape: Tape, n: nat)
    ensures Slot(tape, n).Some? ==> IsData(tape, n)
  {
    hide Before, Take, HeaderOf;
  }

  /** If places are not shared, a block found is the record that belongs there. */
  lemma {:induction false} FoundBy(tape: Tape, n: nat, m: nat, k: (nat, nat))
    requires Unshared(tape, n) && m < n && Slot(tape, m) == Some(k)
    ensures k in Found(tape, n) && m in tape && Found(tape, n)[k] == tape[m]
  {
    hide Slot;
    SlotIn(tape, m);
    SlotIn(tape, n - 1);
    if m < n - 1 {
      FoundBy(tape, n - 1, m, k);
      assert Slot(tape, m) != Slot(tape, n - 1);
    }
  }

  /** The loss takes block k exactly if it takes a record that belongs there. */
  ghost predicate Local(tape: Tape, lost: set<nat>, n: nat, k: (nat, nat)) {
    k in Found(tape - lost, n) <==> k in Found(tape, n) && !exists m: nat :: m in lost && m < n && Slot(tape, m) == Some(k)
  }

  /** Losing data records deletes their logical blocks, and changes and moves no other; inodes and their sizes stay. */
  lemma LossIsLocal(tape: Tape, lost: set<nat>, n: nat, k: (nat, nat))
    requires Unshared(tape, n) && OnlyData(tape, lost)
    ensures Local(tape, lost, n, k)
    ensures k in Found(tape - lost, n) ==> k in Found(tape, n) && Found(tape - lost, n)[k] == Found(tape, n)[k]
    ensures Sizes(tape - lost, n) == Sizes(tape, n)
  {
    hide HeaderOf, Take, Before, Slot, Found, IsData, Sizes;
    SizesKept(tape, lost, n);
    FoundHas(tape, n, k);
    FoundHas(tape - lost, n, k);
    forall m: nat
      ensures m !in lost ==> Slot(tape - lost, m) == Slot(tape, m)
      ensures m in lost ==> Slot(tape - lost, m) == None
    {
      SlotKept(tape, lost, m);
    }
    if m: nat :| m < n && Slot(tape, m) == Some(k) && m !in lost {
      FoundBy(tape, n, m, k);
      FoundBy(tape - lost, n, m, k);
    }
  }

  /** Every loss is local if and only if no two records belong in one place. */
  lemma LossExact(tape: Tape, n: nat)
    ensures Unshared(tape, n) <==> forall lost: set<nat>, k: (nat, nat) :: OnlyData(tape, lost) ==> Local(tape, lost, n, k)
  {
    hide Slot, Found, IsData, Local;
    if Unshared(tape, n) {
      forall lost: set<nat>, k: (nat, nat) | OnlyData(tape, lost)
        ensures Local(tape, lost, n, k)
      {
        LossIsLocal(tape, lost, n, k);
      }
    } else {
      var a: nat, b: nat :| a < b < n && Slot(tape, a).Some? && Slot(tape, a) == Slot(tape, b);
      SharedNotLocal(tape, n, a, b);
      assert OnlyData(tape, {b}) && !Local(tape, {b}, n, Slot(tape, b).value);
    }
  }

  /** Where two records share a place, losing the later one brings the earlier one back. */
  lemma SharedNotLocal(tape: Tape, n: nat, a: nat, b: nat)
    requires a < b < n && Slot(tape, a).Some? && Slot(tape, a) == Slot(tape, b)
    ensures OnlyData(tape, {b}) && !Local(tape, {b}, n, Slot(tape, b).value)
  {
    hide Slot, Found;
    SlotIn(tape, b);
    SlotKept(tape, {b}, a);
    FoundHas(tape - {b}, n, Slot(tape, b).value);
  }

  /** Past the highest record there is nothing to find. */
  lemma {:induction false} FoundBeyond(tape: Tape, last: nat, n: nat)
    requires (forall k :: k in tape ==> k <= last) && n > last
    ensures Found(tape, n) == Found(tape, last + 1) && Sizes(tape, n) == Sizes(tape, last + 1) && Order(tape, n) == Order(tape, last + 1)
  {
    hide HeaderOf, Take, Before;
    if n > last + 1 {
      FoundBeyond(tape, last, n - 1);
    }
  }

  lemma {:induction false} OrderKept(tape: Tape, lost: set<nat>, n: nat)
    requires OnlyData(tape, lost)
    ensures Order(tape - lost, n) == Order(tape, n)
  {
    hide HeaderOf;
    if n > 0 {
      OrderKept(tape, lost, n - 1);
      assert n - 1 in lost ==> IsData(tape, n - 1);
    }
  }

  /**
   What parse makes of the damaged tape, whose highest record may be a lower one: the same inodes, sizes and order, and
   the same blocks but for those whose records were lost.
   */
  lemma ParseAfterLoss(tape: Tape, last: nat, lost: set<nat>, last': nat, k: (nat, nat))
    requires IsLast(tape, last) && IsLast(tape - lost, last') && OnlyData(tape, lost) && Unshared(tape, last + 1)
    ensures var p, p' := ParsedOf(tape, last + 1), ParsedOf(tape - lost, last' + 1);
      && p'.sizes == p.sizes && p'.order == p.order
      && (k in p'.blocks <==> k in p.blocks && !exists m: nat :: m in lost && Slot(tape, m) == Some(k))
      && (k in p'.blocks ==> p'.blocks[k] == p.blocks[k])
  {
    hide HeaderOf, Take, Before, Slot, Found, Sizes, Order, Unshared, IsData;
    LossIsLocal(tape, lost, last + 1, k);
    OrderKept(tape, lost, last + 1);
    assert last' in tape && last' <= last;
    FoundBeyond(tape - lost, last', last + 1);
    forall m: nat | m in lost
      ensures m < last + 1
    {
      DataIn(tape, lost, m);
    }
  }

  lemma DataIn(tape: Tape, lost: set<nat>, m: nat)
    requires OnlyData(tape, lost) && m in lost
    ensures m in tape
  {
    hide HeaderOf;
  }

  /** filedata: lost and unmapped blocks come back as zeros. */
  function ByteOf(blocks: map<(nat, nat), Block>, ino: nat, o: nat): Byte {
    if (ino, o / 512) in blocks then blocks[(ino, o / 512)][o % 512] else 0
  }

  method FileData(ino: nat, size: nat, blocks: map<(nat, nat), Block>) returns (out: seq<Byte>)
    ensures |out| == size && forall o :: 0 <= o < size ==> out[o] == ByteOf(blocks, ino, o)
    ensures forall o :: 0 <= o < size ==> out[o] == if (ino, o / 512) in blocks then blocks[(ino, o / 512)][o % 512] else 0
  {
    out := [];
    var n := (size + 511) / 512;
    for lb := 0 to n
      invariant |out| == 512 * lb && forall o :: 0 <= o < |out| ==> out[o] == ByteOf(blocks, ino, o)
    {
      ghost var was := out;
      var b: Block := if (ino, lb) in blocks then blocks[(ino, lb)] else Zero();
      out := out + b;
      forall o | 512 * lb <= o < |out|
        ensures out[o] == ByteOf(blocks, ino, o)
      {
        assert o / 512 == lb && o % 512 == o - 512 * lb;
      }
    }
    out := out[..size];
  }

  /** A file read from a damaged tape has the right byte, or zero where its record was lost. */
  lemma DamagedFile(tape: Tape, lost: set<nat>, n: nat, ino: nat, o: nat)
    requires Unshared(tape, n) && OnlyData(tape, lost)
    ensures ByteOf(Found(tape - lost, n), ino, o)
            == if exists m: nat :: m in lost && m < n && Slot(tape, m) == Some((ino, o / 512)) then 0 else ByteOf(Found(tape, n), ino, o)
  {
    hide HeaderOf, Take, Before, Slot, Found, IsData, Unshared;
    LossIsLocal(tape, lost, n, (ino, o / 512));
  }

  /** A TS_INODE header for inode ino with a map of one block; its words but for six are zero. */
  function OneBlockHeader(ino: Byte, cks: nat): (r: Block)
    requires cks < 65536
    ensures forall o :: 0 <= o < 512 ==> r[o] == HeaderByte(ino, cks, o)
  {
    seq(512, o => HeaderByte(ino, cks, o))
  }

  function HeaderByte(ino: Byte, cks: nat, o: int): Byte
    requires cks < 65536
  {
    if o == 1 then 2
    else if o == 17 then ino
    else if o == 18 then MAGIC / 256
    else if o == 19 then MAGIC % 256
    else if o == 20 then cks / 256
    else if o == 21 then cks % 256
    else if o == 87 then 1
    else if o == 88 then 1
    else 0
  }

  lemma {:induction false} ZeroWords(r: Block, a: nat, b: nat)
    requires a <= b <= 256 && forall o :: 2 * a <= o < 2 * b ==> r[o] == 0
    ensures WordSum(r, b) == WordSum(r, a)
  {
    if a < b {
      ZeroWords(r, a, b - 1);
    }
  }

  lemma OneBlockSum(r: Block, ino: Byte, cks: nat)
    requires cks < 65536 && r == OneBlockHeader(ino, cks)
    ensures WordSum(r, 256) == 2 + ino + MAGIC + cks + 1 + 256
    ensures Word(r, 0) == 2 && Word(r, 16) == ino && Word(r, 18) == MAGIC && Word(r, 86) == 1 && r[88] == 1
  {
    ZeroWords(r, 1, 8);
    ZeroWords(r, 11, 43);
    ZeroWords(r, 45, 256);
    assert WordSum(r, 1) == WordSum(r, 0) + Word(r, 0);
    assert WordSum(r, 9) == WordSum(r, 8) + Word(r, 16);
    assert WordSum(r, 10) == WordSum(r, 9) + Word(r, 18);
    assert WordSum(r, 11) == WordSum(r, 10) + Word(r, 20);
    assert WordSum(r, 44) == WordSum(r, 43) + Word(r, 86);
    assert WordSum(r, 45) == WordSum(r, 44) + Word(r, 88);
  }

  lemma OneBlockIs()
    ensures HeaderOf(OneBlockHeader(5, 24171)).Some?
    ensures var h := HeaderOf(OneBlockHeader(5, 24171)).value; h.Inode? && h.ino == 5 && h.amap == [1]
  {
    var r := OneBlockHeader(5, 24171);
    OneBlockSum(r, 5, 24171);
    hide WordSum, OneBlockHeader;
    assert r[88..89] == [r[88]];
  }

  /** A tape where two records share a place: a header for inode 5 and its block, twice. */
  function TwiceDumped(): Tape {
    var h := OneBlockHeader(5, 24171);
    map[0 := h, 1 := Zero(), 2 := h, 3 := Zero()]
  }

  lemma SharedPlace()
    ensures var t := TwiceDumped();
      && Slot(t, 1) == Some((5, 0)) && Slot(t, 3) == Some((5, 0)) && !Unshared(t, 4) && OnlyData(t, {3}) && !Local(t, {3}, 4, (5, 0))
  {
    hide OneBlockHeader, WordSum, Found, Local;
    var t := TwiceDumped();
    OneBlockIs();
    ZeroIsData();
    assert Before(t, 0) == Start();
    assert Before(t, 1) == State(Some(5), [1], 0, 0);
    assert Before(t, 2) == State(Some(5), [1], 1, 1);
    assert Before(t, 3) == State(Some(5), [1], 0, 0);
    SharedNotLocal(t, 4, 1, 3);
  }

  lemma ZeroIsData()
    ensures HeaderOf(Zero()) == None
  {
    hide WordSum;
  }

  /** How many blocks the first j places of the map have. */
  function MappedIn(amap: seq<Byte>, j: nat): nat
    requires j <= |amap|
  {
    if j == 0 then 0 else MappedIn(amap, j - 1) + if amap[j - 1] != 0 then 1 else 0
  }

  lemma {:induction false} MappedSkip(amap: seq<Byte>, a: nat, j: nat)
    requires a <= j <= |amap| && forall i :: a <= i < j ==> amap[i] == 0
    ensures MappedIn(amap, j) == MappedIn(amap, a)
    decreases j - a
  {
    if a < j {
      MappedSkip(amap, a, j - 1);
    }
  }

  lemma {:induction false} MappedMore(amap: seq<Byte>, a: nat, b: nat)
    requires a <= b <= |amap|
    ensures MappedIn(amap, a) <= MappedIn(amap, b)
    decreases b - a
  {
    if a < b {
      MappedMore(amap, a, b - 1);
    }
  }

  /** Records from a up to b are data, or lost: nothing but what takes slots of the map in force at a. */
  ghost predicate Plain(tape: Tape, a: nat, b: nat) {
    forall n :: a <= n < b ==> n !in tape || IsData(tape, n)
  }

  /** The state after so many slots of a map have been taken from its beginning, which was logical block base. */
  ghost predicate TookSlots(s: State, cur: Option<nat>, amap: seq<Byte>, base: nat, k: nat) {
    && s.cur == cur && s.amap == amap && s.ai <= |amap| && s.logical == base + s.ai
    && if k <= MappedIn(amap, |amap|) then MappedIn(amap, s.ai) == k && (s.ai > 0 ==> amap[s.ai - 1] != 0) else s.ai == |amap|
  }

  /** One record more takes the next slot. */
  lemma TookNext(s: State, cur: Option<nat>, amap: seq<Byte>, base: nat, k: nat)
    requires TookSlots(s, cur, amap, base, k)
    ensures TookSlots(Take(s).0, cur, amap, base, k + 1)
    ensures k < MappedIn(amap, |amap|) ==> Take(s).1.Some? && Take(s).1.value >= base && PlaceOf(amap, k, Take(s).1.value - base)
    ensures k >= MappedIn(amap, |amap|) ==> Take(s).1.None?
  {
    var j := FirstMapped(amap, s.ai);
    TakeIs(s, j);
    MappedSkip(amap, s.ai, j);
    if j < |amap| {
      MappedMore(amap, j + 1, |amap|);
    }
  }

  lemma FirstMapped(amap: seq<Byte>, a: nat) returns (j: nat)
    requires a <= |amap|
    ensures NextMapped(amap, a, j)
  {
    j := a;
    while j < |amap| && amap[j] == 0
      invariant a <= j <= |amap| && forall i :: a <= i < j ==> amap[i] == 0
    {
      j := j + 1;
    }
  }

  lemma {:induction false} TookAll(tape: Tape, h: nat, n: nat, ino: nat, amap: seq<Byte>, base: nat)
    requires h < n && Plain(tape, h + 1, n) && TookSlots(Before(tape, h + 1), Some(ino), amap, base, 0)
    ensures TookSlots(Before(tape, n), Some(ino), amap, base, n - h - 1)
    decreases n
  {
    hide HeaderOf, Take, TookSlots;
    if n > h + 1 {
      TookAll(tape, h, n - 1, ino, amap, base);
      TookNext(Before(tape, n - 1), Some(ino), amap, base, n - h - 2);
      CurIs(Before(tape, n - 1), Some(ino), amap, base, n - h - 2);
    }
  }

  lemma CurIs(s: State, cur: Option<nat>, amap: seq<Byte>, base: nat, k: nat)
    requires TookSlots(s, cur, amap, base, k)
    ensures s.cur == cur
  {
  }

  /**
   The k-th record after an inode's header, with no header in between and whether or not records are lost, is the
   block of that inode whose number is the place of the map's k-th nonzero entry; past the last such entry it is an
   orphan.
   */
  lemma KthBlock(tape: Tape, h: nat, k: nat)
    requires h in tape && HeaderOf(tape[h]).Some? && HeaderOf(tape[h]).value.Inode? && Plain(tape, h + 1, h + 1 + k) && IsData(tape, h + 1 + k)
    ensures var d := HeaderOf(tape[h]).value;
      if k < MappedIn(d.amap, |d.amap|)
      then Slot(tape, h + 1 + k).Some? && Slot(tape, h + 1 + k).value.0 == d.ino && PlaceOf(d.amap, k, Slot(tape, h + 1 + k).value.1)
      else Slot(tape, h + 1 + k) == None
  {
    hide HeaderOf, Take;
    var d := HeaderOf(tape[h]).value;
    TookAll(tape, h, h + 1 + k, d.ino, d.amap, 0);
    TookNext(Before(tape, h + 1 + k), Some(d.ino), d.amap, 0, k);
  }

  /** Entry j of the map is not zero, and k entries before it are not. */
  ghost predicate PlaceOf(amap: seq<Byte>, k: nat, j: nat) {
    j < |amap| && amap[j] != 0 && MappedIn(amap, j) == k
  }

  /** A continuation header goes on with its own map from the logical block after the last place of the map before it. */
  lemma KthContinued(tape: Tape, h: nat, ino: nat, base: nat, k: nat)
    requires h in tape && HeaderOf(tape[h]).Some? && HeaderOf(tape[h]).value.Addr? && Plain(tape, h + 1, h + 1 + k) && IsData(tape, h + 1 + k)
    requires Before(tape, h).cur == Some(ino) && Before(tape, h).logical == base
    ensures var d := HeaderOf(tape[h]).value;
      if k < MappedIn(d.amap, |d.amap|)
      then Slot(tape, h + 1 + k).Some? && Slot(tape, h + 1 + k).value.0 == ino && Slot(tape, h + 1 + k).value.1 >= base
        && PlaceOf(d.amap, k, Slot(tape, h + 1 + k).value.1 - base)
      else Slot(tape, h + 1 + k) == None
  {
    hide HeaderOf, Take;
    var d := HeaderOf(tape[h]).value;
    TookAll(tape, h, h + 1 + k, ino, d.amap, base);
    TookNext(Before(tape, h + 1 + k), Some(ino), d.amap, base, k);
  }

  lemma PlaceUnique(amap: seq<Byte>, k: nat, j: nat, j': nat)
    requires PlaceOf(amap, k, j) && PlaceOf(amap, k, j')
    ensures j == j'
  {
    if j < j' {
      MappedMore(amap, j + 1, j');
    } else if j' < j {
      MappedMore(amap, j' + 1, j);
    }
  }

  /** So parse files the k-th data record after an inode's header under the place of the map's k-th nonzero entry. */
  lemma ParsedBlock(tape: Tape, last: nat, h: nat, k: nat, j: nat)
    requires IsLast(tape, last) && Unshared(tape, last + 1)
    requires h in tape && HeaderOf(tape[h]).Some? && HeaderOf(tape[h]).value.Inode? && Plain(tape, h + 1, h + 1 + k) && IsData(tape, h + 1 + k)
    requires PlaceOf(HeaderOf(tape[h]).value.amap, k, j)
    ensures var d := HeaderOf(tape[h]).value;
      (d.ino, j) in ParsedOf(tape, last + 1).blocks && ParsedOf(tape, last + 1).blocks[(d.ino, j)] == tape[h + 1 + k]
  {
    hide HeaderOf, Slot;
    var d := HeaderOf(tape[h]).value;
    MappedMore(d.amap, j + 1, |d.amap|);
    KthBlock(tape, h, k);
    PlaceUnique(d.amap, k, j, Slot(tape, h + 1 + k).value.1);
    FoundBy(tape, last + 1, h + 1 + k, (d.ino, j));
  }

  /** What else parse finds: which records are missing, which belong nowhere, and each inode's size from its last header. */
  lemma {:induction false} ParsedMeans(tape: Tape, n: nat, m: nat)
    ensures m in Missing(tape, n) <==> m < n && m !in tape
    ensures m in Orphans(tape, n) <==> m < n && IsData(tape, m) && Slot(tape, m) == None
    ensures m in Sizes(tape, n) <==> exists h: nat :: h < n && InodeAt(tape, h, m)
    ensures TapeHeader(tape, n) == Some(m) ==> m < n && m in tape && HeaderOf(tape[m]) == Some(Header.Tape)
  {
    hide HeaderOf, Slot;
    if n > 0 {
      ParsedMeans(tape, n - 1, m);
      assert m in Sizes(tape, n) <==> m in Sizes(tape, n - 1) || InodeAt(tape, n - 1, m);
    }
  }

  /** The last header of an inode before n gives its size. */
  lemma {:induction false} SizeIs(tape: Tape, n: nat, h: nat, ino: nat)
    requires h < n && InodeAt(tape, h, ino) && forall g :: h < g < n ==> !InodeAt(tape, g, ino)
    ensures ino in Sizes(tape, n) && Sizes(tape, n)[ino] == HeaderOf(tape[h]).value.size
  {
    hide HeaderOf;
    if n - 1 > h {
      assert !InodeAt(tape, n - 1, ino);
      SizeIs(tape, n - 1, h, ino);
    }
  }

  /** The fields of a header, byte by byte: most significant byte first, with the map from byte 88 on. */
  lemma HeaderFields(r: Block)
    requires HeaderOf(r).Some?
    ensures r[18] as int * 256 + r[19] as int == 60011
    ensures HeaderOf(r).value.Tape? <==> r[0] == 0 && r[1] == 1
    ensures HeaderOf(r).value.Inode? <==> r[0] == 0 && r[1] == 2
    ensures HeaderOf(r).value.Addr? <==> r[0] == 0 && r[1] == 4
    ensures HeaderOf(r).value.Inode? ==>
      && HeaderOf(r).value.ino == r[16] as int * 256 + r[17] as int
      && HeaderOf(r).value.size == r[30] as int * 0x100_0000 + r[31] as int * 0x1_0000 + r[32] as int * 256 + r[33] as int
      && HeaderOf(r).value.tapea == r[12] as int * 0x100_0000 + r[13] as int * 0x1_0000 + r[14] as int * 256 + r[15] as int
    ensures var cnt := r[86] as int * 256 + r[87] as int;
      (HeaderOf(r).value.Inode? || HeaderOf(r).value.Addr?) && cnt <= 424 ==> HeaderOf(r).value.amap == r[88..88 + cnt]
  {
    hide WordSum;
  }

  /** The sum is the sum of all words: with word i changed it changes by as much. */
  lemma {:induction false} SumChanged(r: Block, r': Block, i: nat, n: nat)
    requires i < 256 && n <= 256 && forall k :: 0 <= k < 512 && k != 2 * i && k != 2 * i + 1 ==> r'[k] == r[k]
    ensures WordSum(r', n) - WordSum(r, n) == if i < n then Word(r', 2 * i) - Word(r, 2 * i) else 0
  {
    if n > 0 {
      SumChanged(r, r', i, n - 1);
    }
  }

  /** Magic number and checksum make a header; a header with one word damaged is none. */
  lemma HeaderChecked(r: Block, r': Block, i: nat)
    requires i < 256 && (forall k :: 0 <= k < 512 && k != 2 * i && k != 2 * i + 1 ==> r'[k] == r[k]) && Word(r', 2 * i) != Word(r, 2 * i)
    ensures HeaderOf(r).Some? <==> r[18] as int * 256 + r[19] as int == 60011 && WordSum(r, 256) % 65536 == 18910
    ensures HeaderOf(r).Some? ==> HeaderOf(r').None?
  {
    hide WordSum, AddrMap;
    HeaderIf(r);
    HeaderIf(r');
    hide HeaderOf;
    SumChanged(r, r', i, 256);
    Residues(WordSum(r, 256), WordSum(r', 256), Word(r', 2 * i) - Word(r, 2 * i));
  }

  lemma HeaderIf(r: Block)
    ensures HeaderOf(r).Some? <==> Word(r, 18) == MAGIC && WordSum(r, 256) % 65536 == 18910
  {
    hide WordSum, AddrMap;
  }

  lemma Residues(a: nat, b: nat, d: int)
    requires b == a + d && -65536 < d < 65536 && d != 0
    ensures a % 65536 != b % 65536
  {
    assert d == 65536 * (b / 65536 - a / 65536) + (b % 65536 - a % 65536);
  }
}
