/** The CRC-16 of tape blocks and XMODEM packets: a shift register, its table-driven form, and repair of one wrong bit. */
module Crc {
  import opened Arithmetic

  type Word = bv16
  type Octet = bv8

  const TAPE: Word := 0x8005
  const XMODEM: Word := 0x1021
  const XOROUT: Word := 0xC00C
  const RESIDUE: Word := 0x0027

  function Xor(a: Word, b: Word): Word {
    a ^ b
  }

  function Twice(a: Word): Word {
    a << 1
  }

  predicate Top(a: Word) {
    a & 0x8000 != 0
  }

  lemma XorLaws(a: Word, b: Word, c: Word)
    ensures Xor(a, b) == Xor(b, a)
    ensures Xor(Xor(a, b), c) == Xor(a, Xor(b, c))
    ensures Xor(a, a) == 0 && Xor(a, 0) == a
    ensures Xor(a, b) == 0 <==> a == b
    ensures Xor(Xor(a, b), b) == a
  {
    hide Xor;
    XorSwitch(a, b);
    XorRegroup(a, b, c);
    XorNull(a, b);
    XorBack(a, b);
  }

  lemma XorSwitch(a: Word, b: Word)
    ensures Xor(a, b) == Xor(b, a)
  {
  }

  lemma XorRegroup(a: Word, b: Word, c: Word)
    ensures Xor(Xor(a, b), c) == Xor(a, Xor(b, c))
  {
    PlainRegroup(a, b, c);
  }

  lemma PlainRegroup(a: Word, b: Word, c: Word)
    ensures (a ^ b) ^ c == a ^ (b ^ c)
  {
  }

  lemma XorNull(a: Word, b: Word)
    ensures Xor(a, a) == 0 && Xor(a, 0) == a
    ensures Xor(a, b) == 0 <==> a == b
  {
  }

  lemma XorBack(a: Word, b: Word)
    ensures Xor(Xor(a, b), b) == a
  {
    PlainBack(a, b);
  }

  lemma PlainBack(a: Word, b: Word)
    ensures (a ^ b) ^ b == a
  {
  }

  lemma PlainTwice(a: Word, b: Word)
    ensures (a ^ b) << 1 == (a << 1) ^ (b << 1) && ((a ^ b) & 0x8000 != 0 <==> (a & 0x8000 != 0) != (b & 0x8000 != 0))
  {
  }

  lemma XorSwap(a: Word, b: Word, c: Word, d: Word)
    ensures Xor(Xor(a, b), Xor(c, d)) == Xor(Xor(a, c), Xor(b, d))
  {
    hide Xor;
    XorLaws(a, b, Xor(c, d));
    XorLaws(b, c, d);
    XorLaws(c, b, d);
    XorLaws(a, c, Xor(b, d));
  }

  lemma TwiceXor(a: Word, b: Word)
    ensures Twice(Xor(a, b)) == Xor(Twice(a), Twice(b))
    ensures Top(Xor(a, b)) <==> Top(a) != Top(b)
  {
    PlainTwice(a, b);
  }

  /** One step of the register. */
  function Shift(c: Word, g: Word): Word {
    if Top(c) then Xor(Twice(c), g) else Twice(c)
  }

  function Shifts(c: Word, n: nat, g: Word): Word {
    if n == 0 then c else Shift(Shifts(c, n - 1, g), g)
  }

  lemma ShiftLinear(a: Word, b: Word, g: Word)
    ensures Shift(Xor(a, b), g) == Xor(Shift(a, g), Shift(b, g))
  {
    hide Xor, Twice, Top;
    TwiceXor(a, b);
    var x, y := Twice(a), Twice(b);
    XorLaws(x, y, g);
    XorLaws(x, g, y);
    XorLaws(y, g, x);
    XorSwap(x, g, y, g);
    XorLaws(g, g, x);
    XorLaws(Xor(x, y), 0, 0);
  }

  /** With the low bit of the polynomial set nothing but zero shifts to zero. */
  lemma ShiftZero(c: Word, g: Word)
    requires g & 1 == 1
    ensures Shift(c, g) == 0 <==> c == 0
  {
  }

  lemma {:induction false} ShiftsLinear(a: Word, b: Word, n: nat, g: Word)
    ensures Shifts(Xor(a, b), n, g) == Xor(Shifts(a, n, g), Shifts(b, n, g))
  {
    hide Shift, Xor;
    if n > 0 {
      ShiftsLinear(a, b, n - 1, g);
      ShiftLinear(Shifts(a, n - 1, g), Shifts(b, n - 1, g), g);
    }
  }

  lemma {:induction false} ShiftsZero(c: Word, n: nat, g: Word)
    requires g & 1 == 1
    ensures Shifts(c, n, g) == 0 <==> c == 0
  {
    hide Shift;
    if n > 0 {
      ShiftsZero(c, n - 1, g);
      ShiftZero(Shifts(c, n - 1, g), g);
    }
  }

  lemma {:induction false} ShiftsSum(c: Word, m: nat, n: nat, g: Word)
    ensures Shifts(Shifts(c, m, g), n, g) == Shifts(c, m + n, g)
  {
    hide Shift;
    if n > 0 {
      ShiftsSum(c, m, n - 1, g);
    }
  }

  /** Different contents stay different. */
  lemma ShiftsInjective(a: Word, b: Word, n: nat, g: Word)
    requires g & 1 == 1
    ensures Shifts(a, n, g) == Shifts(b, n, g) <==> a == b
  {
    hide Xor, Shifts;
    ShiftsLinear(a, b, n, g);
    XorLaws(Shifts(a, n, g), Shifts(b, n, g), 0);
    ShiftsZero(Xor(a, b), n, g);
    XorLaws(a, b, 0);
  }

  function Wide(b: Octet): (w: Word)
    ensures w < 256
  {
    b as Word
  }

  /** A byte at the top of the register. */
  function High(b: Octet): Word {
    Wide(b) << 8
  }

  /** The eight steps for one byte, as tcc_crc and crc16_xmodem make them. */
  function Feed(c: Word, b: Octet, g: Word): Word {
    Shifts(Xor(c, High(b)), 8, g)
  }

  /** Eight steps written out. */
  lemma FeedEight(c: Word, b: Octet, g: Word)
    ensures var x := Shift(Shift(Shift(Shift(c ^ ((b as Word) << 8), g), g), g), g);
      Feed(c, b, g) == Shift(Shift(Shift(Shift(x, g), g), g), g)
  {
    hide Shift;
    var x := Xor(c, High(b));
    assert Shifts(x, 0, g) == x;
    assert Shifts(x, 1, g) == Shift(x, g);
    assert Shifts(x, 2, g) == Shift(Shift(x, g), g);
    assert Shifts(x, 3, g) == Shift(Shifts(x, 2, g), g);
    assert Shifts(x, 4, g) == Shift(Shifts(x, 3, g), g);
    assert Shifts(x, 5, g) == Shift(Shifts(x, 4, g), g);
    assert Shifts(x, 6, g) == Shift(Shifts(x, 5, g), g);
    assert Shifts(x, 7, g) == Shift(Shifts(x, 6, g), g);
    assert Shifts(x, 8, g) == Shift(Shifts(x, 7, g), g);
  }

  function Serial(c: Word, data: seq<Octet>, g: Word): Word {
    if data == [] then c else Feed(Serial(c, data[..|data| - 1], g), data[|data| - 1], g)
  }

  /** A low byte moves up unchanged. */
  lemma EightLow(c: Word, g: Word)
    requires c < 256
    ensures Shifts(c, 8, g) == c << 8
  {
    hide Shift;
    assert Shifts(c, 0, g) == c;
    assert Shifts(c, 1, g) == c << 1 by { LowStep(c, g); }
    assert Shifts(c, 2, g) == c << 2 by { LowStep(c, g); }
    assert Shifts(c, 3, g) == c << 3 by { LowStep(c, g); }
    assert Shifts(c, 4, g) == c << 4 by { LowStep(c, g); }
    assert Shifts(c, 5, g) == c << 5 by { LowStep(c, g); }
    assert Shifts(c, 6, g) == c << 6 by { LowStep(c, g); }
    assert Shifts(c, 7, g) == c << 7 by { LowStep(c, g); }
    assert Shifts(c, 8, g) == c << 8 by { LowStep(c, g); }
  }

  lemma LowStep(c: Word, g: Word)
    requires c < 256
    ensures Shift(c, g) == c << 1
    ensures Shift(c << 1, g) == c << 2
    ensures Shift(c << 2, g) == c << 3
    ensures Shift(c << 3, g) == c << 4
    ensures Shift(c << 4, g) == c << 5
    ensures Shift(c << 5, g) == c << 6
    ensures Shift(c << 6, g) == c << 7
    ensures Shift(c << 7, g) == c << 8
  {
  }

  /** A register is its high byte and its low byte. */
  lemma Halves(c: Word, b: Octet)
    ensures c & 0xFF < 256
    ensures Xor(c, High(b)) == Xor(((c >> 8) ^ Wide(b)) << 8, c & 0xFF)
    ensures (c & 0xFF) << 8 == c << 8
    ensures (c >> 8) ^ Wide(b) < 256
  {
    HalvesPlain(c, Wide(b));
  }

  lemma HalvesPlain(c: Word, b: Word)
    requires b < 256
    ensures c & 0xFF < 256 && c ^ (b << 8) == (((c >> 8) ^ b) << 8) ^ (c & 0xFF) && (c & 0xFF) << 8 == c << 8 && (c >> 8) ^ b < 256
  {
  }

  /** What feeding a byte comes to: a table entry for the top byte, and the low byte moved up. */
  lemma FeedByTable(c: Word, b: Octet, g: Word)
    ensures Feed(c, b, g) == Xor(c << 8, Shifts(((c >> 8) ^ Wide(b)) << 8, 8, g))
  {
    hide Xor, Shifts, High, Wide;
    Halves(c, b);
    var h, l := ((c >> 8) ^ Wide(b)) << 8, c & 0xFF;
    ShiftsLinear(h, l, 8, g);
    EightLow(l, g);
    XorLaws(Shifts(h, 8, g), Shifts(l, 8, g), 0);
  }

  function Index(w: Word): (n: nat)
    requires w < 256
    ensures n < 256
  {
    w as nat
  }

  lemma IndexBack(w: Word)
    requires w < 256
    ensures Index(w) as Word == w
  {
  }

  /** The table: entry i is what eight steps make of i in the top byte. */
  ghost predicate Table(tab: seq<Word>, g: Word) {
    |tab| == 256 && forall i: Word :: i < 256 ==> tab[Index(i)] == Shifts(i << 8, 8, g)
  }

  method BuildTable(g: Word) returns (tab: seq<Word>)
    ensures Table(tab, g)
  {
    hide Shifts, Shift;
    tab := [];
    for i := 0 to 256
      invariant |tab| == i && forall j :: 0 <= j < i ==> tab[j] == Shifts((j as Word) << 8, 8, g)
    {
      var c := (i as Word) << 8;
      ghost var c0 := c;
      ShiftsNone(c, g);
      for k := 0 to 8
        invariant c == Shifts(c0, k, g)
      {
        ShiftsNext(c0, k, g);
        c := Shift(c, g);
      }
      tab := tab + [c];
    }
    forall i: Word | i < 256
      ensures tab[Index(i)] == Shifts(i << 8, 8, g)
    {
      IndexBack(i);
    }
  }

  lemma ShiftsNone(c: Word, g: Word)
    ensures Shifts(c, 0, g) == c
  {
  }

  lemma ShiftsNext(c: Word, n: nat, g: Word)
    ensures Shifts(c, n + 1, g) == Shift(Shifts(c, n, g), g)
  {
  }

  /** The table-driven loop gives what the register gives, bit by bit. */
  method TableCrc(data: seq<Octet>, tab: seq<Word>, g: Word) returns (c: Word)
    requires Table(tab, g)
    ensures c == Serial(0, data, g)
  {
    hide Shifts, Xor, Feed;
    c := 0;
    for i := 0 to |data|
      invariant c == Serial(0, data[..i], g)
    {
      Halves(c, data[i]);
      FeedByTable(c, data[i], g);
      assert data[..i + 1][..i] == data[..i];
      c := Xor(c << 8, tab[Index((c >> 8) ^ Wide(data[i]))]);
    }
    assert data[..|data|] == data;
  }

  function Hi(w: Word): Octet {
    (w >> 8) as Octet
  }

  function Lo(w: Word): Octet {
    (w & 0xFF) as Octet
  }

  /** Two bytes, high one first. */
  function Join(h: Octet, l: Octet): Word {
    Xor(High(h), Wide(l))
  }

  lemma JoinSplit(w: Word)
    ensures Join(Hi(w), Lo(w)) == w
  {
    WideHalves(w);
    hide Wide, Hi, Lo;
    JoinPlain(w);
  }

  lemma WideHalves(w: Word)
    ensures Wide(Hi(w)) == w >> 8 && Wide(Lo(w)) == w & 0xFF
  {
  }

  lemma JoinPlain(w: Word)
    ensures ((w >> 8) << 8) ^ (w & 0xFF) == w
  {
  }

  /** Two more bytes are sixteen steps of the register with the bytes added to it. */
  lemma FeedTwo(c: Word, h: Octet, l: Octet, g: Word)
    ensures Feed(Feed(c, h, g), l, g) == Shifts(Xor(c, Join(h, l)), 16, g)
  {
    hide Xor, Shifts, High, Wide;
    var a, w := Xor(c, High(h)), Wide(l);
    HighIsShifts(l, g);
    ShiftsLinear(a, w, 8, g);
    ShiftsSum(Xor(a, w), 8, 8, g);
    XorLaws(c, High(h), w);
  }

  lemma HighIsShifts(l: Octet, g: Word)
    ensures High(l) == Shifts(Wide(l), 8, g)
  {
    hide Shifts;
    EightLow(Wide(l), g);
  }

  lemma SerialTwo(data: seq<Octet>, h: Octet, l: Octet, g: Word)
    ensures Serial(0, data + [h, l], g) == Shifts(Xor(Serial(0, data, g), Join(h, l)), 16, g)
  {
    hide Feed, Shifts, Xor, Join;
    var d := data + [h, l];
    assert d[..|d| - 1] == data + [h] && (data + [h])[..|data|] == data;
    FeedTwo(Serial(0, data, g), h, l, g);
  }

  /** A message and two more bytes have CRC zero exactly when the two bytes are the message's CRC. */
  lemma TrailerZero(data: seq<Octet>, h: Octet, l: Octet, g: Word)
    requires g & 1 == 1
    ensures Serial(0, data + [h, l], g) == 0 <==> Join(h, l) == Serial(0, data, g)
  {
    hide Serial, Shifts, Xor, Join;
    SerialTwo(data, h, l, g);
    ShiftsZero(Xor(Serial(0, data, g), Join(h, l)), 16, g);
    XorLaws(Serial(0, data, g), Join(h, l), 0);
  }

  /** The CRC as it is stored on tape. */
  function BlockCrc(payload: seq<Octet>): Word {
    Xor(Serial(0, payload, TAPE), XOROUT)
  }

  lemma ResidueIs()
    ensures Shifts(XOROUT, 16, TAPE) == RESIDUE
  {
    assert Shifts(XOROUT, 1, TAPE) == 0x001D;
    assert Shifts(XOROUT, 2, TAPE) == 0x003A;
    assert Shifts(XOROUT, 3, TAPE) == 0x0074;
    assert Shifts(XOROUT, 4, TAPE) == 0x00E8;
    assert Shifts(XOROUT, 5, TAPE) == 0x01D0;
    assert Shifts(XOROUT, 6, TAPE) == 0x03A0;
    assert Shifts(XOROUT, 7, TAPE) == 0x0740;
    assert Shifts(XOROUT, 8, TAPE) == 0x0E80;
    assert Shifts(XOROUT, 9, TAPE) == 0x1D00;
    assert Shifts(XOROUT, 10, TAPE) == 0x3A00;
    assert Shifts(XOROUT, 11, TAPE) == 0x7400;
    assert Shifts(XOROUT, 12, TAPE) == 0xE800;
    assert Shifts(XOROUT, 13, TAPE) == 0x5005;
    assert Shifts(XOROUT, 14, TAPE) == 0xA00A;
    assert Shifts(XOROUT, 15, TAPE) == 0xC011;
    assert Shifts(XOROUT, 16, TAPE) == 0x0027;
  }

  /** Over a whole record the CRC leaves the constant residue exactly when the stored CRC is right. */
  lemma RecordResidue(payload: seq<Octet>, stored: Word)
    ensures Serial(0, payload + [Hi(stored), Lo(stored)], TAPE) == RESIDUE <==> stored == BlockCrc(payload)
  {
    hide Serial, Shifts, Xor, Join, Hi, Lo;
    var c := Serial(0, payload, TAPE);
    SerialTwo(payload, Hi(stored), Lo(stored), TAPE);
    JoinSplit(stored);
    ResidueIs();
    ShiftsInjective(Xor(c, stored), XOROUT, 16, TAPE);
    XorLaws(c, stored, XOROUT);
    XorLaws(stored, c, XOROUT);
    XorLaws(c, XOROUT, stored);
    XorLaws(XOROUT, c, stored);
  }

  function Bit(k: nat): Octet
    requires k < 8
  {
    [1, 2, 4, 8, 16, 32, 64, 128][k]
  }

  function Flip(data: seq<Octet>, pos: nat, bit: nat): (r: seq<Octet>)
    requires pos < |data| && bit < 8
    ensures |r| == |data|
  {
    data[pos := data[pos] ^ Bit(bit)]
  }

  /** The register n steps after a lone bit. */
  function Pow(n: nat, g: Word): Word {
    Shifts(1, n, g)
  }

  lemma HighFlip(b: Octet, m: Octet)
    ensures High(b ^ m) == Xor(High(b), High(m))
  {
    assert Wide(b ^ m) == Wide(b) ^ Wide(m);
    HighPlain(Wide(b), Wide(m));
  }

  lemma HighPlain(b: Word, m: Word)
    ensures (b ^ m) << 8 == (b << 8) ^ (m << 8)
  {
  }

  lemma {:induction false} UnitHigh(k: nat, g: Word)
    requires k < 8
    ensures High(Bit(k)) == Pow(8 + k, g)
  {
    hide Shifts;
    EightLow(1, g);
    if k > 0 {
      UnitHigh(k - 1, g);
      ShiftsNext(1, 8 + k - 1, g);
      UnitNext(k, g);
    }
  }

  lemma UnitNext(k: nat, g: Word)
    requires 0 < k < 8
    ensures Shift(High(Bit(k - 1)), g) == High(Bit(k))
  {
  }

  /** How far the flipped bit is from the end of the register's run. */
  function Dist(n: nat, pos: nat, bit: nat): nat
    requires pos < n
  {
    8 * (n - pos) + 8 + bit
  }

  /** Flipping one bit changes the CRC by that bit's syndrome. */
  lemma {:induction false} FlipEffect(data: seq<Octet>, pos: nat, bit: nat, g: Word)
    requires pos < |data| && bit < 8
    ensures Serial(0, Flip(data, pos, bit), g) == Xor(Serial(0, data, g), Pow(Dist(|data|, pos, bit), g))
    decreases |data|
  {
    hide Xor, Shifts, High, Bit;
    var n := |data|;
    var front, last := data[..n - 1], data[n - 1];
    var d := Flip(data, pos, bit);
    var c := Serial(0, front, g);
    if pos == n - 1 {
      assert d[..n - 1] == front;
      HighFlip(last, Bit(bit));
      UnitHigh(bit, g);
      XorLaws(c, High(last), High(Bit(bit)));
      ShiftsLinear(Xor(c, High(last)), High(Bit(bit)), 8, g);
      ShiftsSum(1, 8 + bit, 8, g);
    } else {
      FlipEffect(front, pos, bit, g);
      assert d[..n - 1] == Flip(front, pos, bit);
      var p := Pow(Dist(n - 1, pos, bit), g);
      XorLaws(c, p, High(last));
      XorLaws(c, High(last), p);
      XorLaws(p, High(last), 0);
      ShiftsLinear(Xor(c, High(last)), p, 8, g);
      ShiftsSum(1, Dist(n - 1, pos, bit), 8, g);
    }
  }

  lemma PowSame(m: nat, n: nat, g: Word)
    requires g & 1 == 1 && m <= n
    ensures Pow(m, g) == Pow(n, g) <==> Pow(n - m, g) == 1
  {
    hide Shifts;
    ShiftsSum(1, n - m, m, g);
    ShiftsInjective(Pow(n - m, g), 1, m, g);
  }
}
