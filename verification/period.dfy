/** The shift register of the tape's CRC comes round after exactly 32767 steps. */
module CrcPeriod {
  import opened Arithmetic
  import opened Crc

  const PERIOD := 32767

  function Pick(a: Word, b: Word): Word {
    if a & 1 == 1 then b else 0
  }

  /** Four bits of a product, and the rest of it. */
  function Four(a: Word, b: Word, rest: Word): Word {
    var b1 := Shift(b, TAPE);
    var b2 := Shift(b1, TAPE);
    var b3 := Shift(b2, TAPE);
    Xor(Pick(a, b), Xor(Pick(a >> 1, b1), Xor(Pick(a >> 2, b2), Xor(Pick(a >> 3, b3), rest))))
  }

  function Shift4(b: Word): Word {
    Shift(Shift(Shift(Shift(b, TAPE), TAPE), TAPE), TAPE)
  }

  /** The product of two polynomials modulo the generator. */
  function Mul(a: Word, b: Word): Word {
    var b4 := Shift4(b);
    var b8 := Shift4(b4);
    var b12 := Shift4(b8);
    Four(a, b, Four(a >> 4, b4, Four(a >> 8, b8, Four(a >> 12, b12, 0))))
  }

  /** The lowest bit of the register and the others can be shifted apart. */
  lemma Peel(a: Word, m: nat)
    ensures Shifts(a, m, TAPE) == Xor(Pick(a, Pow(m, TAPE)), Shifts(a >> 1, m + 1, TAPE))
  {
    hide Xor, Shifts, Pick;
    LowBit(a);
    ShiftsLinear(Pick(a, 1), Shift(a >> 1, TAPE), m, TAPE);
    ShiftsSum(a >> 1, 1, m, TAPE);
    ShiftsNext(a >> 1, 0, TAPE);
    ShiftsNone(a >> 1, TAPE);
    PickShifts(a, m);
  }

  lemma PickShifts(a: Word, m: nat)
    ensures Shifts(Pick(a, 1), m, TAPE) == Pick(a, Pow(m, TAPE))
  {
    hide Shifts;
    ShiftsZero(0, m, TAPE);
  }

  lemma LowBit(a: Word)
    ensures a == Xor(Pick(a, 1), Shift(a >> 1, TAPE))
  {
    LowPlain(a);
  }

  lemma LowPlain(a: Word)
    ensures (a & 1 == 1 ==> a == 1 ^ ((a >> 1) << 1)) && (a & 1 != 1 ==> a == 0 ^ ((a >> 1) << 1)) && (a >> 1) & 0x8000 == 0
  {
  }

  lemma PeelFour(a: Word, m: nat)
    ensures Shifts(a, m, TAPE) == Four(a, Pow(m, TAPE), Shifts(a >> 4, m + 4, TAPE))
    ensures Shift4(Pow(m, TAPE)) == Pow(m + 4, TAPE)
  {
    hide Xor, Shifts, Pick, Shift;
    Peel(a, m);
    Peel(a >> 1, m + 1);
    Peel(a >> 2, m + 2);
    Peel(a >> 3, m + 3);
    ShiftTwice(a);
    ShiftsNext(1, m, TAPE);
    ShiftsNext(1, m + 1, TAPE);
    ShiftsNext(1, m + 2, TAPE);
    ShiftsNext(1, m + 3, TAPE);
  }

  lemma ShiftTwice(a: Word)
    ensures (a >> 1) >> 1 == a >> 2 && (a >> 2) >> 1 == a >> 3 && (a >> 3) >> 1 == a >> 4
    ensures (a >> 4) >> 4 == a >> 8 && (a >> 8) >> 4 == a >> 12 && (a >> 12) >> 4 == 0
  {
  }

  /** Shifting is multiplying by a power. */
  lemma ShiftsIsMul(a: Word, m: nat)
    ensures Shifts(a, m, TAPE) == Mul(a, Pow(m, TAPE))
  {
    hide Shifts, Four, Shift4, Pow;
    PeelFour(a, m);
    PeelFour(a >> 4, m + 4);
    PeelFour(a >> 8, m + 8);
    PeelFour(a >> 12, m + 12);
    ShiftTwice(a);
    ShiftsZero(0, m + 16, TAPE);
  }

  /** One product of known powers. */
  lemma Times(m: nat, u: Word, n: nat, v: Word, w: Word)
    requires Pow(m, TAPE) == u && Pow(n, TAPE) == v && Mul(u, v) == w
    ensures Pow(m + n, TAPE) == w
  {
    hide Shifts, Mul;
    ShiftsSum(1, m, n, TAPE);
    ShiftsIsMul(Pow(m, TAPE), n);
  }

  lemma First()
    ensures Pow(1, TAPE) == 2
  {
    assert Shifts(1, 0, TAPE) == 1;
  }

  lemma Powers1()
    ensures Pow(6, TAPE) == 0x0040 && Pow(31, TAPE) == 0x8009 && Pow(127, TAPE) == 0x0083
  {
    hide Pow;
    First();
    Times(1, 0x0002, 1, 0x0002, 0x0004);
    Times(2, 0x0004, 1, 0x0002, 0x0008);
    Times(3, 0x0008, 3, 0x0008, 0x0040);
    Times(6, 0x0040, 1, 0x0002, 0x0080);
    Times(7, 0x0080, 7, 0x0080, 0x4000);
    Times(14, 0x4000, 1, 0x0002, 0x8000);
    Times(15, 0x8000, 15, 0x8000, 0x8006);
    Times(30, 0x8006, 1, 0x0002, 0x8009);
    Times(31, 0x8009, 31, 0x8009, 0x8047);
    Times(62, 0x8047, 1, 0x0002, 0x808B);
    Times(63, 0x808B, 63, 0x808B, 0xC043);
    Times(126, 0xC043, 1, 0x0002, 0x0083);
  }

  lemma PowersAll()
    ensures Pow(PERIOD, TAPE) == 1
  {
    hide Pow;
    First();
    Powers1();
    Times(127, 0x0083, 127, 0x0083, 0x4005);
    Times(254, 0x4005, 1, 0x0002, 0x800A);
    Times(255, 0x800A, 255, 0x800A, 0x8042);
    Times(510, 0x8042, 1, 0x0002, 0x8081);
    Times(511, 0x8081, 511, 0x8081, 0xC007);
    Times(1022, 0xC007, 1, 0x0002, 0x000B);
    Times(1023, 0x000B, 1023, 0x000B, 0x0045);
    Times(2046, 0x0045, 1, 0x0002, 0x008A);
    Times(2047, 0x008A, 2047, 0x008A, 0x4044);
    Times(4094, 0x4044, 1, 0x0002, 0x8088);
    Times(4095, 0x8088, 4095, 0x8088, 0xC046);
    Times(8190, 0xC046, 1, 0x0002, 0x0089);
    Times(8191, 0x0089, 8191, 0x0089, 0x4041);
    Times(16382, 0x4041, 1, 0x0002, 0x8082);
    Times(16383, 0x8082, 16383, 0x8082, 0xC002);
    Times(32766, 0xC002, 1, 0x0002, 0x0001);
  }

  lemma Powers217()
    ensures Pow(217, TAPE) != 1
  {
    hide Pow;
    Powers1();
    Times(31, 0x8009, 31, 0x8009, 0x8047);
    Times(62, 0x8047, 62, 0x8047, 0x9013);
    Times(124, 0x9013, 62, 0x8047, 0x4458);
    Times(186, 0x4458, 31, 0x8009, 0xAA7C);
  }

  lemma Powers1057()
    ensures Pow(151, TAPE) == 0x8A09 && Pow(302, TAPE) == 0x81DF && Pow(604, TAPE) == 0x5156
    ensures Pow(1057, TAPE) != 1
  {
    hide Pow;
    Powers1();
    Times(6, 0x0040, 6, 0x0040, 0x1000);
    Times(12, 0x1000, 12, 0x1000, 0x8603);
    Times(127, 0x0083, 24, 0x8603, 0x8A09);
    Times(151, 0x8A09, 151, 0x8A09, 0x81DF);
    Times(302, 0x81DF, 302, 0x81DF, 0x5156);
    Times(604, 0x5156, 302, 0x81DF, 0x7372);
    Times(906, 0x7372, 151, 0x8A09, 0x8273);
  }

  lemma Powers4681()
    ensures Pow(4681, TAPE) != 1
  {
    hide Pow;
    Powers1057();
    Times(604, 0x5156, 604, 0x5156, 0xF711);
    Times(1208, 0xF711, 1208, 0xF711, 0xFF79);
    Times(2416, 0xFF79, 1208, 0xF711, 0x78DA);
    Times(3624, 0x78DA, 604, 0x5156, 0x8725);
    Times(4228, 0x8725, 302, 0x81DF, 0xAB55);
    Times(4530, 0xAB55, 151, 0x8A09, 0x9631);
  }

  lemma {:induction false} PowMultiple(k: nat, m: nat)
    requires Pow(m, TAPE) == 1
    ensures Pow(k * m, TAPE) == 1
  {
    hide Shifts;
    ShiftsNone(1, TAPE);
    if k > 0 {
      PowMultiple(k - 1, m);
      assert k * m == (k - 1) * m + m;
      ShiftsSum(1, (k - 1) * m, m, TAPE);
    }
  }

  /** A remainder of two periods is a period. */
  lemma PowRemainder(a: nat, b: nat)
    requires b > 0 && Pow(b, TAPE) == 1
    ensures Pow(a % b, TAPE) == Pow(a, TAPE)
  {
    hide Shifts;
    var q, r := a / b, a % b;
    assert a == q * b + r;
    PowMultiple(q, b);
    ShiftsSum(1, q * b, r, TAPE);
  }

  /** Euclid's algorithm: two periods have a common divisor that is a period. */
  lemma {:induction false} Common(a: nat, b: nat) returns (e: nat)
    requires a > 0 && Pow(a, TAPE) == 1 && Pow(b, TAPE) == 1
    ensures e > 0 && a % e == 0 && b % e == 0 && Pow(e, TAPE) == 1
    decreases b
  {
    hide Pow;
    if b == 0 {
      e := a;
      ModIs(a, 1, 0, a);
    } else {
      PowRemainder(a, b);
      e := Common(b, a % b);
      Divides(a, b, e);
    }
  }

  lemma Divides(a: nat, b: nat, e: nat)
    requires b > 0 && e > 0 && b % e == 0 && (a % b) % e == 0
    ensures a % e == 0
  {
    var q, k, l := a / b, b / e, a % b / e;
    assert a == q * b + a % b && b == k * e && a % b == l * e;
    assert q * (k * e) == (q * k) * e;
    assert a == (q * k + l) * e;
    ModIs(a, q * k + l, 0, e);
  }

  /** Below 182 only these numbers divide the period. */
  lemma SmallDivisor(q: nat, e: nat)
    requires q * e == PERIOD && 2 <= q <= 181
    ensures q == 7 || q == 31 || q == 151
  {
  }

  /** A proper divisor divides 217, 1057 or 4681. */
  lemma ProperDivisor(e: nat) returns (k: nat, m: nat)
    requires 0 < e < PERIOD && PERIOD % e == 0
    ensures k * e == m && (m == 217 || m == 1057 || m == 4681)
  {
    var q := PERIOD / e;
    assert q * e == PERIOD && e * q == PERIOD;
    if e == 1 {
      m, k := 217, 217;
    } else if e <= 181 {
      SmallDivisor(e, q);
      m := if e == 151 then 1057 else 217;
      k := m / e;
    } else {
      Cofactor(e, q);
      SmallDivisor(q, e);
      m, k := e, 1;
    }
  }

  lemma Cofactor(e: nat, q: nat)
    requires 181 < e < PERIOD == q * e
    ensures 2 <= q <= 181
  {
    if q >= 182 {
      Monotone(182, q, e);
    } else if q <= 1 {
      Monotone(q, 1, e);
    }
  }

  lemma Monotone(a: nat, b: nat, e: nat)
    requires a <= b
    ensures a * e <= b * e
  {
  }

  /** The register comes back to a lone bit after multiples of 32767 steps, and at no other time. */
  lemma Period(n: nat)
    ensures Pow(n, TAPE) == 1 <==> n % PERIOD == 0
  {
    hide Pow;
    PowersAll();
    PowRemainder(n, PERIOD);
    var d := n % PERIOD;
    if d == 0 {
      PowNone();
    } else if Pow(d, TAPE) == 1 {
      var e := Common(PERIOD, d);
      AtMost(d, e);
      var k, m := ProperDivisor(e);
      PowMultiple(k, e);
      Powers217();
      Powers1057();
      Powers4681();
      assert false;
    }
  }

  lemma PowNone()
    ensures Pow(0, TAPE) == 1
  {
  }

  lemma AtMost(d: nat, e: nat)
    requires d > 0 && e > 0 && d % e == 0
    ensures e <= d
  {
  }

  /** Two flips of one payload give the same CRC exactly when their distance is a multiple of the period. */
  lemma TwoFlips(data: seq<Octet>, p: nat, b: nat, q: nat, d: nat)
    requires p < |data| && q < |data| && b < 8 && d < 8
    ensures BlockCrc(Flip(data, p, b)) == BlockCrc(Flip(data, q, d)) <==> (Dist(|data|, p, b) - Dist(|data|, q, d)) % PERIOD == 0
  {
    hide Xor, Serial, Pow;
    var n := |data|;
    var x: int, y: int := Dist(n, p, b), Dist(n, q, d);
    FlipEffect(data, p, b, TAPE);
    FlipEffect(data, q, d, TAPE);
    var c := Serial(0, data, TAPE);
    SameXor(c, Pow(x, TAPE), Pow(y, TAPE));
    SameXor(XOROUT, Xor(c, Pow(x, TAPE)), Xor(c, Pow(y, TAPE)));
    XorLaws(XOROUT, Xor(c, Pow(x, TAPE)), 0);
    XorLaws(XOROUT, Xor(c, Pow(y, TAPE)), 0);
    if y <= x {
      PowSame(y, x, TAPE);
      Period(x - y);
    } else {
      PowSame(x, y, TAPE);
      Period(y - x);
      Opposite(x - y);
    }
  }

  lemma Opposite(x: int)
    ensures x % PERIOD == 0 <==> (-x) % PERIOD == 0
  {
  }

  lemma SameXor(a: Word, b: Word, c: Word)
    ensures Xor(a, b) == Xor(a, c) <==> b == c
  {
    hide Xor;
    XorLaws(b, a, a);
    XorLaws(c, a, a);
    XorLaws(a, b, 0);
    XorLaws(a, c, 0);
  }

  /** A flipped bit always shows. */
  lemma FlipShows(data: seq<Octet>, pos: nat, bit: nat)
    requires pos < |data| && bit < 8
    ensures BlockCrc(Flip(data, pos, bit)) != BlockCrc(data)
  {
    hide Xor, Serial, Shifts;
    var c, p := Serial(0, data, TAPE), Pow(Dist(|data|, pos, bit), TAPE);
    FlipEffect(data, pos, bit, TAPE);
    ShiftsZero(1, Dist(|data|, pos, bit), TAPE);
    XorLaws(XOROUT, Xor(c, p), 0);
    XorLaws(XOROUT, c, 0);
    SameXor(XOROUT, Xor(c, p), c);
    SameXor(c, p, 0);
    XorLaws(c, 0, 0);
  }

  datatype Repair = Flipped(pos: nat, bit: nat) | NotFound

  /** The bits in the order repair_single_bit tries them. */
  ghost predicate Before(p: nat, b: nat, q: nat, d: nat) {
    p < q || (p == q && b < d)
  }

  ghost predicate Mends(payload: seq<Octet>, stored: Word, p: nat, b: nat) {
    p < |payload| && b < 8 && BlockCrc(Flip(payload, p, b)) == stored
  }

  /** repair_single_bit: the first bit whose flip satisfies the CRC, if the CRC is wrong and there is one. */
  method RepairSingleBit(payload: seq<Octet>, stored: Word, tab: seq<Word>) returns (r: Repair)
    requires Table(tab, TAPE)
    ensures BlockCrc(payload) == stored ==> r == NotFound
    ensures r.Flipped? ==> Mends(payload, stored, r.pos, r.bit) && forall p: nat, b: nat :: Before(p, b, r.pos, r.bit) ==> !Mends(payload, stored, p, b)
    ensures r.NotFound? && BlockCrc(payload) != stored ==> forall p: nat, b: nat :: !Mends(payload, stored, p, b)
  {
    hide Serial, Table, Xor, Bit;
    var c := TableCrc(payload, tab, TAPE);
    if Xor(c, XOROUT) == stored {
      return NotFound;
    }
    var buf := payload;
    for pos := 0 to |payload|
      invariant buf == payload
      invariant forall p: nat, b: nat :: p < pos ==> !Mends(payload, stored, p, b)
    {
      for bit := 0 to 8
        invariant |buf| == |payload| && buf[..pos] == payload[..pos] && buf[pos + 1..] == payload[pos + 1..]
        invariant forall p: nat, b: nat :: Before(p, b, pos, bit) ==> !Mends(payload, stored, p, b)
      {
        buf := buf[pos := payload[pos] ^ Bit(bit)];
        assert buf == Flip(payload, pos, bit);
        c := TableCrc(buf, tab, TAPE);
        if Xor(c, XOROUT) == stored {
          return Flipped(pos, bit);
        }
      }
      buf := buf[pos := payload[pos]];
      assert buf == payload;
    }
    r := NotFound;
  }

  lemma FlipBack(data: seq<Octet>, pos: nat, bit: nat)
    requires pos < |data| && bit < 8
    ensures Flip(Flip(data, pos, bit), pos, bit) == data
  {
    hide Bit;
    FlipPlain(data[pos], Bit(bit));
  }

  lemma FlipPlain(b: Octet, m: Octet)
    ensures (b ^ m) ^ m == b
  {
  }

  /**
   A payload damaged in one bit is always found repairable.  The repair restores it for every payload
   shorter than 4096 bytes; in one of 4096 bytes it does so for every bit but the last, for which the
   first bit is flipped instead.
   */
  lemma Repaired(orig: seq<Octet>, q: nat, d: nat, r: Repair)
    requires q < |orig| <= 4096 && d < 8
    requires var payload, stored := Flip(orig, q, d), BlockCrc(orig);
      && (r.Flipped? ==> Mends(payload, stored, r.pos, r.bit) && forall p: nat, b: nat :: Before(p, b, r.pos, r.bit) ==> !Mends(payload, stored, p, b))
      && (r.NotFound? && BlockCrc(payload) != stored ==> forall p: nat, b: nat :: !Mends(payload, stored, p, b))
    ensures r == if |orig| == 4096 && q == 4095 && d == 0 then Flipped(0, 7) else Flipped(q, d)
    ensures Mends(Flip(orig, q, d), BlockCrc(orig), q, d)
  {
    hide BlockCrc, Flip;
    var payload, stored := Flip(orig, q, d), BlockCrc(orig);
    FlipBack(orig, q, d);
    FlipShows(orig, q, d);
    assert Mends(payload, stored, q, d);
    forall p: nat, b: nat | p < |payload| && b < 8
      ensures Mends(payload, stored, p, b) <==> (Dist(|payload|, p, b) - Dist(|payload|, q, d)) % PERIOD == 0
    {
      TwoFlips(payload, p, b, q, d);
    }
    assert r.Flipped?;
    Nearby(|orig|, r.pos, r.bit, q, d);
    if |orig| == 4096 && q == 4095 && d == 0 {
      assert Mends(payload, stored, 0, 7);
      assert !Before(0, 7, r.pos, r.bit);
    }
  }

  lemma Nearby(n: nat, p: nat, b: nat, q: nat, d: nat)
    requires n <= 4096 && p < n && q < n && b < 8 && d < 8 && (Dist(n, p, b) - Dist(n, q, d)) % PERIOD == 0
    ensures (p == q && b == d) || (n == 4096 && p == 0 && b == 7 && q == 4095 && d == 0) || (n == 4096 && q == 0 && d == 7 && p == 4095 && b == 0)
  {
    var x := Dist(n, p, b) - Dist(n, q, d);
    assert -PERIOD <= x <= PERIOD;
    assert x == -PERIOD || x == 0 || x == PERIOD;
  }
}
