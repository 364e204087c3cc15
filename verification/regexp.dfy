/** regexp.h: a one-pass compiler of patterns to byte code, and the backtracking interpreter of that code. */
module RegExp {
  import opened Patterns

  const CBRA: Char := 2
  const CCHR: Char := 4
  const CDOT: Char := 8
  const CCL: Char := 12
  const CDOL: Char := 20
  const CCEOF: Char := 22
  const CKET: Char := 24
  const STAR: Char := 1

  /** The byte of a class that holds character c's bit, and the bit. */
  function Idx(c: Char): (n: nat)
    ensures n < 32 && (c < 128 ==> n < 16)
  {
    (c >> 3) as nat
  }

  function Mask(c: Char): Char {
    (1 as Char) << (c & 7)
  }

  predicate IsThere(bits: seq<Char>, c: Char)
    requires |bits| == 16 && c < 128
  {
    bits[Idx(c)] & Mask(c) != 0
  }

  function Place(bits: seq<Char>, c: Char): (r: seq<Char>)
    requires |bits| == 16 && c < 128
    ensures |r| == 16
  {
    bits[Idx(c) := bits[Idx(c)] | Mask(c)]
  }

  lemma SameIdx(c: Char, d: Char)
    requires Idx(c) == Idx(d)
    ensures c >> 3 == d >> 3
  {
    if c >> 3 < d >> 3 {
      IdxGrows(c, d);
    } else if d >> 3 < c >> 3 {
      IdxGrows(d, c);
    }
  }

  lemma IdxGrows(c: Char, d: Char)
    requires c >> 3 < d >> 3
    ensures Idx(c) < Idx(d)
  {
  }

  lemma SetBit(b: Char, c: Char, d: Char)
    requires c >> 3 == d >> 3
    ensures (b | Mask(c)) & Mask(d) != 0 <==> c == d || b & Mask(d) != 0
  {
  }

  lemma Placed(bits: seq<Char>, c: Char, d: Char)
    requires |bits| == 16 && c < 128 && d < 128
    ensures IsThere(Place(bits, c), d) <==> c == d || IsThere(bits, d)
  {
    if Idx(c) == Idx(d) {
      SameIdx(c, d);
      SetBit(bits[Idx(c)], c, d);
    }
  }

  /** The bit map holds exactly the seven-bit characters of cs. */
  ghost predicate Holds(bits: seq<Char>, cs: iset<Char>) {
    |bits| == 16 && forall d: Char :: d < 128 ==> (IsThere(bits, d) <==> d in cs)
  }

  lemma HoldsPlaced(bits: seq<Char>, cs: iset<Char>, c: Char)
    requires Holds(bits, cs) && c < 128
    ensures Holds(Place(bits, c), cs + iset{c})
  {
    hide Place, IsThere;
    forall d: Char | d < 128
      ensures IsThere(Place(bits, c), d) <==> d in cs + iset{c}
    {
      Placed(bits, c, d);
    }
  }

  /** Byte by byte complement, with the terminator's bit cleared. */
  function Negated(bits: seq<Char>): (r: seq<Char>)
    requires |bits| == 16
    ensures |r| == 16
  {
    seq(16, i requires 0 <= i < 16 => if i == 0 then (bits[0] ^ 255) & 254 else bits[i] ^ 255)
  }

  lemma FlipBit(b: Char, d: Char)
    ensures (b ^ 255) & Mask(d) != 0 <==> b & Mask(d) == 0
    ensures d < 8 ==> (((b ^ 255) & 254) & Mask(d) != 0 <==> b & Mask(d) == 0 && d != 0)
    ensures Idx(d) == 0 <==> d < 8
  {
  }

  lemma HoldsNegated(bits: seq<Char>, cs: iset<Char>)
    requires Holds(bits, cs)
    ensures forall d: Char :: d < 128 ==> (IsThere(Negated(bits), d) <==> d != 0 && d !in cs)
  {
    hide Mask, Idx;
    forall d: Char | d < 128
      ensures IsThere(Negated(bits), d) <==> d != 0 && d !in cs
    {
      FlipBit(bits[Idx(d)], d);
    }
  }

  /** An instruction; the three that match one character can be starred. */
  datatype Instr = Chr(c: Char, star: bool) | Dot(star: bool) | Ccl(bits: seq<Char>, star: bool) | Bra(n: Char) | Ket(n: Char) | Dol

  predicate Single(x: Instr) {
    x.Chr? || x.Dot? || x.Ccl?
  }

  /** No instruction's set has the terminator in it. */
  ghost predicate Sane(x: Instr) {
    match x
    case Chr(c, _) => c != 0
    case Ccl(bits, _) => |bits| == 16 && !IsThere(bits, 0)
    case Bra(n) => n < 9
    case Ket(n) => n < 9
    case _ => true
  }

  predicate Accepts(x: Instr, c: Char)
    requires Single(x) && (x.Ccl? ==> |x.bits| == 16)
  {
    match x
    case Chr(d, _) => c == d
    case Dot(_) => c != 0
    case Ccl(bits, _) => IsThere(bits, Low(c))
  }

  function Op(op: Char, star: bool): Char {
    if star then op | STAR else op
  }

  function Bytes(x: Instr): (b: seq<Char>)
    ensures b != []
  {
    match x
    case Chr(c, star) => [Op(CCHR, star), c]
    case Dot(star) => [Op(CDOT, star)]
    case Ccl(bits, star) => [Op(CCL, star)] + bits
    case Bra(n) => [CBRA, n]
    case Ket(n) => [CKET, n]
    case Dol => [CDOL]
  }

  function Flatten(xs: seq<Instr>): seq<Char> {
    if xs == [] then [] else Flatten(xs[..|xs| - 1]) + Bytes(xs[|xs| - 1])
  }

  ghost function Accepted(x: Instr): iset<Char>
    requires Single(x) && Sane(x)
  {
    iset c: Char | Accepts(x, c)
  }

  ghost function Mean(x: Instr): Item
    requires Sane(x)
  {
    match x
    case Bra(n) => Open(n as nat)
    case Ket(n) => Close(n as nat)
    case Dol => Eol
    case _ => if x.star then Many(Accepted(x)) else One(Accepted(x))
  }

  ghost predicate AllSane(xs: seq<Instr>) {
    forall i :: 0 <= i < |xs| ==> Sane(xs[i])
  }

  ghost function Means(xs: seq<Instr>): (r: seq<Item>)
    requires AllSane(xs)
    ensures |r| == |xs|
  {
    seq(|xs|, i requires 0 <= i < |xs| => Mean(xs[i]))
  }

  /** Instruction k stands at its place in the code. */
  lemma {:induction false} CodeAt(xs: seq<Instr>, k: nat)
    requires k < |xs|
    ensures |Flatten(xs[..k])| + |Bytes(xs[k])| == |Flatten(xs[..k + 1])| <= |Flatten(xs)|
    ensures Flatten(xs)[|Flatten(xs[..k])|..|Flatten(xs[..k + 1])|] == Bytes(xs[k])
    decreases |xs|
  {
    hide Bytes;
    assert xs[..k + 1][..k] == xs[..k];
    if k == |xs| - 1 {
      assert xs[..k + 1] == xs;
    } else {
      var ys := xs[..|xs| - 1];
      CodeAt(ys, k);
      assert ys[..k] == xs[..k] && ys[..k + 1] == xs[..k + 1];
      SlicePrefix(Flatten(ys), Bytes(xs[|xs| - 1]), |Flatten(xs[..k])|, |Flatten(xs[..k + 1])|);
    }
  }

  lemma SlicePrefix(a: seq<Char>, b: seq<Char>, i: nat, j: nat)
    requires i <= j <= |a|
    ensures (a + b)[i..j] == a[i..j]
  {
  }

  lemma MatchesOne(items: seq<Item>, k: nat, s: seq<Char>, i: nat)
    requires k < |items| && items[k].One?
    ensures Matches(items, k, s, i) <==> i < |s| && s[i] in items[k].cs && Matches(items, k + 1, s, i + 1)
  {
    if i < |s| && s[i] in items[k].cs && Matches(items, k + 1, s, i + 1) {
      var j: nat :| Denotes(items, k + 1, s, i + 1, j);
      assert Denotes(items, k, s, i, j);
    }
    if Matches(items, k, s, i) {
      var j: nat :| Denotes(items, k, s, i, j);
      assert Denotes(items, k + 1, s, i + 1, j);
    }
  }

  lemma MatchesMark(items: seq<Item>, k: nat, s: seq<Char>, i: nat)
    requires k < |items| && (items[k].Open? || items[k].Close? || items[k].Eol?)
    ensures Matches(items, k, s, i) <==> (items[k].Eol? ==> i == |s|) && Matches(items, k + 1, s, i)
  {
    if (items[k].Eol? ==> i == |s|) && Matches(items, k + 1, s, i) {
      var j: nat :| Denotes(items, k + 1, s, i, j);
      assert Denotes(items, k, s, i, j);
    }
    if Matches(items, k, s, i) {
      var j: nat :| Denotes(items, k, s, i, j);
      assert Denotes(items, k + 1, s, i, j);
    }
  }

  lemma MatchesMany(items: seq<Item>, k: nat, s: seq<Char>, i: nat)
    requires k < |items| && items[k].Many?
    ensures Matches(items, k, s, i) <==> exists m: nat :: i <= m <= |s| && Within(s, i, m, items[k].cs) && Matches(items, k + 1, s, m)
  {
    hide Within;
    if Matches(items, k, s, i) {
      var j: nat :| Denotes(items, k, s, i, j);
      var m: nat :| i <= m <= |s| && Within(s, i, m, items[k].cs) && Denotes(items, k + 1, s, m, j);
      assert Matches(items, k + 1, s, m);
    }
    if m: nat :| i <= m <= |s| && Within(s, i, m, items[k].cs) && Matches(items, k + 1, s, m) {
      var j: nat :| Denotes(items, k + 1, s, m, j);
      assert i <= j;
      assert Denotes(items, k, s, i, j);
    }
  }

  lemma MatchesEnd(items: seq<Item>, s: seq<Char>, i: nat)
    requires i <= |s|
    ensures Matches(items, |items|, s, i)
  {
    assert Denotes(items, |items|, s, i, i);
  }

  /** Each bracket number is used once. */
  ghost predicate Numbered(xs: seq<Instr>) {
    && (forall p, q :: 0 <= p < q < |xs| && xs[p].Bra? && xs[q].Bra? ==> xs[p].n != xs[q].n)
    && (forall p, q :: 0 <= p < q < |xs| && xs[p].Ket? && xs[q].Ket? ==> xs[p].n != xs[q].n)
  }

  /** braslist and braelist entries of instructions before k are as they were. */
  ghost predicate Kept(xs: seq<Instr>, k: nat, b: seq<nat>, e: seq<nat>, b': seq<nat>, e': seq<nat>)
    requires AllSane(xs) && k <= |xs|
  {
    && |b| == |b'| == |e| == |e'| == NBRA
    && (forall p :: 0 <= p < k && xs[p].Bra? ==> b'[xs[p].n as nat] == b[xs[p].n as nat])
    && (forall p :: 0 <= p < k && xs[p].Ket? ==> e'[xs[p].n as nat] == e[xs[p].n as nat])
  }

  /** Whatever completes the match from (k, i) completes it from (k0, i0). */
  ghost predicate Leads(xs: seq<Instr>, s: seq<Char>, k0: nat, i0: nat, k: nat, i: nat, b: seq<nat>, e: seq<nat>)
    requires AllSane(xs) && k0 <= |xs| && k <= |xs|
  {
    forall j: nat, b', e' :: Spans(Means(xs), k, s, i, j, b', e') && Kept(xs, k, b, e, b', e') ==> Spans(Means(xs), k0, s, i0, j, b', e')
  }

  /** Going past an instruction that is not starred. */
  lemma LeadsOn(xs: seq<Instr>, s: seq<Char>, k0: nat, i0: nat, k: nat, i: nat, b: seq<nat>, e: seq<nat>, i': nat, b': seq<nat>, e': seq<nat>)
    requires AllSane(xs) && Numbered(xs) && k0 <= k < |xs| && |b| == |e| == NBRA && i <= |s|
    requires Leads(xs, s, k0, i0, k, i, b, e)
    requires match xs[k]
             case Bra(n) => i' == i && b' == b[n as nat := i] && e' == e
             case Ket(n) => i' == i && b' == b && e' == e[n as nat := i]
             case Dol => i' == i == |s| && b' == b && e' == e
             case x => !x.star && i < |s| && Accepts(x, s[i]) && i' == i + 1 && b' == b && e' == e
    ensures Leads(xs, s, k0, i0, k + 1, i', b', e')
  {
    hide Accepts;
    var items := Means(xs);
    forall j: nat, b'', e'' | Spans(items, k + 1, s, i', j, b'', e'') && Kept(xs, k + 1, b', e', b'', e'')
      ensures Spans(items, k0, s, i0, j, b'', e'')
    {
      assert Spans(items, k, s, i, j, b'', e'');
      KeptBack(xs, k, b, e, b', e', b'', e'');
    }
  }

  lemma KeptBack(xs: seq<Instr>, k: nat, b: seq<nat>, e: seq<nat>, b': seq<nat>, e': seq<nat>, b'': seq<nat>, e'': seq<nat>)
    requires AllSane(xs) && k < |xs| && Kept(xs, k + 1, b', e', b'', e'') && Kept(xs, k, b, e, b', e')
    ensures Kept(xs, k, b, e, b'', e'')
  {
  }

  /** A subject is a C string. */
  ghost predicate Subject(s: seq<Char>) {
    forall i :: 0 <= i < |s| ==> s[i] != 0
  }

  /** The code of xs, at instruction k. */
  ghost predicate Program(code: seq<Char>, xs: seq<Instr>, k: nat, ep: nat) {
    AllSane(xs) && Numbered(xs) && code == Flatten(xs) + [CCEOF] && k <= |xs| && ep == |Flatten(xs[..k])|
  }

  /** What the interpreter finds at an instruction, and where the next one is. */
  lemma Decoded(code: seq<Char>, xs: seq<Instr>, k: nat, ep: nat)
    requires Program(code, xs, k, ep)
    ensures ep < |code|
    ensures k == |xs| ==> code[ep] == CCEOF
    ensures k < |xs| ==> Program(code, xs, k + 1, ep + |Bytes(xs[k])|) && ep + |Bytes(xs[k])| < |code|
    ensures k < |xs| ==> code[ep..ep + |Bytes(xs[k])|] == Bytes(xs[k]) && code[ep] == Bytes(xs[k])[0]
  {
    if k < |xs| {
      CodeAt(xs, k);
      var b := Bytes(xs[k]);
      assert code[ep..ep + |b|] == Flatten(xs)[ep..ep + |b|];
    } else {
      assert xs[..k] == xs;
    }
  }

  /** The operation codes are different. */
  lemma Decode(x: Instr, op: Char)
    requires op == Bytes(x)[0]
    ensures op == CCHR <==> x.Chr? && !x.star
    ensures op == CDOT <==> x.Dot? && !x.star
    ensures op == CCL <==> x.Ccl? && !x.star
    ensures op == CCHR | STAR <==> x.Chr? && x.star
    ensures op == CDOT | STAR <==> x.Dot? && x.star
    ensures op == CCL | STAR <==> x.Ccl? && x.star
    ensures op == CBRA <==> x.Bra?
    ensures op == CKET <==> x.Ket?
    ensures op == CDOL <==> x.Dol?
    ensures op != CCEOF
    ensures x.Bra? || x.Ket? ==> |Bytes(x)| == 2
    ensures x.Dol? ==> |Bytes(x)| == 1
  {
  }

  /** Where the run of characters x accepts, from i on, ends. */
  ghost predicate RunEnd(x: Instr, s: seq<Char>, i: nat, top: nat)
    requires Single(x) && Sane(x)
  {
    i <= top <= |s| && (forall q :: i <= q < top ==> Accepts(x, s[q])) && !Accepts(x, Get(s, top))
  }

  /** The loops that take as many characters as they can, leaving lp one past the end. */
  method TakeRun(s: seq<Char>, x: Instr, i: nat) returns (lp: nat)
    requires Subject(s) && i <= |s| && Single(x) && Sane(x)
    ensures lp >= 1 && RunEnd(x, s, i, lp - 1)
  {
    lp := i;
    if x.Dot? {
      while Get(s, lp) != 0
        invariant i <= lp <= |s| && forall q :: i <= q < lp ==> Accepts(x, s[q])
        decreases |s| - lp
      {
        lp := lp + 1;
      }
    } else if x.Chr? {
      while Get(s, lp) == x.c
        invariant i <= lp <= |s| && forall q :: i <= q < lp ==> Accepts(x, s[q])
        decreases |s| - lp
      {
        lp := lp + 1;
      }
    } else {
      var c := Low(Get(s, lp));
      while IsThere(x.bits, c)
        invariant i <= lp <= |s| && c == Low(Get(s, lp)) && forall q :: i <= q < lp ==> Accepts(x, s[q])
        decreases |s| - lp
      {
        lp := lp + 1;
        c := Low(Get(s, lp));
      }
    }
    lp := lp + 1;
  }

  /** The operand of a starred or unstarred single-character instruction, read back from the code. */
  method Operand(code: seq<Char>, ep: nat, ghost xs: seq<Instr>, ghost k: nat) returns (x: Instr, next: nat)
    requires Program(code, xs, k, ep) && k < |xs| && Single(xs[k])
    ensures x == xs[k] && next == ep + |Bytes(xs[k])|
  {
    Decoded(code, xs, k, ep);
    Decode(xs[k], code[ep]);
    ghost var b := code[ep..ep + |Bytes(xs[k])|];
    var op := code[ep];
    var star := op == CCHR | STAR || op == CDOT | STAR || op == CCL | STAR;
    if op == CCHR || op == CCHR | STAR {
      assert code[ep + 1] == b[1];
      x, next := Chr(code[ep + 1], star), ep + 2;
    } else if op == CDOT || op == CDOT | STAR {
      x, next := Dot(star), ep + 1;
    } else {
      assert code[ep + 1..ep + 17] == b[1..] == xs[k].bits;
      x, next := Ccl(code[ep + 1..ep + 17], star), ep + 17;
    }
  }

  lemma Started(xs: seq<Instr>, s: seq<Char>, k: nat, i: nat, b: seq<nat>, e: seq<nat>)
    requires AllSane(xs) && k <= |xs| && |b| == |e| == NBRA
    ensures Leads(xs, s, k, i, k, i, b, e) && Kept(xs, k, b, e, b, e)
  {
    hide Spans;
  }

  lemma Finished(xs: seq<Instr>, s: seq<Char>, k0: nat, i0: nat, i: nat, b: seq<nat>, e: seq<nat>)
    requires AllSane(xs) && k0 <= |xs| && |b| == |e| == NBRA && i <= |s| && Leads(xs, s, k0, i0, |xs|, i, b, e)
    ensures Spans(Means(xs), k0, s, i0, i, b, e) && Matches(Means(xs), |xs|, s, i)
  {
    KeptSame(xs, |xs|, b, e);
    MatchesEnd(Means(xs), s, i);
    assert Spans(Means(xs), |xs|, s, i, i, b, e);
  }

  lemma OneStep(xs: seq<Instr>, k: nat, s: seq<Char>, i: nat)
    requires AllSane(xs) && k < |xs| && Single(xs[k]) && !xs[k].star && i <= |s| && Subject(s)
    ensures Accepts(xs[k], Get(s, i)) ==> i < |s|
    ensures Matches(Means(xs), k, s, i) <==> Accepts(xs[k], Get(s, i)) && Matches(Means(xs), k + 1, s, i + 1)
  {
    hide Matches;
    MatchesOne(Means(xs), k, s, i);
  }

  lemma MarkStep(xs: seq<Instr>, k: nat, s: seq<Char>, i: nat)
    requires AllSane(xs) && k < |xs| && !Single(xs[k]) && i <= |s| && Subject(s)
    ensures Get(s, i) == 0 <==> i == |s|
    ensures Matches(Means(xs), k, s, i) <==> (xs[k].Dol? ==> i == |s|) && Matches(Means(xs), k + 1, s, i)
  {
    hide Matches;
    MatchesMark(Means(xs), k, s, i);
  }

  /** What follows instruction k matches from m on. */
  ghost predicate Rest(xs: seq<Instr>, k: nat, s: seq<Char>, m: nat)
    requires AllSane(xs) && k < |xs|
  {
    Matches(Means(xs), k + 1, s, m)
  }

  /** Instruction k takes the characters from i to m, as many as it can, and the rest matches from there to j. */
  ghost predicate Taken(xs: seq<Instr>, k: nat, s: seq<Char>, i: nat, m: nat, j: nat, b: seq<nat>, e: seq<nat>)
    requires AllSane(xs) && k < |xs| && Single(xs[k])
  {
    && i <= m <= |s| && (forall q :: i <= q < m ==> Accepts(xs[k], s[q])) && Spans(Means(xs), k + 1, s, m, j, b, e)
    && forall m': nat :: m < m' <= |s| && (forall q :: i <= q < m' ==> Accepts(xs[k], s[q])) ==> !Rest(xs, k, s, m')
  }

  lemma ManyStep(xs: seq<Instr>, k: nat, s: seq<Char>, i: nat, top: nat)
    requires AllSane(xs) && k < |xs| && Single(xs[k]) && xs[k].star && i <= |s| && RunEnd(xs[k], s, i, top)
    ensures Matches(Means(xs), k, s, i) <==> exists m: nat :: i <= m <= top && Rest(xs, k, s, m)
  {
    hide Matches, Accepts;
    MatchesMany(Means(xs), k, s, i);
    forall m: nat | i <= m <= |s|
      ensures Within(s, i, m, Means(xs)[k].cs) <==> m <= top
      ensures Rest(xs, k, s, m) <==> Matches(Means(xs), k + 1, s, m)
    {
      if m <= top {
        assert Within(s, i, m, Means(xs)[k].cs);
      } else {
        assert s[top] !in Means(xs)[k].cs;
      }
    }
  }

  lemma Number(code: seq<Char>, xs: seq<Instr>, k: nat, ep: nat)
    requires Program(code, xs, k, ep) && k < |xs| && (xs[k].Bra? || xs[k].Ket?)
    ensures ep + 2 < |code| && code[ep + 1] == xs[k].n && code[ep + 1] < 9 && (code[ep + 1] as nat) < NBRA
  {
    Decoded(code, xs, k, ep);
    var b := code[ep..ep + |Bytes(xs[k])|];
    assert code[ep + 1] == b[1];
  }

  lemma KeptSame(xs: seq<Instr>, k: nat, b: seq<nat>, e: seq<nat>)
    requires AllSane(xs) && k <= |xs| && |b| == |e| == NBRA
    ensures Kept(xs, k, b, e, b, e)
  {
  }

  lemma KeptMore(xs: seq<Instr>, k: nat, b: seq<nat>, e: seq<nat>, b': seq<nat>, e': seq<nat>, b'': seq<nat>, e'': seq<nat>)
    requires AllSane(xs) && k <= |xs| && Kept(xs, k, b, e, b', e') && Kept(xs, k, b', e', b'', e'')
    ensures Kept(xs, k, b, e, b'', e'')
  {
  }

  lemma KeptMark(xs: seq<Instr>, k0: nat, k: nat, b0: seq<nat>, e0: seq<nat>, b: seq<nat>, e: seq<nat>, b': seq<nat>, e': seq<nat>)
    requires AllSane(xs) && Numbered(xs) && k0 <= k < |xs| && Kept(xs, k0, b0, e0, b, e)
    requires xs[k].Bra? && e' == e ==> |b'| == |b| && forall n :: 0 <= n < NBRA && n != xs[k].n as nat ==> b'[n] == b[n]
    requires xs[k].Ket? && b' == b ==> |e'| == |e| && forall n :: 0 <= n < NBRA && n != xs[k].n as nat ==> e'[n] == e[n]
    requires (xs[k].Bra? && e' == e) || (xs[k].Ket? && b' == b)
    ensures Kept(xs, k0, b0, e0, b', e')
  {
    forall p | 0 <= p < k0 && (xs[p].Bra? || xs[p].Ket?)
      ensures (xs[p].n as nat) < NBRA && (xs[p].Bra? && xs[k].Bra? ==> xs[p].n as nat != xs[k].n as nat) && (xs[p].Ket? && xs[k].Ket? ==> xs[p].n as nat != xs[k].n as nat)
    {
      SameNumber(xs[p].n, xs[k].n);
    }
  }

  lemma SameNumber(a: Char, b: Char)
    ensures a as nat == b as nat ==> a == b
  {
    if a < b {
      NumberLess(a, b);
    } else if b < a {
      NumberLess(b, a);
    }
  }

  lemma NumberLess(a: Char, b: Char)
    requires a < b
    ensures a as nat < b as nat
  {
  }

  lemma LongestTaken(xs: seq<Instr>, k: nat, s: seq<Char>, i: nat, m: nat)
    requires AllSane(xs) && k < |xs| && Single(xs[k]) && xs[k].star
    requires forall m': nat :: m < m' <= |s| && (forall q :: i <= q < m' ==> Accepts(xs[k], s[q])) ==> !Rest(xs, k, s, m')
    ensures Longest(Means(xs), k, s, i, m, Means(xs)[k].cs)
  {
    hide Accepts, Matches;
    forall m': nat | m < m' <= |s| && Within(s, i, m', Means(xs)[k].cs)
      ensures !Matches(Means(xs), k + 1, s, m')
    {
      assert forall q :: i <= q < m' ==> s[q] in Means(xs)[k].cs;
      assert !Rest(xs, k, s, m');
    }
  }

  /** A starred instruction ends the search: a match of the rest from some length of run, or none at all. */
  lemma StarDone(xs: seq<Instr>, s: seq<Char>, k0: nat, i0: nat, k: nat, i: nat, b0: seq<nat>, e0: seq<nat>, b: seq<nat>, e: seq<nat>,
                 ok: bool, j: nat, b': seq<nat>, e': seq<nat>)
    requires AllSane(xs) && k0 <= k < |xs| && Single(xs[k]) && xs[k].star && i <= |s|
    requires Leads(xs, s, k0, i0, k, i, b, e) && Kept(xs, k0, b0, e0, b, e) && Kept(xs, k + 1, b, e, b', e')
    requires ok ==> exists m: nat :: Taken(xs, k, s, i, m, j, b', e')
    ensures Kept(xs, k0, b0, e0, b', e')
    ensures ok ==> Spans(Means(xs), k0, s, i0, j, b', e')
  {
    hide Accepts;
    if ok {
      var m: nat :| Taken(xs, k, s, i, m, j, b', e');
      assert Within(s, i, m, Means(xs)[k].cs);
      assert Longest(Means(xs), k, s, i, m, Means(xs)[k].cs) by {
        LongestTaken(xs, k, s, i, m);
      }
      assert m <= j;
      assert Spans(Means(xs), k, s, i, j, b', e');
    }
  }

  ghost predicate Ready(s: seq<Char>, code: seq<Char>, lp: nat, ep: nat, b: seq<nat>, e: seq<nat>, xs: seq<Instr>, k: nat) {
    Subject(s) && lp <= |s| && Program(code, xs, k, ep) && |b| == |e| == NBRA
  }

  /**
   advance: does the code at ep match the subject from lp on?  If so loc2 is where a match ends, and the
   lists say where its bracketed parts begin and end.
   */
  method Advance(s: seq<Char>, code: seq<Char>, lp0: nat, ep0: nat, b0: seq<nat>, e0: seq<nat>, ghost xs: seq<Instr>, ghost k0: nat)
    returns (ok: bool, loc2: nat, b: seq<nat>, e: seq<nat>)
    requires Ready(s, code, lp0, ep0, b0, e0, xs, k0)
    ensures ok <==> Matches(Means(xs), k0, s, lp0)
    ensures ok ==> Spans(Means(xs), k0, s, lp0, loc2, b, e)
    ensures Kept(xs, k0, b0, e0, b, e) && |b| == |e| == NBRA
    decreases |xs| - k0, 1
  {
    hide Flatten, Matches, Spans, Bytes, Accepts, Numbered, Leads, Kept;
    var lp: nat, ep: nat;
    ghost var k := k0;
    lp, ep, b, e, loc2 := lp0, ep0, b0, e0, 0;
    Started(xs, s, k0, lp0, b, e);
    while true
      invariant k0 <= k && Ready(s, code, lp, ep, b, e, xs, k)
      invariant Matches(Means(xs), k0, s, lp0) <==> Matches(Means(xs), k, s, lp)
      invariant Leads(xs, s, k0, lp0, k, lp, b, e) && Kept(xs, k0, b0, e0, b, e)
      decreases |xs| - k
    {
      Decoded(code, xs, k, ep);
      var op := code[ep];
      if k < |xs| {
        Decode(xs[k], op);
      }
      if op == CCEOF {
        loc2 := lp;
        Finished(xs, s, k0, lp0, lp, b, e);
        return true, loc2, b, e;
      } else if op == CCHR || op == CDOT || op == CCL {
        var x, next := Operand(code, ep, xs, k);
        OneStep(xs, k, s, lp);
        if !Accepts(x, Get(s, lp)) {
          return false, 0, b, e;
        }
        LeadsOn(xs, s, k0, lp0, k, lp, b, e, lp + 1, b, e);
        lp, ep, k := lp + 1, next, k + 1;
      } else if op == CDOL {
        MarkStep(xs, k, s, lp);
        if Get(s, lp) != 0 {
          return false, 0, b, e;
        }
        LeadsOn(xs, s, k0, lp0, k, lp, b, e, lp, b, e);
        ep, k := ep + 1, k + 1;
      } else if op == CBRA || op == CKET {
        MarkStep(xs, k, s, lp);
        Number(code, xs, k, ep);
        var b', e' := b, e;
        if op == CBRA {
          b' := b[code[ep + 1] as nat := lp];
        } else {
          e' := e[code[ep + 1] as nat := lp];
        }
        LeadsOn(xs, s, k0, lp0, k, lp, b, e, lp, b', e');
        KeptMark(xs, k0, k, b0, e0, b, e, b', e');
        b, e, ep, k := b', e', ep + 2, k + 1;
      } else {
        var x, next := Operand(code, ep, xs, k);
        var top := TakeRun(s, x, lp);
        ghost var b', e' := b, e;
        ok, loc2, b, e := StarLoop(s, code, lp, top, next, b, e, xs, k);
        StarDone(xs, s, k0, lp0, k, lp, b0, e0, b', e', ok, loc2, b, e);
        return;
      }
    }
  }

  /** The label star: back up from the longest run until the rest matches. */
  method StarLoop(s: seq<Char>, code: seq<Char>, curlp: nat, lp0: nat, ep: nat, b0: seq<nat>, e0: seq<nat>, ghost xs: seq<Instr>, ghost k: nat)
    returns (ok: bool, loc2: nat, b: seq<nat>, e: seq<nat>)
    requires Subject(s) && k < |xs| && Program(code, xs, k + 1, ep) && |b0| == |e0| == NBRA
    requires Single(xs[k]) && xs[k].star && lp0 >= 1 && curlp <= |s| && RunEnd(xs[k], s, curlp, lp0 - 1)
    ensures ok <==> Matches(Means(xs), k, s, curlp)
    ensures ok ==> exists m: nat :: Taken(xs, k, s, curlp, m, loc2, b, e)
    ensures Kept(xs, k + 1, b0, e0, b, e) && |b| == |e| == NBRA
    decreases |xs| - k, 0
  {
    hide Flatten, Matches, Spans, Bytes, Accepts, Numbered, Kept;
    ManyStep(xs, k, s, curlp, lp0 - 1);
    KeptSame(xs, k + 1, b0, e0);
    var lp := lp0;
    b, e := b0, e0;
    while true
      invariant curlp < lp <= lp0 && |b| == |e| == NBRA && Kept(xs, k + 1, b0, e0, b, e)
      invariant forall m: nat :: lp <= m < lp0 ==> !Rest(xs, k, s, m)
      decreases lp
    {
      lp := lp - 1;
      ghost var b', e' := b, e;
      ok, loc2, b, e := Advance(s, code, lp, ep, b, e, xs, k + 1);
      KeptMore(xs, k + 1, b0, e0, b', e', b, e);
      if ok {
        NoLonger(xs, k, s, curlp, lp, lp0);
        assert Taken(xs, k, s, curlp, lp, loc2, b, e) && Rest(xs, k, s, lp);
        return;
      }
      if !(lp > curlp) {
        return false, 0, b, e;
      }
    }
  }

  lemma NoLonger(xs: seq<Instr>, k: nat, s: seq<Char>, i: nat, lp: nat, top: nat)
    requires AllSane(xs) && k < |xs| && Single(xs[k]) && top >= 1 && RunEnd(xs[k], s, i, top - 1)
    requires forall m: nat :: lp < m < top ==> !Rest(xs, k, s, m)
    ensures forall m: nat :: lp < m <= |s| && (forall q :: i <= q < m ==> Accepts(xs[k], s[q])) ==> !Rest(xs, k, s, m)
  {
    hide Rest, Accepts;
    forall m: nat | lp < m <= |s| && (forall q :: i <= q < m ==> Accepts(xs[k], s[q]))
      ensures !Rest(xs, k, s, m)
    {
      assert m < top;
    }
  }

  /** Positions where a search may find a match. */
  ghost predicate Found(xs: seq<Instr>, s: seq<Char>, circf: bool, i: nat)
    requires AllSane(xs)
  {
    i <= |s| && (circf ==> i == 0) && Matches(Means(xs), 0, s, i)
  }

  /** A literal first instruction matches only where its character stands. */
  lemma FirstChar(code: seq<Char>, xs: seq<Instr>, s: seq<Char>, i: nat)
    requires Program(code, xs, 0, 0) && code[0] == CCHR && i <= |s| && Subject(s) && |code| > 1 && Get(s, i) != code[1]
    ensures !Matches(Means(xs), 0, s, i)
  {
    hide Matches;
    Decoded(code, xs, 0, 0);
    Decode(xs[0], code[0]);
    assert code[1] == code[0..2][1];
    OneStep(xs, 0, s, i);
  }

  /**
   step: the first place where the code matches.  The shortcut for a literal first character, and the
   plain scan, give the same answer.
   */
  method Step(s: seq<Char>, code: seq<Char>, circf: bool, b0: seq<nat>, e0: seq<nat>, ghost xs: seq<Instr>)
    returns (ok: bool, loc1: nat, loc2: nat, b: seq<nat>, e: seq<nat>)
    requires Subject(s) && Program(code, xs, 0, 0) && |b0| == |e0| == NBRA
    ensures ok <==> exists i: nat :: Found(xs, s, circf, i)
    ensures ok ==> Found(xs, s, circf, loc1) && (forall i: nat :: i < loc1 ==> !Found(xs, s, circf, i)) && Spans(Means(xs), 0, s, loc1, loc2, b, e)
  {
    hide Matches, Spans, Kept, Numbered, Flatten;
    Decoded(code, xs, 0, 0);
    b, e, loc1, loc2 := b0, e0, 0, 0;
    if circf {
      ok, loc2, b, e := Advance(s, code, 0, 0, b, e, xs, 0);
      assert ok <==> Found(xs, s, circf, 0);
      return;
    }
    var fast := code[0] == CCHR;
    if fast {
      SecondByte(code, xs);
    }
    var p1 := 0;
    while true
      invariant p1 <= |s| && |b| == |e| == NBRA && forall i: nat :: i < p1 ==> !Found(xs, s, circf, i)
      decreases |s| - p1
    {
      if fast && Get(s, p1) != code[1] {
        FirstChar(code, xs, s, p1);
      } else {
        ok, loc2, b, e := Advance(s, code, p1, 0, b, e, xs, 0);
        if ok {
          loc1 := p1;
          assert Found(xs, s, circf, loc1);
          return;
        }
      }
      if Get(s, p1) == 0 {
        return false, 0, 0, b, e;
      }
      p1 := p1 + 1;
    }
  }

  lemma SecondByte(code: seq<Char>, xs: seq<Instr>)
    requires Program(code, xs, 0, 0) && code[0] == CCHR
    ensures |code| > 1
  {
    Decoded(code, xs, 0, 0);
  }
}
