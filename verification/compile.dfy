/** regexp.h's compile: one pass over the pattern, with stars patched into code already written. */
module Compiler {
  import opened Patterns
  import opened RegExp

  datatype Compiled = Code(code: seq<Char>, circf: bool) | Error(n: nat) | Keep | Unmodelled

  lemma WithNothing(r: Bracket)
    ensures With(iset{}, r) == r
  {
    if r.Bracket? {
      assert iset{} + r.cs == r.cs;
    }
  }

  lemma WithTwice(a: iset<Char>, b: iset<Char>, r: Bracket)
    ensures With(a, With(b, r)) == With(a + b, r)
  {
    if r.Bracket? {
      assert a + (b + r.cs) == (a + b) + r.cs;
    }
  }

  predicate From(lo: Char, x: Char, hi: Char) {
    lo <= x && x < hi
  }

  ghost function Until(lo: Char, hi: Char): iset<Char> {
    iset x: Char | From(lo, x, hi)
  }

  lemma UntilNext(lo: Char, hi: Char, cs: iset<Char>)
    requires lo <= hi && hi < 128
    ensures (cs + Until(lo, hi)) + iset{hi} == cs + Until(lo, hi + 1)
  {
    forall x: Char
      ensures From(lo, x, hi + 1) <==> From(lo, x, hi) || x == hi
    {
    }
  }

  lemma UntilEmpty(lo: Char, hi: Char, cs: iset<Char>)
    requires lo >= hi
    ensures cs + Until(lo, hi) == cs
  {
    assert forall x: Char :: !From(lo, x, hi);
  }

  lemma UntilRange(lo: Char, hi: Char, cs: iset<Char>)
    ensures (cs + Until(lo, hi)) + iset{hi} == cs + Range(lo, hi)
  {
    forall x: Char
      ensures Between(lo, x, hi) <==> From(lo, x, hi) || x == hi
    {
    }
  }

  function Code7(c: Char): (n: nat)
    ensures n < 256
  {
    c as nat
  }

  lemma CodeNext(c: Char)
    requires c < 128
    ensures Code7(c) < Code7(c + 1)
  {
    NumberLess(c, c + 1);
  }

  /** Where the loop over a range stands. */
  predicate Along(lo: Char, lc: Char, hi: Char) {
    lo <= lc && (lc <= hi || lc == lo) && lc < 128
  }

  lemma NextUp(lo: Char, lc: Char, hi: Char)
    requires Along(lo, lc, hi) && lc < hi && hi < 128
    ensures Along(lo, lc + 1, hi) && lo <= lc && lc < 128
  {
  }

  lemma StartUp(lo: Char, hi: Char)
    requires lo < 128
    ensures Along(lo, lo, hi)
  {
  }

  lemma AtTop(lo: Char, lc: Char, hi: Char)
    requires Along(lo, lc, hi) && !(lc < hi)
    ensures lc == hi || (lc == lo && lo >= hi)
  {
  }

  /** The characters of a range, up to but not including its last. */
  method PlaceRange(bits0: seq<Char>, lo: Char, hi: Char, ghost cs: iset<Char>) returns (bits: seq<Char>)
    requires Holds(bits0, cs) && lo < 128 && hi < 128
    ensures Holds(bits, cs + Until(lo, hi))
  {
    hide Holds, Until, Code7, Place, Along;
    bits := bits0;
    var lc := lo;
    UntilEmpty(lo, lo, cs);
    StartUp(lo, hi);
    while lc < hi
      invariant Along(lo, lc, hi) && Holds(bits, cs + Until(lo, lc))
      decreases 256 - Code7(lc)
    {
      NextUp(lo, lc, hi);
      CodeNext(lc);
      HoldsPlaced(bits, cs + Until(lo, lc), lc);
      HoldsSize(bits, cs + Until(lo, lc));
      UntilNext(lo, lc, cs);
      bits := Place(bits, lc);
      lc := lc + 1;
    }
    AtTop(lo, lc, hi);
    if lc != hi {
      UntilEmpty(lo, hi, cs);
    }
  }

  lemma HoldsSize(bits: seq<Char>, cs: iset<Char>)
    requires Holds(bits, cs)
    ensures |bits| == 16
  {
  }

  lemma HoldsNone(bits: seq<Char>)
    requires |bits| == 16 && forall i :: 0 <= i < 16 ==> bits[i] == 0
    ensures Holds(bits, iset{})
  {
    forall d: Char | d < 128
      ensures !IsThere(bits, d)
    {
      NoBit(Mask(d));
    }
  }

  lemma NoBit(m: Char)
    ensures (0 as Char) & m == 0
  {
  }

  datatype Listed = Bits(bits: seq<Char>, next: nat) | Bad49 | Endless

  /** The do-while loop over a bracketed list. */
  method List(p: seq<Char>, k0: nat) returns (r: Listed)
    requires Text(p) && k0 <= |p|
    ensures r.Bad49? ==> Listing(p, k0, 0) == BadBracket
    ensures r.Endless? ==> Listing(p, k0, 0) == OpenEnded
    ensures r.Bits? ==> Listing(p, k0, 0).Bracket? && Listing(p, k0, 0).next == r.next
    ensures r.Bits? ==> Holds(r.bits, Listing(p, k0, 0).cs) && 0 !in Listing(p, k0, 0).cs
  {
    hide Holds, Listing, Until, Range, Text;
    var bits := seq(16, i => 0 as Char);
    HoldsNone(bits);
    ghost var cs: iset<Char> := iset{};
    var k, lc := k0, 0 as Char;
    WithNothing(Listing(p, k0, 0));
    while true
      invariant k <= |p| && lc < 128 && Holds(bits, cs) && 0 !in cs
      invariant Listing(p, k0, 0) == With(cs, Listing(p, k, lc))
      decreases |p| - k
    {
      ListingStep(p, k, lc);
      var c := Get(p, k);
      if c == 0 || c == NL {
        return Bad49;
      }
      ghost var lc0 := lc;
      if c == DASH && lc != 0 {
        k := k + 1;
        c := Get(p, k);
        if c == RBRACKET {
          HoldsPlaced(bits, cs, DASH);
          HoldsSize(bits, cs);
          return Bits(Place(bits, DASH), k + 1);
        }
        if c == 0 {
          return Endless;
        }
        bits := PlaceRange(bits, lc, c, cs);
        UntilRange(lc, c, cs);
        NoNul(lc, c);
        HoldsPlaced(bits, cs + Until(lc, c), c);
        HoldsSize(bits, cs + Until(lc, c));
        WithTwice(cs, Range(lc, c), Listing(p, k + 1, c));
        cs := cs + Range(lc, c);
      } else {
        HoldsPlaced(bits, cs, c);
        HoldsSize(bits, cs);
        WithTwice(cs, iset{c}, Listing(p, k + 1, c));
        cs := cs + iset{c};
      }
      lc := c;
      bits := Place(bits, c);
      k := k + 1;
      if Get(p, k) == RBRACKET {
        return Bits(bits, k + 1);
      }
    }
  }

  lemma NoNul(lo: Char, hi: Char)
    requires lo != 0 && hi != 0
    ensures 0 !in Range(lo, hi)
  {
  }

  lemma ListingStep(p: seq<Char>, k: nat, lc: Char)
    requires Text(p) && k <= |p|
    ensures Get(p, k) == 0 <==> k == |p|
    ensures Get(p, k) < 128
    ensures k < |p| ==> Get(p, k + 1) < 128 && (Get(p, k + 1) == 0 <==> k + 1 == |p|)
    ensures Get(p, k) == 0 || Get(p, k) == NL ==> Listing(p, k, lc) == BadBracket
    ensures k < |p| && Get(p, k) != NL && Get(p, k) == DASH && lc != 0 ==>
      Listing(p, k, lc) ==
      if Get(p, k + 1) == RBRACKET then Bracket(iset{DASH}, k + 2)
      else if Get(p, k + 1) == 0 then OpenEnded
      else if Get(p, k + 2) == RBRACKET then Bracket(Range(lc, Get(p, k + 1)), k + 3)
      else With(Range(lc, Get(p, k + 1)), Listing(p, k + 2, Get(p, k + 1)))
    ensures k < |p| && Get(p, k) != NL && !(Get(p, k) == DASH && lc != 0) ==>
      Listing(p, k, lc) ==
      if Get(p, k + 1) == RBRACKET then Bracket(iset{Get(p, k)}, k + 2) else With(iset{Get(p, k)}, Listing(p, k + 1, Get(p, k)))
  {
    hide Range;
  }

  ghost function Glue(items: seq<Item>, r: Parsed): Parsed {
    if r.Items? then Items(items + r.items) else r
  }

  /** Instruction x and what the pattern from k on means after it. */
  ghost function After(p: seq<Char>, eof: Char, sed: bool, x: Instr, k: nat, nbra: nat, ebra: nat): Parsed
    requires k <= |p| && Sane(x)
  {
    if Single(x) then Starred(p, eof, sed, Accepted(x), x.star, k, nbra, ebra)
    else Then(Mean(x), Parse(p, eof, sed, k, false, nbra, ebra))
  }

  /** What the code so far and the pattern from k on mean: the last instruction may still be starred. */
  ghost function Meant(p: seq<Char>, eof: Char, sed: bool, xs: seq<Instr>, k: nat, nbra: nat, ebra: nat): Parsed
    requires k <= |p| && AllSane(xs)
  {
    if xs == [] then Parse(p, eof, sed, k, true, nbra, ebra)
    else Glue(Means(xs[..|xs| - 1]), After(p, eof, sed, xs[|xs| - 1], k, nbra, ebra))
  }

  lemma MeansSnoc(xs: seq<Instr>, x: Instr)
    requires AllSane(xs) && Sane(x)
    ensures AllSane(xs + [x]) && Means(xs + [x]) == Means(xs) + [Mean(x)]
  {
    hide Accepts;
  }

  lemma GlueThen(items: seq<Item>, x: Item, r: Parsed)
    ensures Glue(items, Then(x, r)) == Glue(items + [x], r)
  {
    if r.Items? {
      assert items + ([x] + r.items) == (items + [x]) + r.items;
    }
  }

  /** Where no star follows, the last instruction is settled. */
  lemma Settled(p: seq<Char>, eof: Char, sed: bool, xs: seq<Instr>, k: nat, nbra: nat, ebra: nat)
    requires k <= |p| && AllSane(xs) && (xs != [] && Single(xs[|xs| - 1]) ==> Get(p, k) != ASTERISK || eof == ASTERISK)
    ensures Meant(p, eof, sed, xs, k, nbra, ebra) == Glue(Means(xs), Parse(p, eof, sed, k, xs == [], nbra, ebra))
  {
    hide Parse, Accepts;
    var r := Parse(p, eof, sed, k, xs == [], nbra, ebra);
    if xs == [] {
      if r.Items? {
        assert [] + r.items == r.items;
      }
    } else {
      var ys, x := xs[..|xs| - 1], xs[|xs| - 1];
      assert xs == ys + [x];
      MeansSnoc(ys, x);
      GlueThen(Means(ys), Mean(x), r);
    }
  }

  /** A star after a single-character instruction stars it. */
  lemma StarTaken(p: seq<Char>, eof: Char, sed: bool, xs: seq<Instr>, x: Instr, k: nat, nbra: nat, ebra: nat)
    requires k < |p| && AllSane(xs) && xs != [] && Single(xs[|xs| - 1]) && Get(p, k) == ASTERISK && eof != ASTERISK
    requires x == xs[|xs| - 1].(star := true)
    ensures AllSane(xs[..|xs| - 1] + [x])
    ensures Meant(p, eof, sed, xs, k, nbra, ebra) == Meant(p, eof, sed, xs[..|xs| - 1] + [x], k + 1, nbra, ebra)
  {
    hide Parse;
    var ys, y := xs[..|xs| - 1], xs[|xs| - 1];
    MeansSnoc(ys, x);
    assert (ys + [x])[..|ys|] == ys;
    assert Accepted(x) == Accepted(y);
  }

  /** Patching the star into code already written. */
  lemma Patched(xs: seq<Instr>, x: Instr)
    requires xs != [] && Single(xs[|xs| - 1]) && x == xs[|xs| - 1].(star := true)
    ensures var at := |Flatten(xs[..|xs| - 1])|;
      && at < |Flatten(xs)| && Flatten(xs)[at] == Bytes(xs[|xs| - 1])[0]
      && Flatten(xs[..|xs| - 1] + [x]) == Flatten(xs)[at := Flatten(xs)[at] | STAR]
  {
    var ys, y := xs[..|xs| - 1], xs[|xs| - 1];
    assert (ys + [x])[..|ys|] == ys;
    OpStar(y);
    assert Bytes(x) == Bytes(y)[0 := Bytes(y)[0] | STAR];
  }

  lemma OpStar(y: Instr)
    requires Single(y)
    ensures Bytes(y.(star := true))[0] == Bytes(y)[0] | STAR
  {
  }

  /** Bracket numbers in use. */
  ghost predicate Counted(xs: seq<Instr>, nbra: nat, ebra: nat) {
    && ebra <= nbra <= NBRA && Numbered(xs)
    && (forall i :: 0 <= i < |xs| && xs[i].Bra? ==> xs[i].n as nat < nbra)
    && (forall i :: 0 <= i < |xs| && xs[i].Ket? ==> xs[i].n as nat < ebra)
  }

  /** The open brackets, innermost last. */
  ghost predicate Stacked(stack: seq<Char>, nbra: nat, ebra: nat) {
    ebra <= nbra <= NBRA && |stack| == nbra - ebra && forall i :: 0 <= i < |stack| ==> stack[i] as nat == ebra + i
  }

  datatype Piece = Finish | Fail(n: nat) | NotModelled | Emit(x: Instr, next: nat, nbra: nat, ebra: nat, stack: seq<Char>)

  lemma CharSet(c: Char)
    requires c != 0
    ensures Accepted(Chr(c, false)) == iset{c}
  {
  }

  lemma DotSet()
    ensures Accepted(Dot(false)) == AnyChar()
  {
  }

  lemma ListSet(bits: seq<Char>, cs: iset<Char>)
    requires Holds(bits, cs) && 0 !in cs
    ensures Sane(Ccl(bits, false)) && Accepted(Ccl(bits, false)) == iset x: Char | Low(x) in cs
  {
  }

  lemma NotListSet(bits: seq<Char>, cs: iset<Char>)
    requires Holds(bits, cs) && 0 !in cs
    ensures Sane(Ccl(Negated(bits), false)) && Accepted(Ccl(Negated(bits), false)) == iset x: Char | Low(x) != 0 && Low(x) !in cs
  {
    hide Low, Negated;
    HoldsNegated(bits, cs);
  }

  /** A piece of the pattern and its translation mean the same. */
  ghost predicate Translates(p: seq<Char>, eof: Char, sed: bool, meant: Parsed, k: nat, nbra: nat, ebra: nat, r: Piece) {
    match r
    case Finish => meant == Items([])
    case Fail(n) => meant == Bad(n)
    case NotModelled => meant == Outside
    case Emit(x, next, nbra', ebra', stack') =>
      && Sane(x) && k < next <= |p| && Stacked(stack', nbra', ebra')
      && meant == After(p, eof, sed, x, next, nbra', ebra')
      && (Single(x) ==> !x.star)
      && nbra' == nbra + (if x.Bra? then 1 else 0) && (x.Bra? ==> x.n as nat == nbra)
      && ebra' == ebra + (if x.Ket? then 1 else 0) && (x.Ket? ==> x.n as nat == ebra)
      && (x.Dol? ==> Get(p, next) == eof || Get(p, next) == NL)
  }

  /** A bracketed list. */
  method ClassPiece(p: seq<Char>, eof: Char, sed: bool, k: nat, nbra: nat, ebra: nat, stack: seq<Char>) returns (r: Piece)
    requires Text(p) && k < |p| && Get(p, k) == LBRACKET && Get(p, k) != eof && Stacked(stack, nbra, ebra)
    ensures Translates(p, eof, sed, Parse(p, eof, sed, k, false, nbra, ebra), k, nbra, ebra, r)
    ensures Translates(p, eof, sed, Parse(p, eof, sed, k, true, nbra, ebra), k, nbra, ebra, r)
  {
    hide Holds, Listing, Starred, Text, Accepted, Low, Negated, IsThere;
    var neg := Get(p, k + 1) == CARET;
    var l := List(p, if neg then k + 2 else k + 1);
    ghost var cs := if l.Bits? then Listing(p, if neg then k + 2 else k + 1, 0).cs else iset{};
    match l {
      case Bad49 => r := Fail(49);
      case Endless => r := NotModelled;
      case Bits(bits, next) =>
        HoldsSize(bits, cs);
        if neg {
          NotListSet(bits, cs);
          r := Emit(Ccl(Negated(bits), false), next, nbra, ebra, stack);
        } else {
          ListSet(bits, cs);
          r := Emit(Ccl(bits, false), next, nbra, ebra, stack);
        }
    }
  }

  lemma NumberFits(n: nat)
    requires n < 9
    ensures n as Char < 9 && (n as Char) as nat == n
  {
  }

  /** After a backslash. */
  method EscapePiece(p: seq<Char>, eof: Char, sed: bool, k: nat, start: bool, nbra: nat, ebra: nat, stack: seq<Char>) returns (r: Piece)
    requires Text(p) && k <= |p| && Stacked(stack, nbra, ebra)
    ensures Translates(p, eof, sed, Escaped(p, eof, sed, k, start, nbra, ebra), k, nbra, ebra, r)
  {
    hide Starred, Accepted, Parse, IsThere;
    var c := Get(p, k);
    if k == |p| {
      return NotModelled;
    } else if c == LPAR {
      if nbra >= NBRA {
        return Fail(43);
      }
      NumberFits(nbra);
      return Emit(Bra(nbra as Char), k + 1, nbra + 1, ebra, stack + [nbra as Char]);
    } else if c == RPAR {
      if |stack| == 0 || ebra + 1 != nbra {
        return Fail(42);
      }
      NumberFits(ebra);
      SameNumber(stack[0], ebra as Char);
      return Emit(Ket(stack[|stack| - 1]), k + 1, nbra, ebra + 1, stack[..|stack| - 1]);
    } else if c == LBRACE && !start {
      return NotModelled;
    } else if c == NL {
      return Fail(36);
    } else if 49 <= c && c <= 57 {
      return if (c - 49) as nat >= ebra then Fail(25) else NotModelled;
    }
    CharSet(if c == LOWERN then NL else c);
    r := Emit(Chr(if c == LOWERN then NL else c, false), k + 1, nbra, ebra, stack);
  }

  /** One turn of compile's switch, for everything but a star that has something to repeat. */
  method NextPiece(p: seq<Char>, eof: Char, sed: bool, k: nat, start: bool, nbra: nat, ebra: nat, stack: seq<Char>) returns (r: Piece)
    requires Text(p) && k < |p| && Get(p, k) != eof && Stacked(stack, nbra, ebra)
    ensures Translates(p, eof, sed, Parse(p, eof, sed, k, start, nbra, ebra), k, nbra, ebra, r)
  {
    hide Starred, Accepted, Escaped, IsThere, ClassOf, Stacked;
    var c := Get(p, k);
    if c == PERIOD {
      DotSet();
      return Emit(Dot(false), k + 1, nbra, ebra, stack);
    } else if c == NL {
      return if sed then Fail(36) else Finish;
    } else if c == DOLLAR && (Get(p, k + 1) == eof || Get(p, k + 1) == NL) {
      return Emit(Dol, k + 1, nbra, ebra, stack);
    } else if c == LBRACKET {
      r := ClassPiece(p, eof, sed, k, nbra, ebra, stack);
      return;
    } else if c == BACKSLASH {
      r := EscapePiece(p, eof, sed, k + 1, start, nbra, ebra, stack);
      return;
    }
    CharSet(c);
    r := Emit(Chr(c, false), k + 1, nbra, ebra, stack);
  }

  lemma CountedMore(xs: seq<Instr>, x: Instr, nbra: nat, ebra: nat, nbra': nat, ebra': nat)
    requires Counted(xs, nbra, ebra) && nbra' <= NBRA && ebra' <= nbra'
    requires nbra' == nbra + (if x.Bra? then 1 else 0) && (x.Bra? ==> x.n as nat == nbra)
    requires ebra' == ebra + (if x.Ket? then 1 else 0) && (x.Ket? ==> x.n as nat == ebra)
    ensures Counted(xs + [x], nbra', ebra')
  {
  }

  /** The state of the compiler at byte k of the pattern. */
  ghost predicate Midway(p: seq<Char>, eof: Char, sed: bool, whole: Parsed, k: nat, code: seq<Char>, last: int, nbra: nat, ebra: nat, stack: seq<Char>, xs: seq<Instr>) {
    && k <= |p| && AllSane(xs) && Counted(xs, nbra, ebra) && Stacked(stack, nbra, ebra)
    && code == Flatten(xs) && last == (if xs == [] then -1 else |Flatten(xs[..|xs| - 1])|)
    && whole == Meant(p, eof, sed, xs, k, nbra, ebra)
    && (xs != [] && xs[|xs| - 1].Dol? ==> Get(p, k) == eof || Get(p, k) == NL)
  }

  lemma Emitted(p: seq<Char>, eof: Char, sed: bool, whole: Parsed, k: nat, code: seq<Char>, last: int, nbra: nat, ebra: nat, stack: seq<Char>, xs: seq<Instr>, r: Piece)
    requires Midway(p, eof, sed, whole, k, code, last, nbra, ebra, stack, xs) && r.Emit?
    requires xs != [] && Single(xs[|xs| - 1]) ==> Get(p, k) != ASTERISK || eof == ASTERISK
    requires Translates(p, eof, sed, Parse(p, eof, sed, k, xs == [], nbra, ebra), k, nbra, ebra, r)
    ensures Midway(p, eof, sed, whole, r.next, code + Bytes(r.x), |code|, r.nbra, r.ebra, r.stack, xs + [r.x])
  {
    hide Parse, After, Means, Bytes, Numbered, Sane;
    Settled(p, eof, sed, xs, k, nbra, ebra);
    MeansSnoc(xs, r.x);
    CountedMore(xs, r.x, nbra, ebra, r.nbra, r.ebra);
    assert (xs + [r.x])[..|xs|] == xs;
  }

  /** Starring the last instruction, in the code and in the meaning. */
  lemma Starring(p: seq<Char>, eof: Char, sed: bool, whole: Parsed, k: nat, code: seq<Char>, last: int, nbra: nat, ebra: nat, stack: seq<Char>, xs: seq<Instr>, x: Instr, ys: seq<Instr>)
    requires Midway(p, eof, sed, whole, k, code, last, nbra, ebra, stack, xs) && k < |p| && Get(p, k) == ASTERISK && eof != ASTERISK
    requires xs != [] && Single(xs[|xs| - 1]) && x == xs[|xs| - 1].(star := true) && ys == xs[..|xs| - 1] + [x]
    ensures 0 <= last < |code|
    ensures Midway(p, eof, sed, whole, k + 1, code[last := code[last] | STAR], last, nbra, ebra, stack, ys)
  {
    hide Parse, After, Means, Bytes, Meant, Counted, Stacked, Flatten, AllSane;
    StarTaken(p, eof, sed, xs, x, k, nbra, ebra);
    Patched(xs, x);
    CountedStar(xs, x, nbra, ebra);
    StarredLast(xs, x, ys);
  }

  lemma StarredLast(xs: seq<Instr>, x: Instr, ys: seq<Instr>)
    requires xs != [] && ys == xs[..|xs| - 1] + [x]
    ensures |ys| == |xs| && ys[..|ys| - 1] == xs[..|xs| - 1] && ys[|ys| - 1] == x
  {
  }

  lemma CountedStar(xs: seq<Instr>, x: Instr, nbra: nat, ebra: nat)
    requires xs != [] && Single(xs[|xs| - 1]) && Single(x) && Counted(xs, nbra, ebra)
    ensures Counted(xs[..|xs| - 1] + [x], nbra, ebra)
  {
    var ys := xs[..|xs| - 1] + [x];
    assert forall i :: 0 <= i < |xs| - 1 ==> ys[i] == xs[i];
  }

  lemma LastOp(code: seq<Char>, last: int, xs: seq<Instr>)
    requires code == Flatten(xs) && xs != [] && last == |Flatten(xs[..|xs| - 1])|
    ensures 0 <= last < |code| && code[last] == Bytes(xs[|xs| - 1])[0]
    ensures code[last] == CBRA <==> xs[|xs| - 1].Bra?
    ensures code[last] == CKET <==> xs[|xs| - 1].Ket?
  {
    hide Bytes;
    Decode(xs[|xs| - 1], Bytes(xs[|xs| - 1])[0]);
  }

  lemma CaretIn(p: seq<Char>)
    ensures Get(p, 0) == CARET ==> |p| >= 1
  {
  }

  lemma Begin(p: seq<Char>, eof: Char, sed: bool, k: nat)
    requires k <= |p|
    ensures Midway(p, eof, sed, Parse(p, eof, sed, k, true, 0, 0), k, [], -1, 0, 0, [], [])
  {
    hide Parse;
  }

  lemma MidwayFacts(p: seq<Char>, eof: Char, sed: bool, whole: Parsed, k: nat, code: seq<Char>, last: int, nbra: nat, ebra: nat, stack: seq<Char>, xs: seq<Instr>)
    requires Midway(p, eof, sed, whole, k, code, last, nbra, ebra, stack, xs)
    ensures k <= |p| && AllSane(xs) && Stacked(stack, nbra, ebra) && (last >= 0 <==> xs != []) && (last >= 0 ==> last < |code|)
    ensures Get(p, k) == ASTERISK && eof != ASTERISK && xs != [] ==> (code[last] != CBRA && code[last] != CKET <==> Single(xs[|xs| - 1]))
  {
    hide Parse, Meant, Counted, Bytes, Means;
    if xs != [] {
      LastOp(code, last, xs);
    }
  }

  /** At the end of the pattern the code is complete. */
  lemma Stopped(p: seq<Char>, eof: Char, sed: bool, whole: Parsed, k: nat, code: seq<Char>, last: int, nbra: nat, ebra: nat, stack: seq<Char>, xs: seq<Instr>, meant: Parsed)
    requires Midway(p, eof, sed, whole, k, code, last, nbra, ebra, stack, xs)
    requires xs != [] && Single(xs[|xs| - 1]) ==> Get(p, k) != ASTERISK || eof == ASTERISK
    requires meant == Parse(p, eof, sed, k, xs == [], nbra, ebra)
    ensures AllSane(xs)
    ensures meant == Items([]) ==> whole == Items(Means(xs)) && Program(code + [CCEOF], xs, 0, 0)
    ensures !meant.Items? ==> whole == meant
  {
    hide Parse, Means, Bytes, Meant;
    Settled(p, eof, sed, xs, k, nbra, ebra);
    assert xs[..0] == [];
  }

  lemma AtEnd(p: seq<Char>, eof: Char, sed: bool, k: nat, start: bool, nbra: nat, ebra: nat)
    requires k <= |p|
    ensures Get(p, k) == eof ==> Parse(p, eof, sed, k, start, nbra, ebra) == Items([])
    ensures Get(p, k) != eof && k == |p| ==> Parse(p, eof, sed, k, start, nbra, ebra) == Outside
    ensures k == |p| ==> Get(p, k) == 0
  {
  }

  /** The code is a program that means the items. */
  ghost predicate CodeOf(code: seq<Char>, items: seq<Item>) {
    exists xs: seq<Instr> :: AllSane(xs) && Program(code, xs, 0, 0) && Means(xs) == items
  }

  /** The outcome of compile is what the grammar says. */
  ghost predicate Carries(m: Meaning, r: Compiled) {
    if m.Previous? then r == Keep
    else if m.parsed.Bad? then r == Error(m.parsed.error)
    else if m.parsed.Outside? then r == Unmodelled
    else r.Code? && r.circf == m.circ && CodeOf(r.code, m.parsed.items)
  }

  /** compile: code that means what the grammar says, or the error the grammar says. */
  method Compile(p: seq<Char>, eof: Char, sed: bool) returns (r: Compiled)
    requires Text(p)
    ensures Carries(Pattern(p, eof, sed), r)
  {
    hide Parse, Meant, Flatten, Bytes, Counted, Stacked, Numbered, After, Midway, Text, Means, Program, Sane;
    ghost var xs: seq<Instr> := [];
    var c := Get(p, 0);
    if c == eof || c == NL {
      return Keep;
    }
    var k := if c == CARET then 1 else 0;
    var circf := c == CARET;
    CaretIn(p);
    ghost var whole := Parse(p, eof, sed, k, true, 0, 0);
    var code, last, nbra, ebra := [], -1, 0, 0;
    var stack: seq<Char> := [];
    Begin(p, eof, sed, k);
    while true
      invariant Midway(p, eof, sed, whole, k, code, last, nbra, ebra, stack, xs)
      decreases |p| - k
    {
      MidwayFacts(p, eof, sed, whole, k, code, last, nbra, ebra, stack, xs);
      c := Get(p, k);
      AtEnd(p, eof, sed, k, last < 0, nbra, ebra);
      ghost var meant := Parse(p, eof, sed, k, last < 0, nbra, ebra);
      if c == eof {
        Stopped(p, eof, sed, whole, k, code, last, nbra, ebra, stack, xs, meant);
        return Code(code + [CCEOF], circf);
      }
      if k == |p| {
        Stopped(p, eof, sed, whole, k, code, last, nbra, ebra, stack, xs, meant);
        return Unmodelled;
      }
      if c == ASTERISK && last >= 0 && code[last] != CBRA && code[last] != CKET {
        ghost var x := xs[|xs| - 1].(star := true);
        ghost var ys := xs[..|xs| - 1] + [x];
        Starring(p, eof, sed, whole, k, code, last, nbra, ebra, stack, xs, x, ys);
        code := code[last := code[last] | STAR];
        xs := ys;
        k := k + 1;
      } else {
        var q := NextPiece(p, eof, sed, k, last < 0, nbra, ebra, stack);
        if !q.Emit? {
          Stopped(p, eof, sed, whole, k, code, last, nbra, ebra, stack, xs, meant);
          match q {
            case Finish => return Code(code + [CCEOF], circf);
            case Fail(n) => return Error(n);
            case NotModelled => return Unmodelled;
          }
        }
        Emitted(p, eof, sed, whole, k, code, last, nbra, ebra, stack, xs, q);
        last := |code|;
        code := code + Bytes(q.x);
        xs := xs + [q.x];
        k, nbra, ebra, stack := q.next, q.nbra, q.ebra, q.stack;
      }
    }
  }

  /** Some match of the pattern begins at i. */
  ghost predicate Occurs(items: seq<Item>, circ: bool, s: seq<Char>, i: nat) {
    i <= |s| && (circ ==> i == 0) && exists j: nat :: Denotes(items, 0, s, i, j)
  }

  /** Whether the pattern matches, the first place where it does, and the match that is reported. */
  ghost predicate Finds(m: Meaning, s: seq<Char>, r: Compiled, ok: bool, loc1: nat, loc2: nat, b: seq<nat>, e: seq<nat>) {
    if m.Meaning? && m.parsed.Items? then
      && r.Code?
      && (ok <==> exists i: nat :: Occurs(m.parsed.items, m.circ, s, i))
      && (ok ==> Spans(m.parsed.items, 0, s, loc1, loc2, b, e) && (m.circ ==> loc1 == 0) && forall i: nat :: i < loc1 ==> !Occurs(m.parsed.items, m.circ, s, i))
    else !r.Code? && !ok
  }

  /** compile and step together decide whether, and find the first place where, the pattern matches. */
  method Search(p: seq<Char>, eof: Char, sed: bool, s: seq<Char>) returns (r: Compiled, ok: bool, loc1: nat, loc2: nat, b: seq<nat>, e: seq<nat>)
    requires Text(p) && Subject(s)
    ensures Finds(Pattern(p, eof, sed), s, r, ok, loc1, loc2, b, e)
    ensures p != [] && p[0] == 94 && eof != 94 && ok ==> loc1 == 0 && r.circf
    ensures (p == [] || p[0] != 94) && ok ==> !r.circf
  {
    hide Parse, Program, Means, Denotes, Spans, Text;
    r := Compile(p, eof, sed);
    ok, loc1, loc2, b, e := false, 0, 0, seq(NBRA, i => 0), seq(NBRA, i => 0);
    if r.Code? {
      ghost var m := Pattern(p, eof, sed);
      ghost var xs: seq<Instr> :| AllSane(xs) && Program(r.code, xs, 0, 0) && Means(xs) == m.parsed.items;
      ok, loc1, loc2, b, e := Step(s, r.code, r.circf, b, e, xs);
      assert forall i: nat :: Found(xs, s, r.circf, i) <==> Occurs(Means(xs), r.circf, s, i);
    }
  }
}
