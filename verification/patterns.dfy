/** The regular expressions of regexp.h: their grammar and what they match. */
module Patterns {
  type Char = bv8

  const NL: Char := 10
  const DOLLAR: Char := 36
  const LPAR: Char := 40
  const RPAR: Char := 41
  const ASTERISK: Char := 42
  const DASH: Char := 45
  const PERIOD: Char := 46
  const LBRACKET: Char := 91
  const BACKSLASH: Char := 92
  const RBRACKET: Char := 93
  const CARET: Char := 94
  const LOWERN: Char := 110
  const LBRACE: Char := 123

  const NBRA := 9

  /** One character of a set, any number of them, the ends of \( \), and the end of the subject. */
  datatype Item = One(cs: iset<Char>) | Many(cs: iset<Char>) | Open(n: nat) | Close(n: nat) | Eol

  /** The items from k on match s from i to j. */
  ghost predicate Denotes(items: seq<Item>, k: nat, s: seq<Char>, i: nat, j: nat)
    requires k <= |items|
    decreases |items| - k
  {
    && i <= j <= |s|
    && if k == |items| then i == j
       else match items[k]
         case One(cs) => i < |s| && s[i] in cs && Denotes(items, k + 1, s, i + 1, j)
         case Many(cs) => exists m: nat :: i <= m <= |s| && Within(s, i, m, cs) && Denotes(items, k + 1, s, m, j)
         case Eol => i == |s| && Denotes(items, k + 1, s, i, j)
         case _ => Denotes(items, k + 1, s, i, j)
  }

  /**
   The match that is reported: as Denotes, with b and e the places where each bracketed part begins and
   ends, and each star taking the longest run that lets the rest match.
   */
  ghost predicate Spans(items: seq<Item>, k: nat, s: seq<Char>, i: nat, j: nat, b: seq<nat>, e: seq<nat>)
    requires k <= |items|
    decreases |items| - k
  {
    && i <= j <= |s|
    && if k == |items| then i == j
       else match items[k]
         case One(cs) => i < |s| && s[i] in cs && Spans(items, k + 1, s, i + 1, j, b, e)
         case Many(cs) => exists m: nat :: i <= m <= |s| && Within(s, i, m, cs) && Spans(items, k + 1, s, m, j, b, e) && Longest(items, k, s, i, m, cs)
         case Eol => i == |s| && Spans(items, k + 1, s, i, j, b, e)
         case Open(n) => n < |b| && b[n] == i && Spans(items, k + 1, s, i, j, b, e)
         case Close(n) => n < |e| && e[n] == i && Spans(items, k + 1, s, i, j, b, e)
  }

  /** No longer run of cs from i on lets the items after k match. */
  ghost predicate Longest(items: seq<Item>, k: nat, s: seq<Char>, i: nat, m: nat, cs: iset<Char>)
    requires k < |items|
  {
    forall m': nat :: m < m' <= |s| && Within(s, i, m', cs) ==> !Matches(items, k + 1, s, m')
  }

  ghost predicate Within(s: seq<Char>, i: nat, m: nat, cs: iset<Char>)
    requires m <= |s|
  {
    forall q :: i <= q < m ==> s[q] in cs
  }

  lemma {:induction false} SpansDenotes(items: seq<Item>, k: nat, s: seq<Char>, i: nat, j: nat, b: seq<nat>, e: seq<nat>)
    requires k <= |items| && Spans(items, k, s, i, j, b, e)
    ensures Denotes(items, k, s, i, j)
    decreases |items| - k
  {
    if k < |items| {
      match items[k] {
        case One(cs) => SpansDenotes(items, k + 1, s, i + 1, j, b, e);
        case Many(cs) =>
          var m: nat :| i <= m <= |s| && Within(s, i, m, cs) && Spans(items, k + 1, s, m, j, b, e);
          SpansDenotes(items, k + 1, s, m, j, b, e);
        case _ => SpansDenotes(items, k + 1, s, i, j, b, e);
      }
    }
  }

  /** Some match of the items from k on begins at i. */
  ghost predicate Matches(items: seq<Item>, k: nat, s: seq<Char>, i: nat)
    requires k <= |items|
  {
    exists j: nat :: Denotes(items, k, s, i, j)
  }

  /** A pattern is a C string. */
  ghost predicate Text(p: seq<Char>) {
    forall i :: 0 <= i < |p| ==> 0 < p[i] < 128
  }

  function Get(p: seq<Char>, k: nat): Char
    requires k <= |p|
  {
    if k < |p| then p[k] else 0
  }

  datatype Parsed = Items(items: seq<Item>) | Bad(error: nat) | Outside

  datatype Bracket = Bracket(cs: iset<Char>, next: nat) | BadBracket | OpenEnded

  ghost function Then(x: Item, r: Parsed): Parsed {
    if r.Items? then Items([x] + r.items) else r
  }

  ghost function With(cs: iset<Char>, r: Bracket): Bracket {
    if r.Bracket? then Bracket(cs + r.cs, r.next) else r
  }

  /** What stands between brackets from k on; lc is the character a dash would continue from. */
  ghost function Listing(p: seq<Char>, k: nat, lc: Char): (r: Bracket)
    requires k <= |p|
    ensures r.Bracket? ==> k < r.next <= |p|
    decreases |p| - k, 0
  {
    var c := Get(p, k);
    if k == |p| || c == NL then BadBracket
    else if c == DASH && lc != 0 then
      if Get(p, k + 1) == RBRACKET then Bracket(iset{DASH}, k + 2)
      else if k + 1 == |p| then OpenEnded
      else Listed(p, k + 2, Get(p, k + 1), Range(lc, Get(p, k + 1)))
    else Listed(p, k + 1, c, iset{c})
  }

  ghost function Range(lo: Char, hi: Char): iset<Char> {
    iset x: Char | Between(lo, x, hi)
  }

  predicate Between(lo: Char, x: Char, hi: Char) {
    x == hi || (lo <= x && x < hi)
  }

  function Low(x: Char): (r: Char)
    ensures r < 128 && (x < 128 ==> r == x)
  {
    x & 127
  }

  predicate NotNul(x: Char) {
    x != 0
  }

  ghost function AnyChar(): iset<Char> {
    iset x: Char | NotNul(x)
  }

  ghost function Listed(p: seq<Char>, k: nat, lc: Char, cs: iset<Char>): (r: Bracket)
    requires k <= |p|
    ensures r.Bracket? ==> k < r.next <= |p|
    decreases |p| - k, 1
  {
    if Get(p, k) == RBRACKET then Bracket(cs, k + 1) else With(cs, Listing(p, k, lc))
  }

  /** A list matches seven-bit characters; a complemented one never matches the terminator. */
  ghost function ClassOf(p: seq<Char>, k: nat): (r: Bracket)
    requires k <= |p|
    ensures r.Bracket? ==> k < r.next <= |p|
  {
    if Get(p, k) == CARET then
      var r := Listing(p, k + 1, 0);
      if r.Bracket? then Bracket((iset x: Char | Low(x) != 0 && Low(x) !in r.cs), r.next) else r
    else
      var r := Listing(p, k, 0);
      if r.Bracket? then Bracket((iset x: Char | Low(x) in r.cs), r.next) else r
  }

  /** Past the stars at k. */
  ghost function Stars(p: seq<Char>, eof: Char, k: nat): (q: nat)
    requires k <= |p|
    ensures k <= q <= |p|
    decreases |p| - k
  {
    if Get(p, k) == ASTERISK && eof != ASTERISK then Stars(p, eof, k + 1) else k
  }

  /** A one-character item and the stars after it, then the rest. */
  ghost function Starred(p: seq<Char>, eof: Char, sed: bool, cs: iset<Char>, many: bool, k: nat, nbra: nat, ebra: nat): Parsed
    requires k <= |p|
    decreases |p| - k, 1
  {
    var q := Stars(p, eof, k);
    Then(if many || q > k then Many(cs) else One(cs), Parse(p, eof, sed, q, false, nbra, ebra))
  }

  /**
   The grammar.  A star belongs to the character, period or list before it; where there is none it stands
   for itself, as does a dollar sign that is not last.  Bracketed parts are not nested.  Outside is what
   is not modelled: repetition counts, back references and text that ends in the middle of something.
   */
  ghost function Parse(p: seq<Char>, eof: Char, sed: bool, k: nat, start: bool, nbra: nat, ebra: nat): Parsed
    requires k <= |p|
    decreases |p| - k, 0
  {
    var c := Get(p, k);
    if c == eof then Items([])
    else if k == |p| then Outside
    else if c == NL then (if sed then Bad(36) else Items([]))
    else if c == PERIOD then Starred(p, eof, sed, AnyChar(), false, k + 1, nbra, ebra)
    else if c == DOLLAR && (Get(p, k + 1) == eof || Get(p, k + 1) == NL) then Then(Eol, Parse(p, eof, sed, k + 1, false, nbra, ebra))
    else if c == LBRACKET then
      var r := ClassOf(p, k + 1);
      if r.BadBracket? then Bad(49)
      else if r.OpenEnded? then Outside
      else Starred(p, eof, sed, r.cs, false, r.next, nbra, ebra)
    else if c == BACKSLASH then Escaped(p, eof, sed, k + 1, start, nbra, ebra)
    else Starred(p, eof, sed, iset{c}, false, k + 1, nbra, ebra)
  }

  /** After a backslash. */
  ghost function Escaped(p: seq<Char>, eof: Char, sed: bool, k: nat, start: bool, nbra: nat, ebra: nat): Parsed
    requires k <= |p|
    decreases |p| - k, 2
  {
    var c := Get(p, k);
    if k == |p| then Outside
    else if c == LPAR then (if nbra >= NBRA then Bad(43) else Then(Open(nbra), Parse(p, eof, sed, k + 1, false, nbra + 1, ebra)))
    else if c == RPAR then (if ebra + 1 != nbra then Bad(42) else Then(Close(ebra), Parse(p, eof, sed, k + 1, false, nbra, ebra + 1)))
    else if c == LBRACE && !start then Outside
    else if c == NL then Bad(36)
    else if 49 <= c && c <= 57 then (if (c - 49) as nat >= ebra then Bad(25) else Outside)
    else Starred(p, eof, sed, iset{if c == LOWERN then NL else c}, false, k + 1, nbra, ebra)
  }

  /** Whether the pattern is tied to the beginning, and its items.  The empty pattern stands for the one before it. */
  datatype Meaning = Meaning(circ: bool, parsed: Parsed) | Previous

  ghost function Pattern(p: seq<Char>, eof: Char, sed: bool): Meaning {
    if Get(p, 0) == eof || Get(p, 0) == NL then Previous
    else if Get(p, 0) == CARET then Meaning(true, Parse(p, eof, sed, 1, true, 0, 0))
    else Meaning(false, Parse(p, eof, sed, 0, true, 0, 0))
  }
}
