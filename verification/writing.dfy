/** Patterns written out from their structure: what the compiler and the matcher make of them. */
module PatternWriting {
  import opened Patterns
  import opened RegExp
  import opened Compiler

  datatype Part = Only(c: Char) | Span(lo: Char, hi: Char)
  datatype Atom = Literal(c: Char) | Any | Class(neg: bool, parts: seq<Part>)
  datatype Node = Once(a: Atom) | Star(a: Atom) | Begin | End
  datatype Regex = Regex(anchored: bool, nodes: seq<Node>, atEnd: bool)

  /** The characters an atom stands for; those of a list are compared in seven bits. */
  ghost predicate Takes(a: Atom, x: Char) {
    match a
    case Literal(c) => x == c
    case Any => x != 0
    case Class(neg, parts) => if neg then Low(x) != 0 && !InParts(parts, Low(x)) else InParts(parts, Low(x))
  }

  ghost predicate InParts(parts: seq<Part>, x: Char) {
    exists i :: 0 <= i < |parts| && InPart(parts[i], x)
  }

  predicate InPart(part: Part, x: Char) {
    match part
    case Only(c) => x == c
    case Span(lo, hi) => Inside(lo, x, hi)
  }

  predicate Inside(lo: Char, x: Char, hi: Char) {
    lo <= x && x <= hi
  }

  ghost predicate AllTaken(a: Atom, s: seq<Char>, i: nat, m: nat)
    requires m <= |s|
  {
    forall q :: i <= q < m ==> Takes(a, s[q])
  }

  /** The nodes from k on match s from i to j. */
  ghost predicate Reads(nodes: seq<Node>, k: nat, s: seq<Char>, i: nat, j: nat)
    requires k <= |nodes|
    decreases |nodes| - k
  {
    && i <= j <= |s|
    && if k == |nodes| then i == j
       else match nodes[k]
         case Once(a) => i < |s| && Takes(a, s[i]) && Reads(nodes, k + 1, s, i + 1, j)
         case Star(a) => exists m: nat :: i <= m <= |s| && AllTaken(a, s, i, m) && Reads(nodes, k + 1, s, m, j)
         case _ => Reads(nodes, k + 1, s, i, j)
  }

  /** Characters with a meaning of their own, which a backslash takes away. */
  predicate Special(c: Char, eof: Char) {
    c == 46 || c == 91 || c == 92 || c == 42 || c == 36 || c == 94 || c == eof
  }

  function WriteAtom(a: Atom, eof: Char): (w: seq<Char>)
    ensures w != []
  {
    match a
    case Literal(c) => if c == 10 then [92, 110] else if Special(c, eof) then [92, c] else [c]
    case Any => [46]
    case Class(neg, parts) => (if neg then [91, 94] else [91]) + WriteParts(parts) + [93]
  }

  function WriteParts(parts: seq<Part>): seq<Char> {
    if parts == [] then [] else WritePart(parts[0]) + WriteParts(parts[1..])
  }

  function WritePart(part: Part): (w: seq<Char>)
    ensures w != []
  {
    match part case Only(c) => [c] case Span(lo, hi) => [lo, 45, hi]
  }

  function WriteNode(n: Node, eof: Char): (w: seq<Char>)
    ensures w != []
  {
    match n
    case Once(a) => WriteAtom(a, eof)
    case Star(a) => WriteAtom(a, eof) + [42]
    case Begin => [92, 40]
    case End => [92, 41]
  }

  function WriteNodes(nodes: seq<Node>, k: nat, eof: Char): seq<Char>
    requires k <= |nodes|
    decreases |nodes| - k
  {
    if k == |nodes| then [] else WriteNode(nodes[k], eof) + WriteNodes(nodes, k + 1, eof)
  }

  function Write(r: Regex, eof: Char): seq<Char> {
    (if r.anchored then [94] else []) + WriteNodes(r.nodes, 0, eof) + if r.atEnd then [36] else []
  }

  /** A delimiter that has no other meaning, or the end of the string. */
  predicate Delimiter(eof: Char) {
    eof == 0 || (eof < 128 && eof != 10 && !(49 <= eof && eof <= 57)
                 && eof != 36 && eof != 40 && eof != 41 && eof != 42 && eof != 46 && eof != 91 && eof != 92 && eof != 94 && eof != 110 && eof != 123)
  }

  /** A character that can stand in a list. */
  predicate Listable(c: Char) {
    0 < c && c < 128 && c != 10 && c != 93 && c != 45 && c != 94
  }

  predicate PartOk(part: Part) {
    match part case Only(c) => Listable(c) case Span(lo, hi) => Listable(lo) && Listable(hi) && lo <= hi
  }

  predicate AtomOk(a: Atom) {
    match a
    case Literal(c) => 0 < c && c < 128
    case Any => true
    case Class(_, parts) => parts != [] && forall i :: 0 <= i < |parts| ==> PartOk(parts[i])
  }

  /** Brackets open and close in turn, nine pairs at most. */
  predicate Grouped(nodes: seq<Node>, k: nat, nbra: nat, ebra: nat)
    requires k <= |nodes|
    decreases |nodes| - k
  {
    k == |nodes| ||
    match nodes[k]
    case Once(a) => AtomOk(a) && Grouped(nodes, k + 1, nbra, ebra)
    case Star(a) => AtomOk(a) && Grouped(nodes, k + 1, nbra, ebra)
    case Begin => nbra < 9 && nbra == ebra && Grouped(nodes, k + 1, nbra + 1, ebra)
    case End => nbra == ebra + 1 && Grouped(nodes, k + 1, nbra, ebra + 1)
  }

  ghost function CharsOf(a: Atom): iset<Char> {
    iset x: Char | Takes(a, x)
  }

  /** The items the nodes from k on stand for. */
  ghost function ItemsFrom(nodes: seq<Node>, k: nat, nbra: nat, ebra: nat): seq<Item>
    requires k <= |nodes|
    decreases |nodes| - k
  {
    if k == |nodes| then []
    else match nodes[k]
      case Once(a) => [One(CharsOf(a))] + ItemsFrom(nodes, k + 1, nbra, ebra)
      case Star(a) => [Many(CharsOf(a))] + ItemsFrom(nodes, k + 1, nbra, ebra)
      case Begin => [Open(nbra)] + ItemsFrom(nodes, k + 1, nbra + 1, ebra)
      case End => [Close(ebra)] + ItemsFrom(nodes, k + 1, nbra, ebra + 1)
  }

  ghost function EndItems(atEnd: bool): seq<Item> {
    if atEnd then [Eol] else []
  }

  /** From place k on, p reads w. */
  ghost predicate Here(p: seq<Char>, k: nat, w: seq<Char>) {
    k + |w| <= |p| && p[k..k + |w|] == w
  }

  lemma HereAt(p: seq<Char>, k: nat, w: seq<Char>, i: nat)
    requires Here(p, k, w) && i < |w|
    ensures k + i < |p| && Get(p, k + i) == p[k + i] == w[i]
  {
    assert p[k..k + |w|][i] == p[k + i];
  }

  lemma HereSplit(p: seq<Char>, k: nat, a: seq<Char>, b: seq<Char>)
    requires Here(p, k, a + b)
    ensures Here(p, k, a) && Here(p, k + |a|, b)
  {
    var w := a + b;
    assert p[k..k + |a|] == w[..|a|];
    assert p[k + |a|..k + |w|] == w[|a|..];
  }

  /** A list that is written out is read as its parts. */
  ghost function PartsSet(parts: seq<Part>): iset<Char> {
    iset x: Char | InParts(parts, x)
  }

  lemma PartsMore(parts: seq<Part>, x: Char)
    requires parts != []
    ensures InParts(parts, x) <==> InPart(parts[0], x) || InParts(parts[1..], x)
  {
    var rest := parts[1..];
    if InParts(rest, x) {
      var i :| 0 <= i < |rest| && InPart(rest[i], x);
      assert InPart(parts[i + 1], x);
    }
    if InParts(parts, x) {
      var i :| 0 <= i < |parts| && InPart(parts[i], x);
      assert i > 0 ==> InPart(rest[i - 1], x);
    }
  }

  lemma PartsSets(parts: seq<Part>)
    requires parts != [] && PartOk(parts[0])
    ensures var rest := if |parts| == 1 then iset{} else PartsSet(parts[1..]);
      match parts[0]
      case Only(c) => PartsSet(parts) == iset{c} + rest
      case Span(lo, hi) => PartsSet(parts) == iset{lo} + (Range(lo, hi) + rest)
  {
    hide InParts, InPart, Between, Listable;
    var rest := if |parts| == 1 then iset{} else PartsSet(parts[1..]);
    forall x: Char
      ensures x in PartsSet(parts) <==> InPart(parts[0], x) || x in rest
    {
      PartsMore(parts, x);
      NoParts(x);
      assert |parts| == 1 ==> parts[1..] == [];
    }
    match parts[0] {
      case Only(c) =>
        forall x: Char
          ensures x in PartsSet(parts) <==> x in iset{c} + rest
        {
          PartIs(parts[0], x);
        }
      case Span(lo, hi) =>
        forall x: Char
          ensures x in PartsSet(parts) <==> x in iset{lo} + (Range(lo, hi) + rest)
        {
          PartIs(parts[0], x);
        }
    }
  }

  lemma NoParts(x: Char)
    ensures !InParts([], x)
  {
  }

  lemma PartIs(part: Part, x: Char)
    requires PartOk(part)
    ensures InPart(part, x) <==> match part case Only(c) => x == c case Span(lo, hi) => x == lo || Between(lo, x, hi)
  {
    hide Between, Listable, Inside;
    if part.Span? {
      Inclusive(part.lo, x, part.hi);
    }
  }

  lemma Inclusive(lo: Char, x: Char, hi: Char)
    requires lo <= hi
    ensures Inside(lo, x, hi) <==> x == lo || Between(lo, x, hi)
  {
  }

  lemma {:induction false} ListRead(p: seq<Char>, k: nat, lc: Char, parts: seq<Part>)
    requires parts != [] && (forall i :: 0 <= i < |parts| ==> PartOk(parts[i])) && Here(p, k, WriteParts(parts) + [93])
    ensures Listing(p, k, lc) == Bracket(PartsSet(parts), k + |WriteParts(parts)| + 1)
    decreases |parts|
  {
    hide Here, PartsSet, Range, Listing;
    var part, rest := parts[0], parts[1..];
    var w := WriteParts(rest) + [93];
    assert WriteParts(parts) + [93] == WritePart(part) + w;
    HereSplit(p, k, WritePart(part), w);
    HereAt(p, k, WritePart(part), 0);
    HereAt(p, k + |WritePart(part)|, w, 0);
    PartsSets(parts);
    NextPart(rest);
    if rest != [] {
      ListRead(p, k + |WritePart(part)|, if part.Only? then part.c else part.hi, rest);
    }
    match part {
      case Only(c) => OnlyRead(p, k, lc, c);
      case Span(lo, hi) =>
        HereAt(p, k, WritePart(part), 1);
        HereAt(p, k, WritePart(part), 2);
        SpanRead(p, k, lc, lo, hi);
    }
  }

  lemma NextPart(rest: seq<Part>)
    requires forall i :: 0 <= i < |rest| ==> PartOk(rest[i])
    ensures (WriteParts(rest) + [93])[0] == RBRACKET <==> rest == []
  {
  }

  lemma OnlyRead(p: seq<Char>, k: nat, lc: Char, c: Char)
    requires k < |p| && Get(p, k) == c && Listable(c)
    ensures Listing(p, k, lc) == if Get(p, k + 1) == RBRACKET then Bracket(iset{c}, k + 2) else With(iset{c}, Listing(p, k + 1, c))
  {
  }

  lemma SpanRead(p: seq<Char>, k: nat, lc: Char, lo: Char, hi: Char)
    requires k + 2 < |p| && Get(p, k) == lo && Get(p, k + 1) == DASH && Get(p, k + 2) == hi && Listable(lo) && Listable(hi)
    ensures Listing(p, k, lc) == With(iset{lo}, if Get(p, k + 3) == RBRACKET then Bracket(Range(lo, hi), k + 4) else With(Range(lo, hi), Listing(p, k + 3, hi)))
  {
    hide Range;
    OnlyRead(p, k, lc, lo);
  }

  /** An atom that is written out is read as a character of its set. */
  lemma AtomRead(p: seq<Char>, eof: Char, sed: bool, k: nat, start: bool, nbra: nat, ebra: nat, a: Atom)
    requires AtomOk(a) && Delimiter(eof) && Here(p, k, WriteAtom(a, eof))
    ensures k + |WriteAtom(a, eof)| <= |p|
    ensures Parse(p, eof, sed, k, start, nbra, ebra) == Starred(p, eof, sed, CharsOf(a), false, k + |WriteAtom(a, eof)|, nbra, ebra)
  {
    hide Starred, Parse, ClassOf, WriteParts, Here;
    HereAt(p, k, WriteAtom(a, eof), 0);
    HereEnd(p, k, WriteAtom(a, eof));
    match a {
      case Literal(c) =>
        assert CharsOf(a) == iset{c};
        if |WriteAtom(a, eof)| == 2 {
          HereAt(p, k, WriteAtom(a, eof), 1);
        }
        LiteralRead(p, eof, sed, k, start, nbra, ebra, c);
      case Any =>
        assert CharsOf(a) == AnyChar();
        DotRead(p, eof, sed, k, start, nbra, ebra);
      case Class(neg, parts) =>
        ClassRead(p, k, neg, parts);
        BracketRead(p, eof, sed, k, start, nbra, ebra);
    }
  }

  lemma LiteralRead(p: seq<Char>, eof: Char, sed: bool, k: nat, start: bool, nbra: nat, ebra: nat, c: Char)
    requires Delimiter(eof) && 0 < c && c < 128 && k + |WriteAtom(Literal(c), eof)| <= |p|
    requires var w := WriteAtom(Literal(c), eof); Get(p, k) == w[0] && (|w| == 2 ==> Get(p, k + 1) == w[1])
    ensures Parse(p, eof, sed, k, start, nbra, ebra) == Starred(p, eof, sed, iset{c}, false, k + |WriteAtom(Literal(c), eof)|, nbra, ebra)
  {
    hide Starred, ClassOf;
  }

  lemma DotRead(p: seq<Char>, eof: Char, sed: bool, k: nat, start: bool, nbra: nat, ebra: nat)
    requires Delimiter(eof) && k < |p| && Get(p, k) == PERIOD
    ensures Parse(p, eof, sed, k, start, nbra, ebra) == Starred(p, eof, sed, AnyChar(), false, k + 1, nbra, ebra)
  {
    hide Starred, ClassOf, Escaped;
  }

  lemma BracketRead(p: seq<Char>, eof: Char, sed: bool, k: nat, start: bool, nbra: nat, ebra: nat)
    requires Delimiter(eof) && k < |p| && Get(p, k) == LBRACKET && ClassOf(p, k + 1).Bracket?
    ensures var r := ClassOf(p, k + 1); Parse(p, eof, sed, k, start, nbra, ebra) == Starred(p, eof, sed, r.cs, false, r.next, nbra, ebra)
  {
    hide Starred, ClassOf, Escaped;
  }

  lemma ClassRead(p: seq<Char>, k: nat, neg: bool, parts: seq<Part>)
    requires AtomOk(Class(neg, parts)) && Here(p, k, (if neg then [91, 94] else [91]) + WriteParts(parts) + [93])
    ensures k < |p| && ClassOf(p, k + 1) == Bracket(CharsOf(Class(neg, parts)), k + |WriteParts(parts)| + if neg then 3 else 2)
  {
    hide Listing, Here, Low;
    var w := WriteParts(parts) + [93];
    var head: seq<Char> := if neg then [91, 94] else [91];
    assert head + WriteParts(parts) + [93] == head + w;
    HereSplit(p, k, head, w);
    HereAt(p, k, head, 0);
    HereAt(p, k + |head|, w, 0);
    if neg {
      HereAt(p, k, head, 1);
    } else {
      NotCaret(parts);
    }
    ListRead(p, k + |head|, 0, parts);
    var cs := PartsSet(parts);
    if neg {
      assert (iset x: Char | Low(x) != 0 && Low(x) !in cs) == CharsOf(Class(neg, parts));
    } else {
      assert (iset x: Char | Low(x) in cs) == CharsOf(Class(neg, parts));
    }
  }

  lemma NotCaret(parts: seq<Part>)
    requires parts != [] && PartOk(parts[0])
    ensures (WriteParts(parts) + [93])[0] != CARET
  {
  }

  /** What follows a node does not begin with a star. */
  lemma NoStar(nodes: seq<Node>, k: nat, eof: Char, atEnd: bool)
    requires k <= |nodes| && Delimiter(eof) && (k < |nodes| ==> (nodes[k].Once? || nodes[k].Star? ==> AtomOk(nodes[k].a)))
    ensures var w := WriteNodes(nodes, k, eof) + if atEnd then [36] else [];
      w != [] ==> w[0] != ASTERISK
  {
    hide WriteParts;
    if k < |nodes| {
      var w := WriteNode(nodes[k], eof);
      assert WriteNodes(nodes, k, eof)[0] == w[0];
    }
  }

  /** The pattern that is written out, followed by the delimiter or the end of the string. */
  ghost predicate Written(p: seq<Char>, k: nat, nodes: seq<Node>, n: nat, atEnd: bool, eof: Char)
    requires n <= |nodes|
  {
    var w := WriteNodes(nodes, n, eof) + if atEnd then [36] else [];
    Here(p, k, w) && Get(p, k + |w|) == eof && (eof == 0 ==> k + |w| == |p|)
  }

  lemma WrittenStep(p: seq<Char>, k: nat, nodes: seq<Node>, n: nat, atEnd: bool, eof: Char)
    requires n < |nodes| && k <= |p| && Written(p, k, nodes, n, atEnd, eof)
    ensures var w := WriteNode(nodes[n], eof);
      Here(p, k, w) && k + |w| <= |p| && Written(p, k + |w|, nodes, n + 1, atEnd, eof)
  {
    hide WriteNode, Here;
    var w, tail: seq<Char> := WriteNode(nodes[n], eof), if atEnd then [36] else [];
    Regroup(w, WriteNodes(nodes, n + 1, eof), tail);
    HereSplit(p, k, w, WriteNodes(nodes, n + 1, eof) + tail);
    HereEnd(p, k, w);
  }

  lemma Regroup(a: seq<Char>, b: seq<Char>, c: seq<Char>)
    ensures (a + b) + c == a + (b + c)
  {
  }

  lemma HereEnd(p: seq<Char>, k: nat, w: seq<Char>)
    requires Here(p, k, w)
    ensures k + |w| <= |p|
  {
  }

  /** One item more in front. */
  lemma InFront(x: Item, items: seq<Item>, end: seq<Item>)
    ensures Then(x, Items(items + end)) == Items(([x] + items) + end)
  {
    assert [x] + (items + end) == ([x] + items) + end;
  }

  /** An atom with or without its star, when the rest is read as it should be. */
  lemma AtomStep(p: seq<Char>, eof: Char, sed: bool, k: nat, start: bool, node: Node, nbra: nat, ebra: nat, a: Atom, star: bool)
    requires Delimiter(eof) && AtomOk(a) && node == (if star then Star(a) else Once(a)) && Here(p, k, WriteNode(node, eof))
    requires k + |WriteNode(node, eof)| <= |p| && Get(p, k + |WriteNode(node, eof)|) != ASTERISK
    ensures Parse(p, eof, sed, k, start, nbra, ebra) ==
      Then(if star then Many(CharsOf(a)) else One(CharsOf(a)), Parse(p, eof, sed, k + |WriteNode(node, eof)|, false, nbra, ebra))
  {
    hide Here, WriteAtom, Parse, Starred, CharsOf, AtomOk;
    var w := WriteNode(node, eof);
    if star {
      HereSplit(p, k, WriteAtom(a, eof), [42]);
      HereAt(p, k + |WriteAtom(a, eof)|, [42], 0);
      AtomRead(p, eof, sed, k, start, nbra, ebra, a);
      StarredMany(p, eof, sed, CharsOf(a), k + |w| - 1, nbra, ebra);
    } else {
      AtomRead(p, eof, sed, k, start, nbra, ebra, a);
      StarredOnce(p, eof, sed, CharsOf(a), k + |w|, nbra, ebra);
    }
  }

  /** The nodes are read back as their items. */
  lemma {:induction false} NodesRead(p: seq<Char>, eof: Char, sed: bool, k: nat, start: bool, nodes: seq<Node>, n: nat, atEnd: bool, nbra: nat, ebra: nat)
    requires n <= |nodes| && Delimiter(eof) && Grouped(nodes, n, nbra, ebra) && k <= |p| && Written(p, k, nodes, n, atEnd, eof)
    ensures Parse(p, eof, sed, k, start, nbra, ebra) == Items(ItemsFrom(nodes, n, nbra, ebra) + EndItems(atEnd))
    decreases |nodes| - n
  {
    hide Here, WriteAtom, Parse, Starred, Written, CharsOf, AtomOk, EndItems, Delimiter, Then;
    if n == |nodes| {
      EndRead(p, eof, sed, k, start, nodes, atEnd, nbra, ebra);
    } else {
      var w := WriteNode(nodes[n], eof);
      WrittenStep(p, k, nodes, n, atEnd, eof);
      match nodes[n] {
        case Once(a) =>
          Unstarred(p, k + |w|, nodes, n + 1, atEnd, eof, nbra, ebra);
          AtomStep(p, eof, sed, k, start, nodes[n], nbra, ebra, a, false);
          NodesRead(p, eof, sed, k + |w|, false, nodes, n + 1, atEnd, nbra, ebra);
          InFront(One(CharsOf(a)), ItemsFrom(nodes, n + 1, nbra, ebra), EndItems(atEnd));
        case Star(a) =>
          Unstarred(p, k + |w|, nodes, n + 1, atEnd, eof, nbra, ebra);
          AtomStep(p, eof, sed, k, start, nodes[n], nbra, ebra, a, true);
          NodesRead(p, eof, sed, k + |w|, false, nodes, n + 1, atEnd, nbra, ebra);
          InFront(Many(CharsOf(a)), ItemsFrom(nodes, n + 1, nbra, ebra), EndItems(atEnd));
        case Begin =>
          HereAt(p, k, w, 0);
          HereAt(p, k, w, 1);
          NodesRead(p, eof, sed, k + 2, false, nodes, n + 1, atEnd, nbra + 1, ebra);
          DelimiterNot(eof);
          BeginRead(p, eof, sed, k, start, nbra, ebra);
          InFront(Open(nbra), ItemsFrom(nodes, n + 1, nbra + 1, ebra), EndItems(atEnd));
        case End =>
          HereAt(p, k, w, 0);
          HereAt(p, k, w, 1);
          NodesRead(p, eof, sed, k + 2, false, nodes, n + 1, atEnd, nbra, ebra + 1);
          DelimiterNot(eof);
          CloseRead(p, eof, sed, k, start, nbra, ebra);
          InFront(Close(ebra), ItemsFrom(nodes, n + 1, nbra, ebra + 1), EndItems(atEnd));
      }
    }
  }

  lemma DelimiterNot(eof: Char)
    requires Delimiter(eof)
    ensures eof != BACKSLASH && eof != CARET && eof != NL && eof != ASTERISK && eof != DOLLAR
  {
  }

  lemma EndRead(p: seq<Char>, eof: Char, sed: bool, k: nat, start: bool, nodes: seq<Node>, atEnd: bool, nbra: nat, ebra: nat)
    requires Delimiter(eof) && k <= |p| && Written(p, k, nodes, |nodes|, atEnd, eof)
    ensures Parse(p, eof, sed, k, start, nbra, ebra) == Items(ItemsFrom(nodes, |nodes|, nbra, ebra) + EndItems(atEnd))
  {
    hide Here, Parse, Delimiter;
    var tail: seq<Char> := if atEnd then [36] else [];
    assert WriteNodes(nodes, |nodes|, eof) + tail == tail;
    if atEnd {
      HereAt(p, k, tail, 0);
    }
    DelimiterNot(eof);
    TailRead(p, eof, sed, k, start, atEnd, nbra, ebra);
  }

  lemma TailRead(p: seq<Char>, eof: Char, sed: bool, k: nat, start: bool, atEnd: bool, nbra: nat, ebra: nat)
    requires k <= |p| && eof != DOLLAR && (if atEnd then k < |p| && p[k] == DOLLAR && Get(p, k + 1) == eof else Get(p, k) == eof)
    ensures Parse(p, eof, sed, k, start, nbra, ebra) == Items(EndItems(atEnd))
  {
    hide Starred, Escaped;
    if atEnd {
      assert Parse(p, eof, sed, k + 1, false, nbra, ebra) == Items([]);
    }
  }

  lemma Unstarred(p: seq<Char>, k: nat, nodes: seq<Node>, n: nat, atEnd: bool, eof: Char, nbra: nat, ebra: nat)
    requires n <= |nodes| && Delimiter(eof) && Grouped(nodes, n, nbra, ebra) && k <= |p| && Written(p, k, nodes, n, atEnd, eof)
    ensures Get(p, k) != ASTERISK
  {
    hide Here, WriteNodes;
    NoStar(nodes, n, eof, atEnd);
    var w := WriteNodes(nodes, n, eof) + if atEnd then [36] else [];
    if w != [] {
      HereAt(p, k, w, 0);
    }
  }

  lemma StarredOnce(p: seq<Char>, eof: Char, sed: bool, cs: iset<Char>, k: nat, nbra: nat, ebra: nat)
    requires k <= |p| && Get(p, k) != ASTERISK
    ensures Starred(p, eof, sed, cs, false, k, nbra, ebra) == Then(One(cs), Parse(p, eof, sed, k, false, nbra, ebra))
  {
    hide Parse;
  }

  lemma StarredMany(p: seq<Char>, eof: Char, sed: bool, cs: iset<Char>, k: nat, nbra: nat, ebra: nat)
    requires k + 1 <= |p| && Get(p, k) == ASTERISK && eof != ASTERISK && Get(p, k + 1) != ASTERISK
    ensures Starred(p, eof, sed, cs, false, k, nbra, ebra) == Then(Many(cs), Parse(p, eof, sed, k + 1, false, nbra, ebra))
  {
    hide Parse;
    assert Stars(p, eof, k + 1) == k + 1;
  }

  lemma BeginRead(p: seq<Char>, eof: Char, sed: bool, k: nat, start: bool, nbra: nat, ebra: nat)
    requires k + 2 <= |p| && Get(p, k) == BACKSLASH && Get(p, k + 1) == LPAR && eof != BACKSLASH && nbra < 9
    ensures Parse(p, eof, sed, k, start, nbra, ebra) == Then(Open(nbra), Parse(p, eof, sed, k + 2, false, nbra + 1, ebra))
  {
    hide Starred;
  }

  lemma CloseRead(p: seq<Char>, eof: Char, sed: bool, k: nat, start: bool, nbra: nat, ebra: nat)
    requires k + 2 <= |p| && Get(p, k) == BACKSLASH && Get(p, k + 1) == RPAR && eof != BACKSLASH && nbra == ebra + 1
    ensures Parse(p, eof, sed, k, start, nbra, ebra) == Then(Close(ebra), Parse(p, eof, sed, k + 2, false, nbra, ebra + 1))
  {
    hide Starred;
  }

  /** A whole pattern in a string, ended by the delimiter or the end of the string. */
  ghost predicate Stands(p: seq<Char>, r: Regex, eof: Char) {
    var w := Write(r, eof);
    && Delimiter(eof) && Grouped(r.nodes, 0, 0, 0) && w != []
    && w <= p && if eof == 0 then p == w else |p| > |w| && p[|w|] == eof
  }

  /** The pattern means what it was written from. */
  lemma PatternRead(p: seq<Char>, r: Regex, eof: Char, sed: bool)
    requires Stands(p, r, eof)
    ensures Pattern(p, eof, sed) == Meaning(r.anchored, Items(ItemsFrom(r.nodes, 0, 0, 0) + EndItems(r.atEnd)))
  {
    hide Parse, Grouped, WriteNodes, Delimiter, ItemsFrom, EndItems, Here, Written, Pattern;
    var body := WriteNodes(r.nodes, 0, eof) + if r.atEnd then [36] else [];
    var head: seq<Char> := if r.anchored then [94] else [];
    Regroup(head, WriteNodes(r.nodes, 0, eof), if r.atEnd then [36] else []);
    assert Write(r, eof) == head + body;
    PatternHere(p, head, body, eof);
    HereAt(p, 0, head + body, 0);
    BodyWritten(p, |head|, r, eof, body);
    NodesRead(p, eof, sed, |head|, true, r.nodes, 0, r.atEnd, 0, 0);
    DelimiterNot(eof);
    FirstByte(r.nodes, eof, r.atEnd);
    HeadRead(p, eof, sed, r.anchored, if r.anchored then 94 else body[0]);
  }

  lemma HeadRead(p: seq<Char>, eof: Char, sed: bool, anchored: bool, c: Char)
    requires p != [] && Get(p, 0) == c && c != eof && c != NL && (c == CARET <==> anchored)
    ensures Pattern(p, eof, sed) == Meaning(anchored, Parse(p, eof, sed, if anchored then 1 else 0, true, 0, 0))
  {
    hide Parse;
  }

  lemma PatternHere(p: seq<Char>, head: seq<Char>, body: seq<Char>, eof: Char)
    requires head + body <= p && if eof == 0 then p == head + body else |p| > |head + body| && p[|head + body|] == eof
    ensures Here(p, 0, head + body) && Here(p, |head|, body) && Get(p, |head| + |body|) == eof && (eof == 0 ==> |head| + |body| == |p|)
  {
    var w := head + body;
    assert p[0..|w|] == w;
    HereSplit(p, 0, head, body);
  }

  lemma BodyWritten(p: seq<Char>, k: nat, r: Regex, eof: Char, body: seq<Char>)
    requires body == WriteNodes(r.nodes, 0, eof) + (if r.atEnd then [36] else []) && Here(p, k, body)
    requires Get(p, k + |body|) == eof && (eof == 0 ==> k + |body| == |p|)
    ensures Written(p, k, r.nodes, 0, r.atEnd, eof)
  {
    hide Here;
  }

  lemma FirstByte(nodes: seq<Node>, eof: Char, atEnd: bool)
    requires Delimiter(eof) && Grouped(nodes, 0, 0, 0)
    ensures var w := WriteNodes(nodes, 0, eof) + if atEnd then [36] else [];
      w != [] ==> w[0] != CARET && w[0] != eof && w[0] != NL
  {
    hide WriteParts;
    if nodes != [] {
      var w := WriteNode(nodes[0], eof);
      assert WriteNodes(nodes, 0, eof)[0] == w[0];
    }
  }

  /** The nodes match what their items denote. */
  lemma {:induction false} ReadsDenotes(nodes: seq<Node>, k: nat, nbra: nat, ebra: nat, atEnd: bool, all: seq<Item>, n: nat, s: seq<Char>, i: nat, j: nat)
    requires k <= |nodes| && n <= |all| && all[n..] == ItemsFrom(nodes, k, nbra, ebra) + EndItems(atEnd)
    ensures Denotes(all, n, s, i, j) <==> Reads(nodes, k, s, i, j) && (atEnd ==> j == |s|)
    decreases |nodes| - k
  {
    hide CharsOf;
    if k == |nodes| {
      if atEnd {
        assert all[n] == all[n..][0] && |all| == n + 1;
      } else {
        assert |all| == n;
      }
    } else {
      assert all[n] == all[n..][0] && all[n + 1..] == all[n..][1..];
      match nodes[k] {
        case Once(a) =>
          InChars(a);
          if i < |s| {
            ReadsDenotes(nodes, k + 1, nbra, ebra, atEnd, all, n + 1, s, i + 1, j);
          }
        case Star(a) =>
          InChars(a);
          forall m: nat | i <= m <= |s|
            ensures Denotes(all, n + 1, s, m, j) <==> Reads(nodes, k + 1, s, m, j) && (atEnd ==> j == |s|)
            ensures Within(s, i, m, CharsOf(a)) <==> AllTaken(a, s, i, m)
          {
            ReadsDenotes(nodes, k + 1, nbra, ebra, atEnd, all, n + 1, s, m, j);
          }
        case Begin => ReadsDenotes(nodes, k + 1, nbra + 1, ebra, atEnd, all, n + 1, s, i, j);
        case End => ReadsDenotes(nodes, k + 1, nbra, ebra + 1, atEnd, all, n + 1, s, i, j);
      }
    }
  }

  lemma InChars(a: Atom)
    ensures forall x: Char :: x in CharsOf(a) <==> Takes(a, x)
  {
    hide Takes;
  }

  /** A match of the whole expression. */
  ghost predicate MatchesAt(r: Regex, s: seq<Char>, i: nat, j: nat) {
    (r.anchored ==> i == 0) && Reads(r.nodes, 0, s, i, j) && (r.atEnd ==> j == |s|)
  }

  /** How many bracketed parts begin, and end, before node k. */
  function Begins(nodes: seq<Node>, k: nat): nat
    requires k <= |nodes|
  {
    if k == 0 then 0 else Begins(nodes, k - 1) + if nodes[k - 1].Begin? then 1 else 0
  }

  function Ends(nodes: seq<Node>, k: nat): nat
    requires k <= |nodes|
  {
    if k == 0 then 0 else Ends(nodes, k - 1) + if nodes[k - 1].End? then 1 else 0
  }

  /** The nodes from k on match from i on. */
  ghost predicate ReadsOn(nodes: seq<Node>, k: nat, atEnd: bool, s: seq<Char>, i: nat)
    requires k <= |nodes|
  {
    exists j: nat :: Reads(nodes, k, s, i, j) && (atEnd ==> j == |s|)
  }

  /** Among the matches from i on, the one in which each star in turn takes all it can; b and e say where the bracketed parts are. */
  ghost predicate Picks(nodes: seq<Node>, k: nat, atEnd: bool, s: seq<Char>, i: nat, j: nat, b: seq<nat>, e: seq<nat>)
    requires k <= |nodes|
    decreases |nodes| - k
  {
    && i <= j <= |s|
    && if k == |nodes| then i == j && (atEnd ==> j == |s|)
       else match nodes[k]
         case Once(a) => i < |s| && Takes(a, s[i]) && Picks(nodes, k + 1, atEnd, s, i + 1, j, b, e)
         case Star(a) => exists m: nat :: i <= m <= |s| && AllTaken(a, s, i, m) && Picks(nodes, k + 1, atEnd, s, m, j, b, e) && NoMore(nodes, k, atEnd, s, i, m, a)
         case Begin => Begins(nodes, k) < |b| && b[Begins(nodes, k)] == i && Picks(nodes, k + 1, atEnd, s, i, j, b, e)
         case End => Ends(nodes, k) < |e| && e[Ends(nodes, k)] == i && Picks(nodes, k + 1, atEnd, s, i, j, b, e)
  }

  ghost predicate NoMore(nodes: seq<Node>, k: nat, atEnd: bool, s: seq<Char>, i: nat, m: nat, a: Atom)
    requires k < |nodes|
  {
    forall m': nat :: m < m' <= |s| && AllTaken(a, s, i, m') ==> !ReadsOn(nodes, k + 1, atEnd, s, m')
  }

  /** The items left after those of node k. */
  lemma ItemAt(nodes: seq<Node>, k: nat, atEnd: bool, all: seq<Item>, n: nat)
    requires k < |nodes| && n <= |all| && all[n..] == ItemsFrom(nodes, k, Begins(nodes, k), Ends(nodes, k)) + EndItems(atEnd)
    ensures n < |all| && all[n + 1..] == ItemsFrom(nodes, k + 1, Begins(nodes, k + 1), Ends(nodes, k + 1)) + EndItems(atEnd)
    ensures all[n] == match nodes[k]
              case Once(a) => One(CharsOf(a))
              case Star(a) => Many(CharsOf(a))
              case Begin => Open(Begins(nodes, k))
              case End => Close(Ends(nodes, k))
  {
    hide CharsOf, EndItems;
    assert all[n] == all[n..][0] && all[n + 1..] == all[n..][1..];
  }

  /** What the matcher reports is the match that Picks describes. */
  lemma {:induction false} SpansPicks(nodes: seq<Node>, k: nat, atEnd: bool, all: seq<Item>, n: nat, s: seq<Char>, i: nat, j: nat, b: seq<nat>, e: seq<nat>)
    requires k <= |nodes| && n <= |all| && all[n..] == ItemsFrom(nodes, k, Begins(nodes, k), Ends(nodes, k)) + EndItems(atEnd)
    requires Spans(all, n, s, i, j, b, e)
    ensures Picks(nodes, k, atEnd, s, i, j, b, e)
    decreases |nodes| - k
  {
    hide CharsOf, Longest, NoMore, ItemsFrom, Takes;
    if k == |nodes| {
      NoItems(nodes);
      if atEnd {
        assert all[n] == all[n..][0] && |all| == n + 1;
      } else {
        assert |all| == n;
      }
    } else {
      ItemAt(nodes, k, atEnd, all, n);
      match nodes[k] {
        case Once(a) =>
          InChars(a);
          SpansPicks(nodes, k + 1, atEnd, all, n + 1, s, i + 1, j, b, e);
        case Star(a) =>
          var m: nat :| i <= m <= |s| && Within(s, i, m, CharsOf(a)) && Spans(all, n + 1, s, m, j, b, e) && Longest(all, n, s, i, m, CharsOf(a));
          SpansPicks(nodes, k + 1, atEnd, all, n + 1, s, m, j, b, e);
          StarPicked(nodes, k, atEnd, all, n, s, i, m, a);
        case _ => SpansPicks(nodes, k + 1, atEnd, all, n + 1, s, i, j, b, e);
      }
    }
  }

  lemma NoItems(nodes: seq<Node>)
    ensures ItemsFrom(nodes, |nodes|, Begins(nodes, |nodes|), Ends(nodes, |nodes|)) == []
  {
  }

  lemma EndOf(nodes: seq<Node>, k: nat, atEnd: bool, s: seq<Char>, i: nat) returns (j: nat)
    requires k <= |nodes| && ReadsOn(nodes, k, atEnd, s, i)
    ensures Reads(nodes, k, s, i, j) && (atEnd ==> j == |s|)
  {
    hide Reads;
    j :| Reads(nodes, k, s, i, j) && (atEnd ==> j == |s|);
  }

  lemma StarPicked(nodes: seq<Node>, k: nat, atEnd: bool, all: seq<Item>, n: nat, s: seq<Char>, i: nat, m: nat, a: Atom)
    requires k < |nodes| && n < |all| && all[n + 1..] == ItemsFrom(nodes, k + 1, Begins(nodes, k + 1), Ends(nodes, k + 1)) + EndItems(atEnd)
    requires m <= |s| && Within(s, i, m, CharsOf(a)) && Longest(all, n, s, i, m, CharsOf(a))
    ensures AllTaken(a, s, i, m) && NoMore(nodes, k, atEnd, s, i, m, a)
  {
    hide CharsOf, Denotes, Reads, ItemsFrom, Takes;
    InChars(a);
    forall m': nat | m < m' <= |s| && AllTaken(a, s, i, m')
      ensures !ReadsOn(nodes, k + 1, atEnd, s, m')
    {
      assert Within(s, i, m', CharsOf(a));
      assert !Matches(all, n + 1, s, m');
      if ReadsOn(nodes, k + 1, atEnd, s, m') {
        var j := EndOf(nodes, k + 1, atEnd, s, m');
        ReadsDenotes(nodes, k + 1, Begins(nodes, k + 1), Ends(nodes, k + 1), atEnd, all, n + 1, s, m', j);
        assert false;
      }
    }
  }

  lemma {:induction false} PicksReads(nodes: seq<Node>, k: nat, atEnd: bool, s: seq<Char>, i: nat, j: nat, b: seq<nat>, e: seq<nat>)
    requires k <= |nodes| && Picks(nodes, k, atEnd, s, i, j, b, e)
    ensures Reads(nodes, k, s, i, j) && (atEnd ==> j == |s|)
    decreases |nodes| - k
  {
    hide Takes, NoMore;
    if k < |nodes| {
      match nodes[k] {
        case Once(a) => PicksReads(nodes, k + 1, atEnd, s, i + 1, j, b, e);
        case Star(a) =>
          var m: nat :| i <= m <= |s| && AllTaken(a, s, i, m) && Picks(nodes, k + 1, atEnd, s, m, j, b, e) && NoMore(nodes, k, atEnd, s, i, m, a);
          PicksReads(nodes, k + 1, atEnd, s, m, j, b, e);
        case _ => PicksReads(nodes, k + 1, atEnd, s, i, j, b, e);
      }
    }
  }

  /** From a given place there is one such match, and its bracketed parts stand at one place each. */
  lemma {:induction false} PicksOne(nodes: seq<Node>, k: nat, atEnd: bool, s: seq<Char>, i: nat, j: nat, b: seq<nat>, e: seq<nat>, j': nat, b': seq<nat>, e': seq<nat>)
    requires k <= |nodes| && Picks(nodes, k, atEnd, s, i, j, b, e) && Picks(nodes, k, atEnd, s, i, j', b', e')
    ensures j == j'
    ensures forall n :: k <= n < |nodes| && nodes[n].Begin? ==> Begins(nodes, n) < |b| && Begins(nodes, n) < |b'| && b[Begins(nodes, n)] == b'[Begins(nodes, n)]
    ensures forall n :: k <= n < |nodes| && nodes[n].End? ==> Ends(nodes, n) < |e| && Ends(nodes, n) < |e'| && e[Ends(nodes, n)] == e'[Ends(nodes, n)]
    decreases |nodes| - k
  {
    hide Takes, NoMore;
    if k < |nodes| {
      match nodes[k] {
        case Once(a) => PicksOne(nodes, k + 1, atEnd, s, i + 1, j, b, e, j', b', e');
        case Star(a) =>
          var m: nat :| i <= m <= |s| && AllTaken(a, s, i, m) && Picks(nodes, k + 1, atEnd, s, m, j, b, e) && NoMore(nodes, k, atEnd, s, i, m, a);
          var m': nat :| i <= m' <= |s| && AllTaken(a, s, i, m') && Picks(nodes, k + 1, atEnd, s, m', j', b', e') && NoMore(nodes, k, atEnd, s, i, m', a);
          NotLess(nodes, k, atEnd, s, i, m, m', a, j', b', e');
          NotLess(nodes, k, atEnd, s, i, m', m, a, j, b, e);
          PicksOne(nodes, k + 1, atEnd, s, m, j, b, e, j', b', e');
        case _ => PicksOne(nodes, k + 1, atEnd, s, i, j, b, e, j', b', e');
      }
    }
  }

  lemma NotLess(nodes: seq<Node>, k: nat, atEnd: bool, s: seq<Char>, i: nat, m: nat, m': nat, a: Atom, j: nat, b: seq<nat>, e: seq<nat>)
    requires k < |nodes| && m' <= |s| && NoMore(nodes, k, atEnd, s, i, m, a) && AllTaken(a, s, i, m') && Picks(nodes, k + 1, atEnd, s, m', j, b, e)
    ensures m' <= m
  {
    hide Takes, Picks, Reads;
    PicksReads(nodes, k + 1, atEnd, s, m', j, b, e);
    assert ReadsOn(nodes, k + 1, atEnd, s, m');
  }

  /** What a node by itself matches. */
  ghost predicate Word(n: Node, w: seq<Char>) {
    match n
    case Once(a) => |w| == 1 && Takes(a, w[0])
    case Star(a) => forall q :: 0 <= q < |w| ==> Takes(a, w[q])
    case _ => w == []
  }

  /** The text from i to j is cut into words, one for each node from k on. */
  ghost predicate Cut(nodes: seq<Node>, k: nat, s: seq<Char>, i: nat, j: nat, cuts: seq<nat>)
    requires k <= |nodes|
  {
    && |cuts| == |nodes| - k + 1 && cuts[0] == i && cuts[|cuts| - 1] == j
    && (forall t :: 0 <= t < |cuts| ==> cuts[t] <= |s|)
    && forall t :: 0 <= t < |nodes| - k ==> Piece(nodes[k + t], s, cuts[t], cuts[t + 1])
  }

  ghost predicate Piece(n: Node, s: seq<Char>, i: nat, m: nat) {
    i <= m <= |s| && Word(n, s[i..m])
  }

  /** A sequence of nodes matches what can be cut into words of the nodes. */
  lemma ReadsCuts(nodes: seq<Node>, k: nat, s: seq<Char>, i: nat, j: nat)
    requires k <= |nodes|
    ensures Reads(nodes, k, s, i, j) <==> exists cuts: seq<nat> :: Cut(nodes, k, s, i, j, cuts)
  {
    hide Reads, Cut;
    if Reads(nodes, k, s, i, j) {
      var cuts := ReadsCut(nodes, k, s, i, j);
    }
    if cuts: seq<nat> :| Cut(nodes, k, s, i, j, cuts) {
      CutReads(nodes, k, s, i, j, cuts);
    }
  }

  lemma {:induction false} ReadsCut(nodes: seq<Node>, k: nat, s: seq<Char>, i: nat, j: nat) returns (cuts: seq<nat>)
    requires k <= |nodes| && Reads(nodes, k, s, i, j)
    ensures Cut(nodes, k, s, i, j, cuts)
    decreases |nodes| - k
  {
    hide Takes, Word, Cut;
    if k == |nodes| {
      cuts := [i];
      NoCut(nodes, s, i);
    } else {
      var m: nat := i;
      match nodes[k] {
        case Once(a) => m := i + 1;
        case Star(a) => m :| i <= m <= |s| && AllTaken(a, s, i, m) && Reads(nodes, k + 1, s, m, j);
        case _ =>
      }
      var rest := ReadsCut(nodes, k + 1, s, m, j);
      WordIs(nodes[k], s, i, m);
      cuts := [i] + rest;
      CutMore(nodes, k, s, i, m, j, rest, cuts);
    }
  }

  lemma NoCut(nodes: seq<Node>, s: seq<Char>, i: nat)
    requires i <= |s|
    ensures Cut(nodes, |nodes|, s, i, i, [i])
  {
  }

  lemma WordIs(n: Node, s: seq<Char>, i: nat, m: nat)
    requires i <= m <= |s|
    ensures Word(n, s[i..m]) <==> match n
      case Once(a) => m == i + 1 && Takes(a, s[i])
      case Star(a) => AllTaken(a, s, i, m)
      case _ => m == i
  {
    hide Takes;
    if n.Star? && Word(n, s[i..m]) {
      forall q | i <= q < m
        ensures Takes(n.a, s[q])
      {
        assert s[q] == s[i..m][q - i];
      }
    }
  }

  lemma CutMore(nodes: seq<Node>, k: nat, s: seq<Char>, i: nat, m: nat, j: nat, rest: seq<nat>, cuts: seq<nat>)
    requires cuts == [i] + rest && k < |nodes| && i <= m <= |s| && Word(nodes[k], s[i..m]) && Cut(nodes, k + 1, s, m, j, rest)
    ensures Cut(nodes, k, s, i, j, cuts)
  {
    hide Word;
    forall t | 0 <= t < |nodes| - k
      ensures Piece(nodes[k + t], s, cuts[t], cuts[t + 1])
    {
      if t > 0 {
        assert cuts[t] == rest[t - 1] && cuts[t + 1] == rest[t] && nodes[k + t] == nodes[k + 1 + (t - 1)];
      }
    }
  }

  lemma {:induction false} CutReads(nodes: seq<Node>, k: nat, s: seq<Char>, i: nat, j: nat, cuts: seq<nat>)
    requires k <= |nodes| && Cut(nodes, k, s, i, j, cuts)
    ensures Reads(nodes, k, s, i, j)
    decreases |nodes| - k
  {
    hide Takes, Word;
    if k < |nodes| {
      var rest := cuts[1..];
      assert nodes[k + 0] == nodes[k] && cuts[0 + 1] == rest[0];
      forall t | 0 <= t < |nodes| - k - 1
        ensures Piece(nodes[k + 1 + t], s, rest[t], rest[t + 1])
      {
        assert rest[t] == cuts[t + 1] && rest[t + 1] == cuts[(t + 1) + 1] && nodes[k + 1 + t] == nodes[k + (t + 1)];
      }
      assert Cut(nodes, k + 1, s, rest[0], j, rest);
      CutReads(nodes, k + 1, s, rest[0], j, rest);
      WordIs(nodes[k], s, i, rest[0]);
    }
  }

  /**
   compile and step on a pattern written out: they find a match of the expression if there is one, the
   first place where there is, and of the matches there the one in which each star takes all it can.
   */
  method Grep(p: seq<Char>, ghost r: Regex, eof: Char, sed: bool, s: seq<Char>) returns (ok: bool, loc1: nat, loc2: nat, b: seq<nat>, e: seq<nat>)
    requires Text(p) && Subject(s) && Stands(p, r, eof)
    ensures ok <==> exists i: nat, j: nat :: MatchesAt(r, s, i, j)
    ensures ok ==> MatchesAt(r, s, loc1, loc2) && forall i: nat, j: nat :: i < loc1 ==> !MatchesAt(r, s, i, j)
    ensures ok ==> Picks(r.nodes, 0, r.atEnd, s, loc1, loc2, b, e)
  {
    hide Pattern, Denotes, Spans, Picks, Reads, Text, Stands, ItemsFrom;
    PatternRead(p, r, eof, sed);
    var c;
    c, ok, loc1, loc2, b, e := Search(p, eof, sed, s);
    ghost var items := ItemsFrom(r.nodes, 0, 0, 0) + EndItems(r.atEnd);
    assert items[0..] == items;
    forall i: nat, j: nat
      ensures Denotes(items, 0, s, i, j) && (r.anchored ==> i == 0) <==> MatchesAt(r, s, i, j)
    {
      ReadsDenotes(r.nodes, 0, 0, 0, r.atEnd, items, 0, s, i, j);
    }
    ReadsIn(r.nodes, s);
    assert forall i: nat, j: nat :: MatchesAt(r, s, i, j) ==> Occurs(items, r.anchored, s, i);
    if ok {
      SpansPicks(r.nodes, 0, r.atEnd, items, 0, s, loc1, loc2, b, e);
      PicksReads(r.nodes, 0, r.atEnd, s, loc1, loc2, b, e);
    }
  }

  lemma ReadsIn(nodes: seq<Node>, s: seq<Char>)
    ensures forall i: nat, j: nat :: Reads(nodes, 0, s, i, j) ==> i <= j <= |s|
  {
  }

  /** Text without a character that has a meaning of its own. */
  predicate Ordinary(t: seq<Char>) {
    forall i :: 0 <= i < |t| ==> 0 < t[i] && t[i] < 128 && t[i] != 10 && !Special(t[i], 0)
  }

  function Letters(t: seq<Char>): (nodes: seq<Node>)
    ensures |nodes| == |t| && forall i :: 0 <= i < |t| ==> nodes[i] == Once(Literal(t[i]))
  {
    seq(|t|, i requires 0 <= i < |t| => Once(Literal(t[i])))
  }

  /** Letters are written as themselves and match themselves. */
  lemma {:induction false} LettersWritten(t: seq<Char>, k: nat)
    requires Ordinary(t) && k <= |t|
    ensures WriteNodes(Letters(t), k, 0) == t[k..] && Grouped(Letters(t), k, 0, 0)
    decreases |t| - k
  {
    if k < |t| {
      LettersWritten(t, k + 1);
      assert WriteNode(Letters(t)[k], 0) == [t[k]];
      assert t[k..] == [t[k]] + t[k + 1..];
    }
  }

  lemma {:induction false} LettersRead(t: seq<Char>, k: nat, s: seq<Char>, i: nat, j: nat)
    requires k <= |t|
    ensures Reads(Letters(t), k, s, i, j) <==> i <= |s| && j == i + |t| - k && j <= |s| && s[i..j] == t[k..]
    decreases |t| - k
  {
    if k < |t| {
      if i < |s| {
        LettersRead(t, k + 1, s, i + 1, j);
        if i < j <= |s| {
          assert s[i..j] == [s[i]] + s[i + 1..j];
        }
        assert t[k..] == [t[k]] + t[k + 1..];
      }
    }
  }

  /** An ordinary text is found where it occurs, first occurrence first. */
  method FindText(t: seq<Char>, sed: bool, s: seq<Char>) returns (ok: bool, loc1: nat, loc2: nat)
    requires Ordinary(t) && t != [] && Subject(s)
    ensures ok <==> exists i: nat :: OccursAt(t, s, i)
    ensures ok ==> OccursAt(t, s, loc1) && loc2 == loc1 + |t| && forall i: nat :: i < loc1 ==> !OccursAt(t, s, i)
  {
    hide Reads, Grouped, WriteNodes;
    ghost var r := Regex(false, Letters(t), false);
    LettersWritten(t, 0);
    assert Write(r, 0) == t;
    var b, e;
    ok, loc1, loc2, b, e := Grep(t, r, 0, sed, s);
    forall i: nat, j: nat
      ensures MatchesAt(r, s, i, j) <==> OccursAt(t, s, i) && j == i + |t|
    {
      LettersRead(t, 0, s, i, j);
      assert t[0..] == t;
    }
    assert forall i: nat :: OccursAt(t, s, i) ==> MatchesAt(r, s, i, i + |t|);
  }

  ghost predicate OccursAt(t: seq<Char>, s: seq<Char>, i: nat) {
    i + |t| <= |s| && s[i..i + |t|] == t
  }

  lemma {:induction false} PartsText(parts: seq<Part>)
    requires forall i :: 0 <= i < |parts| ==> PartOk(parts[i])
    ensures Text(WriteParts(parts))
  {
    if parts != [] {
      PartsText(parts[1..]);
      PartText(parts[0]);
      TextJoin(WritePart(parts[0]), WriteParts(parts[1..]));
    }
  }

  lemma PartText(part: Part)
    requires PartOk(part)
    ensures Text(WritePart(part))
  {
  }

  lemma TextJoin(a: seq<Char>, b: seq<Char>)
    requires Text(a) && Text(b)
    ensures Text(a + b)
  {
    forall i | 0 <= i < |a + b|
      ensures 0 < (a + b)[i] < 128
    {
      assert (a + b)[i] == if i < |a| then a[i] else b[i - |a|];
    }
  }

  lemma AtomText(a: Atom)
    requires AtomOk(a)
    ensures Text(WriteAtom(a, 0))
  {
    hide WriteParts;
    if a.Class? {
      PartsText(a.parts);
      TextJoin(if a.neg then [91, 94] else [91], WriteParts(a.parts));
      TextJoin((if a.neg then [91, 94] else [91]) + WriteParts(a.parts), [93]);
    }
  }

  /** Characters as they are written, and what they match. */
  lemma LiteralsAre(c: Char, x: Char)
    requires Listable(c) && !Special(c, 0) && 0 < x && x < 128
    ensures WriteAtom(Literal(c), 0) == [c] && (Takes(Literal(c), x) <==> x == c)
    ensures WriteAtom(Any, 0) == [46] && Takes(Any, x)
    ensures WriteAtom(Literal(46), 0) == [92, 46] && (Takes(Literal(46), x) <==> x == 46)
    ensures WriteAtom(Literal(10), 0) == [92, 110] && (Takes(Literal(10), x) <==> x == 10)
  {
  }

  /** Lists as they are written, and what they match. */
  lemma ListsAre(c: Char, d: Char, x: Char)
    requires 0 < x && x < 128
    ensures WriteAtom(Class(false, [Span(c, d)]), 0) == [91, c, 45, d, 93] && (Takes(Class(false, [Span(c, d)]), x) <==> c <= x && x <= d)
    ensures WriteAtom(Class(false, [Only(c), Only(d)]), 0) == [91, c, d, 93] && (Takes(Class(false, [Only(c), Only(d)]), x) <==> x == c || x == d)
    ensures WriteAtom(Class(true, [Only(c)]), 0) == [91, 94, c, 93] && (Takes(Class(true, [Only(c)]), x) <==> x != c)
  {
    hide InParts, Low;
    LowIs(x);
    PartAlone(Span(c, d), x);
    PartAlone(Only(c), x);
    PartAlone(Only(d), x);
    PartsMore([Only(c), Only(d)], x);
    assert [Only(c), Only(d)][1..] == [Only(d)];
  }

  lemma LowIs(x: Char)
    ensures x < 128 ==> Low(x) == x
    ensures x >= 128 ==> Low(x) == x - 128
  {
  }

  lemma PartAlone(part: Part, x: Char)
    ensures WriteParts([part]) == WritePart(part) && (InParts([part], x) <==> InPart(part, x))
  {
    PartsMore([part], x);
    NoParts(x);
    assert [part][1..] == [];
    assert WriteParts([]) == [];
  }

  /** An atom alone is found at the first character it stands for. */
  method FindAtom(a: Atom, sed: bool, s: seq<Char>) returns (ok: bool, loc1: nat, loc2: nat)
    requires AtomOk(a) && Subject(s)
    ensures ok <==> exists i :: 0 <= i < |s| && Takes(a, s[i])
    ensures ok ==> loc1 < |s| && Takes(a, s[loc1]) && loc2 == loc1 + 1 && forall i :: 0 <= i < loc1 ==> !Takes(a, s[i])
  {
    hide AtomOk, Takes, WriteAtom;
    ghost var r := Regex(false, [Once(a)], false);
    AtomText(a);
    Alone(r.nodes, r.nodes[0]);
    var b, e;
    ok, loc1, loc2, b, e := Grep(WriteAtom(a, 0), r, 0, sed, s);
    forall i: nat, j: nat
      ensures MatchesAt(r, s, i, j) <==> i < |s| && Takes(a, s[i]) && j == i + 1
    {
      assert r.nodes[0] == Once(a);
      assert Reads(r.nodes, 1, s, i + 1, j) <==> i + 1 == j <= |s|;
    }
    assert forall i: nat :: i < |s| && Takes(a, s[i]) ==> MatchesAt(r, s, i, i + 1);
  }

  lemma Alone(nodes: seq<Node>, n: Node)
    requires nodes == [n] && (n.Once? || n.Star?) && AtomOk(n.a)
    ensures Stands(WriteNode(n, 0), Regex(false, nodes, false), 0)
  {
    hide AtomOk, WriteAtom;
    assert nodes[0] == n;
    assert WriteNodes(nodes, 1, 0) == [];
    assert WriteNodes(nodes, 0, 0) == WriteNode(n, 0);
    assert Write(Regex(false, nodes, false), 0) == WriteNode(n, 0);
    assert Grouped(nodes, 1, 0, 0);
  }

  /** A starred atom alone is found at the beginning, and takes the whole run of its characters there. */
  method FindRun(a: Atom, sed: bool, s: seq<Char>) returns (ok: bool, loc1: nat, loc2: nat)
    requires AtomOk(a) && Subject(s)
    ensures ok && loc1 == 0 && loc2 <= |s| && (forall i :: 0 <= i < loc2 ==> Takes(a, s[i])) && (loc2 < |s| ==> !Takes(a, s[loc2]))
  {
    hide AtomOk, Takes, WriteAtom, Picks;
    ghost var r := Regex(false, [Star(a)], false);
    AtomText(a);
    TextJoin(WriteAtom(a, 0), [42]);
    Alone(r.nodes, r.nodes[0]);
    var b, e;
    ok, loc1, loc2, b, e := Grep(WriteAtom(a, 0) + [42], r, 0, sed, s);
    assert r.nodes[0] == Star(a);
    assert Reads(r.nodes, 1, s, 0, 0) && AllTaken(a, s, 0, 0);
    assert MatchesAt(r, s, 0, 0);
    RunPicked(r.nodes, a, s, loc2, b, e);
  }

  lemma EmptyReads(nodes: seq<Node>, s: seq<Char>, i: nat)
    requires i <= |s|
    ensures ReadsOn(nodes, |nodes|, false, s, i)
  {
    assert Reads(nodes, |nodes|, s, i, i);
  }

  lemma RunPicked(nodes: seq<Node>, a: Atom, s: seq<Char>, j: nat, b: seq<nat>, e: seq<nat>)
    requires nodes == [Star(a)] && Picks(nodes, 0, false, s, 0, j, b, e)
    ensures j <= |s| && (forall i :: 0 <= i < j ==> Takes(a, s[i])) && (j < |s| ==> !Takes(a, s[j]))
  {
    hide Takes;
    assert nodes[0] == Star(a);
    if j < |s| && Takes(a, s[j]) {
      assert AllTaken(a, s, 0, j + 1);
      EmptyReads(nodes, s, j + 1);
      assert false;
    }
  }

  /** Text with a dollar sign after it is found at the end of the subject only. */
  method FindTail(t: seq<Char>, sed: bool, s: seq<Char>) returns (ok: bool, loc1: nat, loc2: nat)
    requires Ordinary(t) && Subject(s)
    ensures ok <==> |t| <= |s| && s[|s| - |t|..] == t
    ensures ok ==> loc1 == |s| - |t| && loc2 == |s|
  {
    hide Reads, Grouped, WriteNodes, Picks;
    ghost var r := Regex(false, Letters(t), true);
    LettersWritten(t, 0);
    assert t[0..] == t;
    assert Write(r, 0) == t + [36];
    TailText(t);
    var b, e;
    ok, loc1, loc2, b, e := Grep(t + [36], r, 0, sed, s);
    forall i: nat, j: nat
      ensures MatchesAt(r, s, i, j) <==> OccursAt(t, s, i) && j == i + |t| == |s|
    {
      LettersRead(t, 0, s, i, j);
    }
    if |t| <= |s| && s[|s| - |t|..] == t {
      assert OccursAt(t, s, |s| - |t|);
      assert MatchesAt(r, s, |s| - |t|, |s|);
    }
  }

  lemma TailText(t: seq<Char>)
    requires Ordinary(t)
    ensures Text(t + [36])
  {
    assert Text(t);
    TextJoin(t, [36]);
  }

  /** What the compiler refuses, with nbra bracketed parts begun and ebra ended, and the number of the error. */
  predicate Faulty(tail: seq<Char>, sed: bool, nbra: nat, ebra: nat, error: nat) {
    || (|tail| >= 2 && tail[0] == 92 && tail[1] == 41 && nbra == ebra && error == 42)
    || (|tail| >= 2 && tail[0] == 92 && tail[1] == 40 && nbra == 9 && error == 43)
    || (|tail| >= 2 && tail[0] == 92 && 49 <= tail[1] && tail[1] <= 57 && (tail[1] - 49) as nat >= ebra && error == 25)
    || (|tail| >= 2 && tail[0] == 92 && tail[1] == 10 && error == 36)
    || (|tail| >= 1 && tail[0] == 10 && sed && error == 36)
    || (|tail| >= 1 && tail[0] == 91 && error == 49 && forall i :: 1 <= i < |tail| ==> tail[i] != 93 && tail[i] != 45)
  }

  /** A list without its bracket at the end. */
  lemma {:induction false} Unclosed(p: seq<Char>, k: nat, lc: Char)
    requires k <= |p| && forall i :: k <= i < |p| ==> p[i] != 93 && p[i] != 45
    ensures Listing(p, k, lc) == BadBracket
    decreases |p| - k
  {
    if k < |p| && p[k] != NL {
      Unclosed(p, k + 1, p[k]);
    }
  }

  lemma UnclosedClass(p: seq<Char>, k: nat)
    requires k <= |p| && forall i :: k <= i < |p| ==> p[i] != 93 && p[i] != 45
    ensures ClassOf(p, k) == BadBracket
  {
    hide Listing;
    Unclosed(p, k, 0);
    if k < |p| {
      Unclosed(p, k + 1, 0);
    }
  }

  lemma FaultyRead(p: seq<Char>, eof: Char, sed: bool, k: nat, start: bool, nbra: nat, ebra: nat, error: nat)
    requires Delimiter(eof) && k <= |p| && Faulty(p[k..], sed, nbra, ebra, error) && ebra <= nbra
    ensures Parse(p, eof, sed, k, start, nbra, ebra) == Bad(error) && Get(p, k) != ASTERISK
  {
    hide Starred, ClassOf;
    var tail := p[k..];
    assert Get(p, k) == tail[0];
    if tail[0] == 91 {
      forall i | k + 1 <= i < |p|
        ensures p[i] != 93 && p[i] != 45
      {
        assert p[i] == tail[i - k];
      }
      UnclosedClass(p, k + 1);
    } else if tail[0] == 92 {
      assert Get(p, k + 1) == tail[1];
    }
  }

  /** After a sound beginning, what is wrong is still refused. */
  lemma {:induction false} RefusedFrom(p: seq<Char>, eof: Char, sed: bool, k: nat, start: bool, nodes: seq<Node>, n: nat, tail: seq<Char>, error: nat)
    requires n <= |nodes| && Delimiter(eof) && Grouped(nodes, n, Begins(nodes, n), Ends(nodes, n)) && Ends(nodes, n) <= Begins(nodes, n)
    requires k <= |p| && p[k..] == WriteNodes(nodes, n, eof) + tail && Faulty(tail, sed, Begins(nodes, |nodes|), Ends(nodes, |nodes|), error)
    ensures Parse(p, eof, sed, k, start, Begins(nodes, n), Ends(nodes, n)) == Bad(error) && Get(p, k) != ASTERISK
    decreases |nodes| - n
  {
    hide Here, WriteNode, Parse, AtomOk, Delimiter, Faulty;
    var nbra, ebra := Begins(nodes, n), Ends(nodes, n);
    if n == |nodes| {
      assert p[k..] == tail;
      FaultyRead(p, eof, sed, k, start, nbra, ebra, error);
    } else {
      var w := WriteNode(nodes[n], eof);
      HereTail(p, k, w, WriteNodes(nodes, n + 1, eof), tail);
      RefusedFrom(p, eof, sed, k + |w|, false, nodes, n + 1, tail, error);
      HereAt(p, k, w, 0);
      NotStarred(nodes[n], eof);
      NodeStep(p, eof, sed, k, start, nodes[n], nbra, ebra);
    }
  }

  /** What is wrong after a node is wrong with the node. */
  lemma NodeStep(p: seq<Char>, eof: Char, sed: bool, k: nat, start: bool, node: Node, nbra: nat, ebra: nat)
    requires Delimiter(eof) && Here(p, k, WriteNode(node, eof)) && k + |WriteNode(node, eof)| <= |p|
    requires match node case Once(a) => AtomOk(a) case Star(a) => AtomOk(a) case Begin => nbra < 9 case End => nbra == ebra + 1
    requires Get(p, k + |WriteNode(node, eof)|) != ASTERISK
    ensures var r := Parse(p, eof, sed, k + |WriteNode(node, eof)|, false, if node.Begin? then nbra + 1 else nbra, if node.End? then ebra + 1 else ebra);
      r.Bad? ==> Parse(p, eof, sed, k, start, nbra, ebra) == r
  {
    hide Here, WriteAtom, Parse, CharsOf, AtomOk, Delimiter;
    match node {
      case Once(a) => AtomStep(p, eof, sed, k, start, node, nbra, ebra, a, false);
      case Star(a) => AtomStep(p, eof, sed, k, start, node, nbra, ebra, a, true);
      case _ =>
        HereAt(p, k, WriteNode(node, eof), 0);
        HereAt(p, k, WriteNode(node, eof), 1);
        DelimiterNot(eof);
        if node.Begin? {
          BeginRead(p, eof, sed, k, start, nbra, ebra);
        } else {
          CloseRead(p, eof, sed, k, start, nbra, ebra);
        }
    }
  }

  lemma HereTail(p: seq<Char>, k: nat, w: seq<Char>, rest: seq<Char>, tail: seq<Char>)
    requires k <= |p| && p[k..] == (w + rest) + tail
    ensures k + |w| <= |p| && Here(p, k, w) && p[k + |w|..] == rest + tail
  {
    assert p[k..][..|w|] == w && p[k..][|w|..] == rest + tail;
    assert p[k + |w|..] == p[k..][|w|..];
  }

  lemma NotStarred(n: Node, eof: Char)
    requires Delimiter(eof) && (n.Once? || n.Star? ==> AtomOk(n.a))
    ensures WriteNode(n, eof)[0] != ASTERISK
  {
    hide WriteParts;
  }

  /** What compile refuses after a sound beginning, with the number of the error. */
  lemma Refused(p: seq<Char>, anchored: bool, nodes: seq<Node>, tail: seq<Char>, eof: Char, sed: bool, error: nat)
    requires Delimiter(eof) && Grouped(nodes, 0, 0, 0) && p == (if anchored then [94] else []) + (WriteNodes(nodes, 0, eof) + tail)
    requires Faulty(tail, sed, Begins(nodes, |nodes|), Ends(nodes, |nodes|), error) && (nodes == [] && !anchored ==> tail[0] != 10)
    ensures Pattern(p, eof, sed) == Meaning(anchored, Bad(error))
  {
    hide Parse, Faulty, WriteNodes, Grouped, Delimiter;
    var k := if anchored then 1 else 0;
    assert p[k..] == WriteNodes(nodes, 0, eof) + tail;
    RefusedFrom(p, eof, sed, k, true, nodes, 0, tail, error);
    DelimiterNot(eof);
    if !anchored {
      FaultyStart(nodes, tail, eof, sed, error);
    }
    HeadRead(p, eof, sed, anchored, p[0]);
  }

  lemma FaultyStart(nodes: seq<Node>, tail: seq<Char>, eof: Char, sed: bool, error: nat)
    requires Delimiter(eof) && Grouped(nodes, 0, 0, 0) && Faulty(tail, sed, Begins(nodes, |nodes|), Ends(nodes, |nodes|), error) && (nodes == [] ==> tail[0] != 10)
    ensures var w := WriteNodes(nodes, 0, eof) + tail;
      w != [] && w[0] != CARET && w[0] != eof && w[0] != NL
  {
    hide WriteNode;
    FirstByte(nodes, eof, false);
    if nodes == [] {
      assert WriteNodes(nodes, 0, eof) + tail == tail;
    }
  }
}
