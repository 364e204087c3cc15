/** What the tree of directories means for paths: every directory in use is reached from the root by one plain path. */
module Reach {
  import opened Blocks
  import opened BlockMap
  import opened Volumes
  import opened Directories
  import opened Links
  import opened Hierarchy
  import opened Paths
  import opened Calls
  import opened TreeCalls

  /** Names other than "." and "..", as namei gathers them. */
  ghost predicate AllPlain(c: seq<Name>) {
    forall k :: 0 <= k < |c| ==> Plain(c[k]) && Spelled(c[k])
  }

  /** The plain names c lead from the root to inode d. */
  ghost predicate Leads(s: seq<File>, c: seq<Name>, d: nat) {
    AllPlain(c) && Resolved(s, c, 0, ROOTINO - 1) == Inode(d)
  }

  /** A plain walk that ends in directory d goes through its parent and ends with its name there. */
  lemma LastLeg(s: seq<File>, c: seq<Name>, d: nat)
    requires Rooted(s) && Leads(s, c, d) && Live(s, d) && c != []
    ensures var p, name := Look(s, d, DotDot()) - 1, c[|c| - 1];
      && d + 1 != ROOTINO && p >= 0 && Leads(s, c[..|c| - 1], p) && Live(s, p) && Look(s, p, name) == d + 1
      && forall m: Name :: Plain(m) && Look(s, p, m) == d + 1 ==> m == name
  {
    hide Look, Rooted, Plain, Spelled, DotDot, Live, Homed;
    var front, name := c[..|c| - 1], c[|c| - 1];
    assert c == front + [name];
    ResolvedJoin(s, front, [name], 0, ROOTINO - 1);
    var q := Resolved(s, front, 0, ROOTINO - 1);
    if q.Inode? {
      OneStep(s, name, q.i);
      RootedAt(s, q.i, name);
    }
  }

  /** One more name. */
  lemma NextLeg(s: seq<File>, c: seq<Name>, p: nat, name: Name, d: nat)
    requires Leads(s, c, p) && Live(s, p) && Look(s, p, name) == d + 1 && Plain(name) && Spelled(name)
    ensures Leads(s, c + [name], d)
  {
    hide Look, Plain, Spelled;
    ResolvedJoin(s, c, [name], 0, ROOTINO - 1);
    OneStep(s, name, p);
  }

  /** The names on the way down to a directory that climbs to the root. */
  lemma {:induction false} Descends(s: seq<File>, d: nat, n: nat) returns (c: seq<Name>)
    requires Rooted(s) && Live(s, d) && ClimbsIn(s, d, n)
    ensures Leads(s, c, d)
    decreases n
  {
    hide Look, Rooted, Plain, Spelled, DotDot, Live, Child;
    if d == ROOTINO - 1 {
      ResolvedNone(s, 0);
      return [];
    }
    HomedAt(s, d);
    ParentKeeps(s, d);
    var p := Look(s, d, DotDot()) - 1;
    var name: Name :| Plain(name) && Look(s, p, name) == d + 1;
    RootedAt(s, p, name);
    c := Descends(s, p, n - 1);
    NextLeg(s, c, p, name, d);
    c := c + [name];
  }

  /** No two plain walks lead to one directory. */
  lemma {:induction false} OneWay(s: seq<File>, c: seq<Name>, c': seq<Name>, d: nat)
    requires Rooted(s) && Live(s, d) && Leads(s, c, d) && Leads(s, c', d)
    ensures c == c'
    decreases |c|
  {
    hide Look, Rooted, Plain, Spelled, DotDot, Live, Leads;
    if c != [] {
      LastLeg(s, c, d);
    }
    if c' != [] {
      LastLeg(s, c', d);
    }
    AtRoot(s, c, d);
    AtRoot(s, c', d);
    if c != [] && c' != [] {
      OneWay(s, c[..|c| - 1], c'[..|c'| - 1], Look(s, d, DotDot()) - 1);
      LastPlain(s, c, d);
      assert c == c[..|c| - 1] + [c[|c| - 1]] && c' == c'[..|c'| - 1] + [c'[|c'| - 1]];
    }
  }

  lemma AtRoot(s: seq<File>, c: seq<Name>, d: nat)
    requires Leads(s, c, d)
    ensures c == [] ==> d + 1 == ROOTINO
  {
    hide Look;
  }

  lemma LastPlain(s: seq<File>, c: seq<Name>, d: nat)
    requires Leads(s, c, d) && c != []
    ensures Plain(c[|c| - 1])
  {
    hide Plain, Spelled, Resolved;
  }

  /** A name without its padding. */
  function Stripped(n: seq<Byte>): (b: seq<Byte>)
    ensures b <= n && 0 !in b && (|b| < |n| ==> n[|b|] == 0)
  {
    if n == [] || n[0] == 0 then [] else [n[0]] + Stripped(n[1..])
  }

  lemma StrippedBack(n: Name)
    requires Spelled(n)
    ensures NameOf(Stripped(n)) == n && Stripped(n) != [] && SLASH !in Stripped(n)
  {
    var b := Stripped(n);
    assert n[..|b|] == b;
    forall k | |b| <= k < 14
      ensures n[k] == 0
    {
    }
    assert NameOf(b) == n;
  }

  /** The names as a path from the root. */
  function Spell(c: seq<Name>): (path: seq<Byte>)
    ensures 0 !in path
  {
    if c == [] then [] else Spell(c[..|c| - 1]) + [SLASH] + Stripped(c[|c| - 1])
  }

  lemma {:induction false} SpellBack(c: seq<Name>)
    requires AllPlain(c)
    ensures Components(Spell(c), 0) == c
  {
    hide Plain, Spelled, Components, Stripped, NameOf;
    if c == [] {
      NoComponents();
    } else {
      var front, name := c[..|c| - 1], c[|c| - 1];
      SpellBack(front);
      StrippedBack(name);
      ComponentsJoin(Spell(front), Stripped(name), 0);
      OneComponent(Stripped(name));
      assert c == front + [name];
    }
  }

  /** Every directory in use is where some path from the root leads, one made of plain names. */
  lemma PathTo(s: seq<File>, d: nat) returns (path: seq<Byte>)
    requires Rooted(s) && Live(s, d)
    ensures 0 !in path && Where(s, path, 0) == Inode(d) && AllPlain(Components(path, 0))
  {
    hide Look, Rooted, Live, Homed, Components;
    RootedAt(s, d, Dot());
    var n: nat :| ClimbsIn(s, d, n);
    var c := Descends(s, d, n);
    SpellBack(c);
    path := Spell(c);
  }

  /** And by the names of one plain path only. */
  lemma OnePath(s: seq<File>, d: nat, path: seq<Byte>, path': seq<Byte>)
    requires Rooted(s) && Live(s, d) && Where(s, path, 0) == Inode(d) == Where(s, path', 0)
    requires AllPlain(Components(path, 0)) && AllPlain(Components(path', 0))
    ensures Components(path, 0) == Components(path', 0)
  {
    hide Rooted, Live, Components, AllPlain, Resolved;
    OneWay(s, Components(path, 0), Components(path', 0), d);
  }
}
