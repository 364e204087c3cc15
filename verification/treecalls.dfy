/** mkdir and rmdir, which work by building paths to "." and ".." and linking and unlinking them. */
module TreeCalls {
  import opened Blocks
  import opened BlockMap
  import opened ByteFiles
  import opened Volumes
  import opened Directories
  import opened Links
  import opened Hierarchy
  import opened Paths
  import opened Calls

  const PERIOD: Byte := 46

  function WithDot(path: seq<Byte>): seq<Byte> {
    path + [SLASH] + [PERIOD]
  }

  function WithDots(path: seq<Byte>): seq<Byte> {
    path + [SLASH] + [PERIOD, PERIOD]
  }

  lemma DotComponents(path: seq<Byte>)
    ensures Components(WithDot(path), 0) == Components(path, 0) + [Dot()]
    ensures Components(WithDots(path), 0) == Components(path, 0) + [DotDot()]
    ensures Components([PERIOD], 0) == [Dot()]
  {
    ComponentsJoin(path, [PERIOD], 0);
    ComponentsJoin(path, [PERIOD, PERIOD], 0);
    OneComponent([PERIOD]);
    OneComponent([PERIOD, PERIOD]);
    assert NameOf([PERIOD]) == Dot() && NameOf([PERIOD, PERIOD]) == DotDot();
  }

  lemma OneComponent(c: seq<Byte>)
    requires c != [] && SLASH !in c
    ensures Components(c, 0) == [NameOf(c)]
  {
    EndIs(c, 0, |c|);
    assert c[0..|c|] == c;
    assert Components(c, |c|) == [];
  }

  /** dirname(3). */
  function Dirname(path: seq<Byte>): seq<Byte> {
    var b := WithoutName(WithoutSlashes(path));
    if WithoutSlashes(b) != [] then WithoutSlashes(b)
    else if b == [] && WithoutSlashes(path) != [] then [PERIOD]
    else if path == [] then [PERIOD]
    else [SLASH]
  }

  function WithoutSlashes(p: seq<Byte>): (q: seq<Byte>)
    ensures q <= p && (q != [] ==> q[|q| - 1] != SLASH)
  {
    if p != [] && p[|p| - 1] == SLASH then WithoutSlashes(p[..|p| - 1]) else p
  }

  function WithoutName(p: seq<Byte>): (q: seq<Byte>)
    ensures q <= p && (q != [] ==> q[|q| - 1] == SLASH) && forall k :: |q| <= k < |p| ==> p[k] != SLASH
  {
    if p != [] && p[|p| - 1] != SLASH then WithoutName(p[..|p| - 1]) else p
  }

  lemma {:induction false} SlashesDropped(p: seq<Byte>)
    ensures Components(WithoutSlashes(p), 0) == Components(p, 0)
  {
    if p != [] && p[|p| - 1] == SLASH {
      var q := p[..|p| - 1];
      SlashesDropped(q);
      ComponentsJoin(q, [], 0);
      assert q + [SLASH] + [] == p;
    }
  }

  lemma NameDropped(p: seq<Byte>)
    requires p != [] && p[|p| - 1] != SLASH
    ensures Components(p, 0) == Components(WithoutName(p), 0) + [NameOf(p[|WithoutName(p)|..])]
  {
    var q := WithoutName(p);
    var last := p[|q|..];
    OneComponent(last);
    if q == [] {
      assert last == p;
    } else {
      var r := q[..|q| - 1];
      assert r + [SLASH] + last == p;
      ComponentsJoin(r, last, 0);
      ComponentsJoin(r, [], 0);
      assert r + [SLASH] + [] == q;
    }
  }

  /** dirname has all the components but the last; for a bare name it is ".". */
  lemma DirnameComponents(path: seq<Byte>)
    requires Components(path, 0) != []
    ensures var c := Components(path, 0);
      Components(Dirname(path), 0) == c[..|c| - 1] || (|c| == 1 && Components(Dirname(path), 0) == [Dot()])
    ensures 0 !in path ==> 0 !in Dirname(path)
  {
    hide Components;
    var a := WithoutSlashes(path);
    SlashesDropped(path);
    NoComponents();
    var b := WithoutName(a);
    NameDropped(a);
    SlashesDropped(b);
    DotComponents([]);
    var c := Components(path, 0);
    assert c[..|c| - 1] == Components(b, 0);
  }

  lemma NoComponents()
    ensures Components([], 0) == [] && Components([SLASH], 0) == []
  {
    assert Components([SLASH], 1) == [];
  }

  lemma DotsNotNul(path: seq<Byte>)
    requires 0 !in path
    ensures 0 !in WithDot(path) && 0 !in WithDots(path)
  {
  }

  /** Where a name is missing from, and where the rest of its path leads. */
  lemma LastComponent(s: seq<File>, path: seq<Byte>, flag: nat)
    requires Where(s, path, flag).Parent?
    ensures var c := Components(path, 0);
      && c != [] && c[|c| - 1] == Where(s, path, flag).name
      && Resolved(s, c[..|c| - 1], 0, ROOTINO - 1) == Inode(Where(s, path, flag).d)
      && Where(s, path, flag).d < |s| && IsDir(s[Where(s, path, flag).d].mode)
  {
    hide Look, Components;
    var c := Components(path, 0);
    ResolvedNone(s, flag);
    var front, last := c[..|c| - 1], c[|c| - 1];
    assert c == front + [last];
    ResolvedJoin(s, front, [last], flag, ROOTINO - 1);
    match Resolved(s, front, 0, ROOTINO - 1) {
      case Inode(x) => ResolvedStep(s, [last], flag, x, last, []);
        ResolvedNone(s, flag);
      case _ =>
    }
  }

  lemma ResolvedNone(s: seq<File>, flag: nat)
    ensures Resolved(s, [], flag, ROOTINO - 1) == Inode(ROOTINO - 1) && forall x: int :: !Resolved(s, [], flag, x).Parent?
  {
    hide Look;
  }

  /** Bindings and directories that are kept keep a path. */
  ghost predicate Extends(s: seq<File>, t: seq<File>) {
    && |s| == |t|
    && (forall a: int, n: Name :: Look(s, a, n) > 0 ==> Look(t, a, n) == Look(s, a, n))
    && forall j :: 0 <= j < |s| && IsDir(s[j].mode) ==> IsDir(t[j].mode)
  }

  lemma {:induction false} ResolvedKept(s: seq<File>, t: seq<File>, c: seq<Name>, d: int)
    requires Extends(s, t) && Resolved(s, c, 0, d).Inode?
    ensures Resolved(t, c, 0, d) == Resolved(s, c, 0, d)
    decreases |c|
  {
    hide Look;
    if c != [] {
      NotNegative(s, c[1..], Look(s, d, c[0]) - 1);
      ResolvedKept(s, t, c[1..], Look(s, d, c[0]) - 1);
    }
  }

  lemma NotNegative(s: seq<File>, c: seq<Name>, d: int)
    requires Resolved(s, c, 0, d).Inode?
    ensures d >= 0
  {
    hide Look;
  }

  /** The front of path leads to p, which has name for directory i. */
  ghost predicate Reaches(s: seq<File>, path: seq<Byte>, p: nat, name: Name, i: nat) {
    var c := Components(path, 0);
    && c != [] && c[|c| - 1] == name && Resolved(s, c[..|c| - 1], 0, ROOTINO - 1) == Inode(p)
    && p < |s| && IsDir(s[p].mode) && i < |s| && IsDir(s[i].mode) && Look(s, p, name) == i + 1
  }

  /** Then path leads to i, path/. and path/.. to the entries of i. */
  lemma ReachedPaths(s: seq<File>, path: seq<Byte>, p: nat, name: Name, i: nat)
    requires Reaches(s, path, p, name, i)
    ensures Where(s, path, 0) == Inode(i) && Where(s, path, 2) == Parent(p, name)
    ensures Where(s, WithDot(path), 1).Parent? <==> Look(s, i, Dot()) == 0
    ensures Where(s, WithDot(path), 1).Parent? ==> Where(s, WithDot(path), 1) == Parent(i, Dot())
    ensures Where(s, WithDots(path), 1).Parent? <==> Look(s, i, DotDot()) == 0
    ensures Where(s, WithDots(path), 1).Parent? ==> Where(s, WithDots(path), 1) == Parent(i, DotDot())
    ensures Where(s, WithDot(path), 2) == if Look(s, i, Dot()) > 0 then Parent(i, Dot()) else Missing
    ensures Where(s, WithDots(path), 2) == if Look(s, i, DotDot()) > 0 then Parent(i, DotDot()) else Missing
  {
    hide Look, Components, Dot, DotDot;
    var c := Components(path, 0);
    var front := c[..|c| - 1];
    assert c == front + [name];
    ResolvedJoin(s, front, [name], 0, ROOTINO - 1);
    ResolvedJoin(s, front, [name], 2, ROOTINO - 1);
    ResolvedStep(s, [name], 0, p, name, []);
    ResolvedStep(s, [name], 2, p, name, []);
    ResolvedEnd(s, 0, i);
    DotComponents(path);
    LastStep(s, c, i, Dot());
    LastStep(s, c, i, DotDot());
  }

  lemma LastStep(s: seq<File>, c: seq<Name>, i: nat, e: Name)
    requires Resolved(s, c, 0, ROOTINO - 1) == Inode(i) && i < |s| && IsDir(s[i].mode)
    ensures var r := Resolved(s, c + [e], 1, ROOTINO - 1);
      (r.Parent? <==> Look(s, i, e) == 0) && (r.Parent? ==> r == Parent(i, e))
    ensures Resolved(s, c + [e], 2, ROOTINO - 1) == if Look(s, i, e) > 0 then Parent(i, e) else Missing
  {
    hide Look;
    ResolvedJoin(s, c, [e], 1, ROOTINO - 1);
    ResolvedJoin(s, c, [e], 2, ROOTINO - 1);
    ResolvedStep(s, [e], 1, i, e, []);
    ResolvedStep(s, [e], 2, i, e, []);
    if Look(s, i, e) > 0 {
      ResolvedEnd(s, 1, Look(s, i, e) - 1);
    }
  }

  /** In a sound state dirname leads to the directory the last name is in. */
  lemma DirnameLeads(s: seq<File>, path: seq<Byte>, p: nat)
    requires Rooted(s) && Components(path, 0) != []
    requires var c := Components(path, 0);
      Resolved(s, c[..|c| - 1], 0, ROOTINO - 1) == Inode(p)
    ensures Where(s, Dirname(path), 0) == Inode(p)
  {
    hide Look, Components, Dirname, Dot, DotDot, Live, Plain, Spelled, Homed, Child, Rooted;
    var c := Components(path, 0);
    DirnameComponents(path);
    if Components(Dirname(path), 0) != c[..|c| - 1] {
      ResolvedNone(s, 0);
      RootDot(s);
      ResolvedStep(s, [Dot()], 0, ROOTINO - 1, Dot(), []);
      ResolvedEnd(s, 0, ROOTINO - 1);
    }
  }

  lemma RootDot(s: seq<File>)
    requires Rooted(s)
    ensures ROOTINO <= |s| && IsDir(s[ROOTINO - 1].mode) && Look(s, ROOTINO - 1, Dot()) == ROOTINO
  {
    hide Look, Dot, DotDot, Rooted;
    RootedAt(s, ROOTINO - 1, Dot());
    HomedAt(s, ROOTINO - 1);
  }

  lemma BuddingExtends(s: seq<File>, t: seq<File>, p: nat, name: Name, i: nat, dot: nat, dotdot: nat)
    requires Budding(s, t, p, name, i, dot, dotdot)
    ensures Extends(s, t)
  {
    hide Look, Dot, DotDot;
    assert !IsDir(0);
  }

  /** While mkdir is at work its path leads to the new directory. */
  lemma BuddingReached(s: seq<File>, t: seq<File>, path: seq<Byte>, p: nat, name: Name, i: nat, dot: nat, dotdot: nat)
    requires Budding(s, t, p, name, i, dot, dotdot) && Where(s, path, 1) == Parent(p, name)
    ensures Reaches(t, path, p, name, i)
    ensures Look(t, i, Dot()) == dot && Look(t, i, DotDot()) == dotdot
  {
    hide Look, Components, Dot, DotDot, Where;
    BuddingExtends(s, t, p, name, i, dot, dotdot);
    LastComponent(s, path, 1);
    var c := Components(path, 0);
    ResolvedKept(s, t, c[..|c| - 1], ROOTINO - 1);
    DotsSpelled();
    BuddingLooks(s, t, p, name, i, dot, dotdot);
  }

  lemma BuddingLooks(s: seq<File>, t: seq<File>, p: nat, name: Name, i: nat, dot: nat, dotdot: nat)
    requires Budding(s, t, p, name, i, dot, dotdot)
    ensures Look(t, p, name) == i + 1 && Look(t, i, Dot()) == dot && Look(t, i, DotDot()) == dotdot
  {
    hide Look, Dot, DotDot;
    DotsSpelled();
    assert Look(t, p, name) == Bud(s, p, name, i, dot, dotdot, p, name);
    assert Look(t, i, Dot()) == Bud(s, p, name, i, dot, dotdot, i, Dot());
    assert Look(t, i, DotDot()) == Bud(s, p, name, i, dot, dotdot, i, DotDot());
  }

  /** unlink by path of a binding that can go without harm. */
  lemma RemovedForgets(s: seq<File>, path: seq<Byte>, d: nat, name: Name)
    requires Linked(s) && Where(s, path, 2) == Parent(d, name) && Look(s, d, name) > 0 && Harmless(s, d, name)
    ensures Removable(s, path, true) && Linked(RemovedBy(s, path, true)) && Forgot(s, RemovedBy(s, path, true), d, name)
  {
    hide Where, Look, Guarded, Exact, Slots, Find, DirMap, Harmless, Forgot, Unlinked, Emptied, Orphaned;
    LookDir(s, d, name);
    LookIsFind(s, d, name);
    var k := Find(Slots(s[d].bytes), name);
    EntryNames(s, d, k);
    HarmlessEmptied(s, d, k);
    Unlinkable(s, d, k);
  }

  lemma LookDir(s: seq<File>, d: nat, name: Name)
    requires Look(s, d, name) > 0
    ensures d < |s| && IsDir(s[d].mode)
  {
  }

  /** Undoing a mkdir takes what was made away again. */
  method Unmake(vol: Volume, ghost s: seq<File>, path: seq<Byte>, ghost p: nat, ghost name: Name, ghost i: nat, ghost dot: nat)
    requires vol.Valid() && Up(vol.State()) && 0 !in path && |s| == |vol.itab|
    modifies vol, vol.fs, vol.fs.bio, vol.itab
    ensures vol.Valid() && Up(vol.State())
    ensures var t := old(vol.State());
      Linked(t) && Budding(s, t, p, name, i, dot, 0) && (dot == 0 || dot == i + 1) && Where(s, path, 1) == Parent(p, name)
      ==> Linked(vol.State()) && SameTree(s, vol.State())
  {
    hide Volume.Valid, Volume.State, Guarded, Mounted, Where, Look, Exact, Removable, RemovedBy, Linked, Budding, SameTree, Strands;
    DotsNotNul(path);
    ghost var t := vol.State();
    ghost var fine := Linked(t) && Budding(s, t, p, name, i, dot, 0) && (dot == 0 || dot == i + 1) && Where(s, path, 1) == Parent(p, name);
    var ok := UnlinkCall(vol, WithDots(path), true);
    ghost var t1 := vol.State();
    ok := UnlinkCall(vol, WithDot(path), true);
    ghost var t2 := vol.State();
    ok := UnlinkCall(vol, path, true);
    if fine {
      UndoDots(s, t, path, p, name, i, dot);
      assert t1 == t;
      UndoDot(s, t, path, p, name, i, dot);
      UndoName(s, t2, path, p, name, i);
    }
  }

  lemma UndoDots(s: seq<File>, t: seq<File>, path: seq<Byte>, p: nat, name: Name, i: nat, dot: nat)
    requires Linked(t) && Budding(s, t, p, name, i, dot, 0) && Where(s, path, 1) == Parent(p, name)
    ensures !Removable(t, WithDots(path), true)
  {
    hide Look, Components, Dot, DotDot, Where, Guarded, Exact, Budding;
    BuddingReached(s, t, path, p, name, i, dot, 0);
    ReachedPaths(t, path, p, name, i);
  }

  lemma UndoDot(s: seq<File>, t: seq<File>, path: seq<Byte>, p: nat, name: Name, i: nat, dot: nat)
    requires Linked(t) && Budding(s, t, p, name, i, dot, 0) && Where(s, path, 1) == Parent(p, name) && (dot == 0 || dot == i + 1)
    ensures var u := if Removable(t, WithDot(path), true) then RemovedBy(t, WithDot(path), true) else t;
      Linked(u) && Budding(s, u, p, name, i, 0, 0)
  {
    hide Look, Components, Dot, DotDot, Where, Guarded, Exact, Called, RemovedBy;
    BuddingReached(s, t, path, p, name, i, dot, 0);
    ReachedPaths(t, path, p, name, i);
    DotsSpelled();
    if dot != 0 {
      RemovedForgets(t, WithDot(path), i, Dot());
      var u := RemovedBy(t, WithDot(path), true);
      assert Budding(s, u, p, name, i, 0, 0);
    } else {
      assert !Removable(t, WithDot(path), true);
    }
  }

  lemma UndoName(s: seq<File>, t: seq<File>, path: seq<Byte>, p: nat, name: Name, i: nat)
    requires Linked(t) && Budding(s, t, p, name, i, 0, 0) && Where(s, path, 1) == Parent(p, name)
    ensures Removable(t, path, true) && Linked(RemovedBy(t, path, true)) && SameTree(s, RemovedBy(t, path, true))
  {
    hide Look, Components, Dot, DotDot, Where, Guarded, Exact, Called, RemovedBy;
    BuddingReached(s, t, path, p, name, i, 0, 0);
    ReachedPaths(t, path, p, name, i);
    assert forall n: Name :: Look(t, i, n) == 0;
    RemovedForgets(t, path, p, name);
  }

  /** A directory made by maknode for path. */
  ghost predicate Planted(s: seq<File>, t: seq<File>, path: seq<Byte>, p: nat, name: Name, i: nat) {
    && Guarded(s) && Guarded(t) && (Exact(t) <==> Exact(s)) && Where(s, path, 1) == Parent(p, name)
    && Budding(s, t, p, name, i, 0, 0) && t[i].bytes == [] && ROOTINO <= i + 1 && s[p].nlink > 0
  }

  /** link of "." goes to the new directory. */
  lemma DotLink(s: seq<File>, t: seq<File>, path: seq<Byte>, p: nat, name: Name, i: nat)
    requires Planted(s, t, path, p, name, i)
    ensures Linkable(t, path, WithDot(path), true) && !Brimful(t, Where(t, path, 0))
    ensures var u := LinkedBy(t, path, WithDot(path), true);
      Budding(s, u, p, name, i, i + 1, 0) && |u[i].bytes| == DENT
    ensures Where(t, WithDot(path), 1) == Parent(i, Dot()) && t[i].nlink > 0
  {
    hide Look, Components, Dot, DotDot, Where, Guarded, Exact, Bound, Slots, Vacant;
    BuddingReached(s, t, path, p, name, i, 0, 0);
    ReachedPaths(t, path, p, name, i);
    BuddedDot(s, t, p, name, i);
  }

  /** link of ".." goes from the parent to the new directory. */
  lemma DotsLink(s: seq<File>, t: seq<File>, path: seq<Byte>, p: nat, name: Name, i: nat)
    requires Sound(s) && Guarded(t) && Where(s, path, 1) == Parent(p, name) && Budding(s, t, p, name, i, i + 1, 0)
    ensures Linkable(t, Dirname(path), WithDots(path), true)
    ensures Where(t, Dirname(path), 0) == Inode(p) && p < |t| == |s| && t[p].nlink == s[p].nlink <= MAXLINKS
    ensures Where(t, WithDots(path), 1) == Parent(i, DotDot()) && t[i].nlink > 0
    ensures s[p].nlink < MAXLINKS ==> Budding(s, LinkedBy(t, Dirname(path), WithDots(path), true), p, name, i, i + 1, p + 1)
  {
    hide Look, Components, Dot, DotDot, Where, Guarded, Exact, Bound, Slots, Vacant, Rooted, Dirname;
    BuddingReached(s, t, path, p, name, i, i + 1, 0);
    ReachedPaths(t, path, p, name, i);
    ParentNumber(s, p);
    GuardedDir(t, p);
    DirHasBlocks(t[p].mode);
    if s[p].nlink < MAXLINKS {
      BuddedDots(s, t, p, name, i);
    }
    LastComponent(s, path, 1);
    DirnameLeads(s, path, p);
    BuddingExtends(s, t, p, name, i, i + 1, 0);
    WhereKept(s, t, Dirname(path));
  }

  lemma WhereKept(s: seq<File>, t: seq<File>, path: seq<Byte>)
    requires Extends(s, t) && Where(s, path, 0).Inode?
    ensures Where(t, path, 0) == Where(s, path, 0)
  {
    hide Look, Components;
    ResolvedKept(s, t, Components(path, 0), ROOTINO - 1);
  }

  /** An inode that dirname leads to in the course of mkdir and that is brimful was so before. */
  lemma BrimfulBefore(s: seq<File>, t: seq<File>, path: seq<Byte>, p: nat, name: Name, i: nat)
    requires Where(s, path, 1) == Parent(p, name) && Budding(s, t, p, name, i, i + 1, 0) && Brimful(t, Where(t, Dirname(path), 0))
    ensures Brimful(s, Where(s, Dirname(path), 0))
  {
    hide Look, Components, Dot, DotDot, Dirname;
    var c := Components(path, 0);
    LastComponent(s, path, 1);
    DirnameComponents(path);
    BuddingExtends(s, t, p, name, i, i + 1, 0);
    if Components(Dirname(path), 0) == c[..|c| - 1] {
      WhereKept(s, t, Dirname(path));
    } else {
      ResolvedNone(s, 0);
      assert c[..|c| - 1] == [];
      OneStep(t, Dot(), ROOTINO - 1);
      OneStep(s, Dot(), ROOTINO - 1);
      assert Look(t, p, Dot()) == Bud(s, p, name, i, i + 1, 0, p, Dot());
    }
  }

  /** Where directory p is gone, a walk that led to x leads there still, or nowhere. */
  lemma {:induction false} WalkWithout(s: seq<File>, t: seq<File>, c: seq<Name>, d: int, p: nat, x: nat)
    requires |s| == |t| && p < |t| && !IsDir(t[p].mode) && Resolved(s, c, 0, d) == Inode(x)
    requires forall a: int, n: Name :: a != p && Look(s, a, n) > 0 ==> Look(t, a, n) == Look(s, a, n)
    ensures Resolved(t, c, 0, d) == Inode(x) || Resolved(t, c, 0, d) == Missing
    decreases |c|
  {
    hide Look;
    if c != [] && d != p {
      NotNegative(s, c[1..], Look(s, d, c[0]) - 1);
      WalkWithout(s, t, c[1..], Look(s, d, c[0]) - 1, p, x);
    }
  }

  /** Names after the link of ".." to a brimful parent. */
  lemma OverrunLooks(s: seq<File>, u: seq<File>, p: nat, name: Name, i: nat)
    requires Guarded(s) && Guarded(u) && Budding(s, u, p, name, i, i + 1, 0) && s[p].nlink == MAXLINKS && ROOTINO <= p + 1 < INUMS
    ensures var t := Bound(u, i, Vacant(Slots(u[i].bytes)), p, DotDot());
      && |t| == |u| && (u[p].count == 0 ==> t[p].mode == 0) && (u[p].count > 0 ==> forall j :: 0 <= j < |u| ==> t[j].mode == u[j].mode)
      && forall a: int, n: Name :: (a != p || u[p].count > 0) && Look(u, a, n) > 0 ==> Look(t, a, n) == Look(u, a, n)
  {
    hide Look, Dot, DotDot, Slots, Vacant, Find, DirMap, Splice, Dent, Guarded;
    DotsSpelled();
    var k := Vacant(Slots(u[i].bytes));
    var v := AddLinks(Entered(u, i, k, p + 1, DotDot()), p, 1);
    var t := Bound(u, i, k, p, DotDot());
    EnteredFacts(u, i, k, p + 1, DotDot());
    BuddingLooks(s, u, p, name, i, i + 1, 0);
    LookIsFind(u, i, DotDot());
    EnteredMap(u, i, k, p + 1, DotDot());
    LookUpdate(u, v, i, DotDot(), p + 1);
    if u[p].count == 0 {
      forall a: int, n: Name
        ensures Look(t, a, n) == if a == p then 0 else Look(v, a, n)
      {
        LookElse(v, p, t[p], a, n);
      }
    }
  }

  /**
   What is left of mkdir when the parent's link count has wrapped round undoes nothing.  An open parent is still there,
   the new directory is found, and the call succeeds.  Any other has been released: neither the new directory nor its
   "." and ".." can be found to be unlinked, and the entry for the parent that names a free inode stays.
   */
  lemma AfterOverrun(s: seq<File>, u: seq<File>, path: seq<Byte>, p: nat, name: Name, i: nat)
    requires Sound(s) && Guarded(u) && Budding(s, u, p, name, i, i + 1, 0) && Where(s, path, 1) == Parent(p, name) && s[p].nlink == MAXLINKS
    ensures Linkable(u, Dirname(path), WithDots(path), true)
    ensures var t := LinkedBy(u, Dirname(path), WithDots(path), true);
      if u[p].count > 0 then Where(t, path, 0) == Inode(i)
      else Where(t, path, 0) == Where(t, WithDots(path), 2) == Where(t, WithDot(path), 2) == Where(t, path, 2) == Missing
  {
    hide Look, Components, Dot, DotDot, Guarded, Exact, Bound, Slots, Vacant, Rooted, Dirname, Budding;
    DotsLink(s, u, path, p, name, i);
    LastComponent(s, path, 1);
    ParentNumber(s, p);
    OverrunLooks(s, u, p, name, i);
    BuddingReached(s, u, path, p, name, i, i + 1, 0);
    ReachedPaths(u, path, p, name, i);
    var t := LinkedBy(u, Dirname(path), WithDots(path), true);
    if u[p].count > 0 {
      WhereKept(u, t, path);
    } else {
      var c := Components(path, 0);
      var front := c[..|c| - 1];
      assert c == front + [name];
      WalkWithout(u, t, front, ROOTINO - 1, p, p);
      ResolvedJoin(t, front, [name], 0, ROOTINO - 1);
      ResolvedJoin(t, front, [name], 2, ROOTINO - 1);
      OneStep(t, name, p);
      DotComponents(path);
      ResolvedJoin(t, c, [Dot()], 2, ROOTINO - 1);
      ResolvedJoin(t, c, [DotDot()], 2, ROOTINO - 1);
    }
  }

  /** The links of "." and "..", and the lookup of the finished directory.  lost says that the parent's link count wrapped round. */
  method MakeDots(vol: Volume, ghost s: seq<File>, path: seq<Byte>, ghost p: nat, ghost name: Name, ghost i: nat)
    returns (ok: bool, lost: bool, ghost dot: nat)
    requires vol.Valid() && Up(vol.State()) && 0 !in path && Planted(s, vol.State(), path, p, name, i)
    modifies vol, vol.fs, vol.fs.bio, vol.itab
    ensures vol.Valid() && |vol.State()| == |s|
    ensures lost ==> !ok && !Guarded(vol.State()) && Brimful(s, Where(s, Dirname(path), 0))
    ensures !lost ==> Up(vol.State())
    ensures Sound(s) && lost ==> Overrun(vol.State(), p) && s[p].nlink == MAXLINKS
    ensures Sound(s) && !lost ==> Linked(vol.State())
    ensures Sound(s) && ok ==> Budding(s, vol.State(), p, name, i, i + 1, p + 1) && s[p].nlink < MAXLINKS
    ensures Sound(s) && !ok && !lost ==>
      Budding(s, vol.State(), p, name, i, dot, 0) && (dot == 0 || dot == i + 1) && |old(vol.fs.stack)| <= 8
  {
    hide Volume.Valid, Volume.State, Guarded, Mounted, Where, Look, Exact, Linkable, LinkedBy, Budding, Planted, Dirname, Rooted, Brimful, Overrun, Room;
    DotsNotNul(path);
    DirnameNotNul(path);
    ghost var t := vol.State();
    dot := 0;
    DotLink(s, t, path, p, name, i);
    PlantedFacts(s, t, path, p, name, i);
    DotRoom(t, i, |vol.fs.stack|);
    ok, lost := LinkCall(vol, path, WithDot(path), true);
    if !ok {
      return;
    }
    ghost var u := vol.State();
    dot := i + 1;
    if Sound(s) {
      DotsLink(s, u, path, p, name, i);
      DotsRoom(s, u, p, name, i, |vol.fs.stack|);
    }
    ok, lost := LinkCall(vol, Dirname(path), WithDots(path), true);
    if lost {
      BrimfulBefore(s, u, path, p, name, i);
      BrimfulIs(u, Where(u, Dirname(path), 0));
      ok := false;
    } else if ok {
      if Sound(s) {
        BrimfulIs(u, Where(u, Dirname(path), 0));
        MadePath(s, vol.State(), path, p, name, i);
      }
      WhereZero(vol.State(), path);
      ok := Stat(vol, path);
    }
  }

  lemma BrimfulIs(s: seq<File>, r: Target)
    ensures Brimful(s, r) <==> r.Inode? && r.i < |s| && s[r.i].nlink == MAXLINKS
  {
  }

  lemma DotRoom(t: seq<File>, i: nat, free: nat)
    requires i < |t| && t[i].nlink > 0 && t[i].bytes == []
    ensures free > 4 ==> Room(t, i, free)
  {
  }

  lemma DotsRoom(s: seq<File>, t: seq<File>, p: nat, name: Name, i: nat, free: nat)
    requires Budding(s, t, p, name, i, i + 1, 0) && |t[i].bytes| == DENT
    ensures free > 4 ==> Room(t, i, free)
  {
    hide Look;
  }

  lemma PlantedFacts(s: seq<File>, t: seq<File>, path: seq<Byte>, p: nat, name: Name, i: nat)
    requires Planted(s, t, path, p, name, i)
    ensures Guarded(s) && Guarded(t) && (Exact(t) <==> Exact(s)) && Where(s, path, 1) == Parent(p, name) && Budding(s, t, p, name, i, 0, 0)
    ensures |s| == |t| && i < |t| && t[i].bytes == [] && t[i].nlink == 1
  {
    hide Where, Look, Guarded, Exact;
  }

  lemma MadePath(s: seq<File>, t: seq<File>, path: seq<Byte>, p: nat, name: Name, i: nat)
    requires Budding(s, t, p, name, i, i + 1, p + 1) && Where(s, path, 1) == Parent(p, name)
    ensures Where(t, path, 0).Inode?
  {
    hide Look, Components, Dot, DotDot, Where;
    BuddingReached(s, t, path, p, name, i, i + 1, p + 1);
    ReachedPaths(t, path, p, name, i);
  }

  /** A lookup that only comes and goes, as stat, chmod and the change of owner make it. */
  method Stat(vol: Volume, path: seq<Byte>) returns (ok: bool)
    requires vol.Valid() && Up(vol.State()) && 0 !in path
    modifies vol, vol.fs, vol.fs.bio, vol.itab
    ensures vol.Valid() && vol.State() == old(vol.State()) && (ok <==> Where(vol.State(), path, 0).Inode?) && vol.fs.stack == old(vol.fs.stack)
  {
    hide Volume.Valid, Volume.State, Guarded, Where, Mounted;
    ghost var s := vol.State();
    WhereZero(s, path);
    var r, k := Namei(vol, path, 0);
    ok := r.Inode?;
    if ok {
      DropBack(s, r.i);
      vol.Iput(r.i);
    }
  }

  lemma DirnameNotNul(path: seq<Byte>)
    requires 0 !in path
    ensures 0 !in Dirname(path)
  {
  }

  /** What mkdir promises of a volume whose directories are a tree. */
  ghost predicate MkdirDone(s: seq<File>, t: seq<File>, path: seq<Byte>, free: nat, ok: bool, i: nat) {
    var q := Where(s, path, 1);
    && Sound(t)
    && if ok then q.Parent? && Grew(s, t, q.d, q.name, i) && Live(t, i) && s[q.d].nlink < MAXLINKS
       else SameTree(s, t) && (q.Parent? && Room(s, q.d, free) && free > 12 ==> NoInode(s))
  }

  /**
   v7fs_mkdir: maknode, the links of "." and ".." by path, and their removal by path if a step failed.  A tree of
   directories grows by one directory, or names, links and inodes are as before; unless the parent has as many links as
   it can count: then, lost, the link of ".." wraps its count round.  The model of the call ends there.
   */
  method MkdirCall(vol: Volume, path: seq<Byte>) returns (ok: bool, i: nat, lost: bool)
    requires vol.Valid() && Up(vol.State()) && 0 !in path
    modifies vol, vol.fs, vol.fs.bio, vol.itab
    ensures vol.Valid()
    ensures lost ==> !ok && !Guarded(vol.State()) && Where(old(vol.State()), path, 1).Parent? && Brimful(old(vol.State()), Where(old(vol.State()), Dirname(path), 0))
    ensures !lost ==> Up(vol.State())
    ensures Sound(old(vol.State())) && !lost ==> MkdirDone(old(vol.State()), vol.State(), path, |old(vol.fs.stack)|, ok, i)
    ensures Sound(old(vol.State())) && lost ==> MkdirLost(old(vol.State()), vol.State(), path)
  {
    hide Volume.Valid, Volume.State, Guarded, Mounted, Where, Look, Exact, Budding, Planted, Rooted, Slots, Find, Vacant, Spelled, Room,
         NoInode, Created, SameTree, Grew, Live, Brimful, Dirname, Overrun;
    ghost var s := vol.State();
    ok, i, lost := false, 0, false;
    if Sound(s) {
      NothingMade(s, s, 0);
    }
    var r, k := Namei(vol, path, 1);
    match r {
      case Missing =>
      case Inode(j) =>
        DropBack(s, j);
        vol.Iput(j);
      case Parent(p, name) =>
        ok, i, lost := MakeDir(vol, s, path, p, k, name);
    }
  }

  /** The parent had as many links as it can count, and has been given one more. */
  ghost predicate MkdirLost(s: seq<File>, t: seq<File>, path: seq<Byte>) {
    var q := Where(s, path, 1);
    q.Parent? && q.d < |s| && s[q.d].nlink == MAXLINKS && Overrun(t, q.d)
  }

  /** mkdir's work, when namei has left it the place for the name. */
  method MakeDir(vol: Volume, ghost s: seq<File>, path: seq<Byte>, p: nat, k: nat, name: Name) returns (ok: bool, i: nat, lost: bool)
    requires vol.Valid() && Up(s) && |s| == |vol.itab| && 0 !in path && Where(s, path, 1) == Parent(p, name) && Lands(s, Parent(p, name), 1, k)
    requires vol.State() == Referenced(s, p, 1)
    modifies vol, vol.fs, vol.fs.bio, vol.itab
    ensures vol.Valid()
    ensures lost ==> !ok && !Guarded(vol.State()) && Brimful(s, Where(s, Dirname(path), 0))
    ensures !lost ==> Up(vol.State())
    ensures Sound(s) && !lost ==> MkdirDone(s, vol.State(), path, |old(vol.fs.stack)|, ok, i)
    ensures Sound(s) && lost ==> MkdirLost(s, vol.State(), path)
  {
    hide Volume.Valid, Volume.State, Guarded, Mounted, Where, Look, Exact, Budding, Planted, Rooted, Slots, Find, Vacant, Spelled, Room,
         NoInode, Created, SameTree, Grew, Live, Sprout, Brimful, Dirname, Overrun;
    lost := false;
    ok, i := MakeIn(vol, s, p, k, name, IFDIR + 448);
    if !ok {
      if Sound(s) {
        NothingMade(s, vol.State(), i);
      }
      return;
    }
    Dismissed(s, p, i, name, vol.State());
    vol.Iput(i);
    PlantedNow(s, vol.State(), path, p, name, i);
    ghost var dot;
    ok, lost, dot := MakeDots(vol, s, path, p, name, i);
    if ok {
      if Sound(s) {
        Grown(s, vol.State(), p, name, i);
      }
    } else if !lost {
      Unmake(vol, s, path, p, name, i, dot);
      if Sound(s) {
        SameSound(s, vol.State());
      }
    }
  }

  lemma NothingMade(s: seq<File>, t: seq<File>, i: nat)
    requires Sound(s) && Guarded(t) && (Exact(t) <==> Exact(s)) && (t == s || (i < |s| && s[i].mode == 0 && t == s[i := File(0, 0, 0, [], true)]))
    ensures Sound(t) && SameTree(s, t)
  {
    hide Guarded, Exact, Look, Rooted;
    NoBud(s, t, i);
  }

  /** The reference to the new inode goes. */
  lemma Dismissed(s: seq<File>, d: nat, i: nat, name: Name, t: seq<File>)
    requires Up(t) && Created(s, t, d, name, i, IFDIR + 448) && ROOTINO <= i + 1
    ensures |t| == |s| && i < |s| && i + 1 < INUMS && s[i].mode == 0 && Look(s, d, name) == 0
    ensures t[i].count == 1 && t[i].nlink == 1 && t[i].mode != 0
    ensures Dropped(t, i) == Sprout(s, d, i, name, IFDIR + 448) && Up(Dropped(t, i))
    ensures Exact(Dropped(t, i)) <==> Exact(t)
  {
    hide Guarded, Exact, Slots, Vacant, Splice, Dent, Look;
    CreatedInode(s, t, d, name, i);
    RecountGuarded(t, i, 0);
  }

  lemma CreatedInode(s: seq<File>, t: seq<File>, d: nat, name: Name, i: nat)
    requires Created(s, t, d, name, i, IFDIR + 448)
    ensures d != i && t[i] == File(IFDIR + 448, 1, 1, [], true) && !IsDir(0)
  {
    hide Slots, Vacant, Splice, Dent;
    LookFile(s, i, name);
  }

  lemma PlantedNow(s: seq<File>, t: seq<File>, path: seq<Byte>, p: nat, name: Name, i: nat)
    requires Guarded(s) && Where(s, path, 1) == Parent(p, name) && p < |s| && IsDir(s[p].mode) && s[p].nlink > 0 && Look(s, p, name) == 0
    requires ROOTINO <= i + 1 <= |s| && i + 1 < INUMS && s[i].mode == 0 && t == Sprout(s, p, i, name, IFDIR + 448)
    ensures Planted(s, t, path, p, name, i)
  {
    hide Guarded, Exact, Look, Where, Sprout;
    Budded(s, p, i, name, IFDIR + 448);
  }

  lemma Grown(s: seq<File>, t: seq<File>, p: nat, name: Name, i: nat)
    requires Sound(s) && Linked(t) && Budding(s, t, p, name, i, i + 1, p + 1) && Spelled(name) && s[p].nlink > 0 && ROOTINO <= i + 1
    ensures Sound(t) && Grew(s, t, p, name, i) && Live(t, i)
  {
    hide Guarded, Exact, Look, Rooted, Spelled;
    GrewSound(s, t, p, name, i);
  }

  /** With a last name, a path leads to an inode exactly when its last directory has that name, and to what it gives. */
  lemma LastOfPath(s: seq<File>, path: seq<Byte>)
    ensures Components(path, 0) == [] ==> Where(s, path, 0) == Inode(ROOTINO - 1) && Where(s, path, 2) == Missing
    ensures Components(path, 0) != [] ==> (Where(s, path, 0).Inode? <==> Where(s, path, 2).Parent?)
    ensures Where(s, path, 2).Parent? ==> Look(s, Where(s, path, 2).d, Where(s, path, 2).name) == Where(s, path, 0).i + 1
  {
    hide Look, Components;
    var c := Components(path, 0);
    ResolvedNone(s, 0);
    if c != [] {
      var front, last := c[..|c| - 1], c[|c| - 1];
      assert c == front + [last];
      ResolvedJoin(s, front, [last], 0, ROOTINO - 1);
      ResolvedJoin(s, front, [last], 2, ROOTINO - 1);
      match Resolved(s, front, 0, ROOTINO - 1) {
        case Inode(x) => OneStep(s, last, x);
        case _ =>
      }
    }
  }

  lemma OneStep(s: seq<File>, n: Name, x: nat)
    ensures Resolved(s, [n], 0, x) == if x < |s| && IsDir(s[x].mode) && Look(s, x, n) > 0 then Inode(Look(s, x, n) - 1) else Missing
    ensures Resolved(s, [n], 2, x) == if x < |s| && IsDir(s[x].mode) && Look(s, x, n) > 0 then Parent(x, n) else Missing
  {
    hide Look;
    if x < |s| {
      ResolvedStep(s, [n], 0, x, n, []);
      ResolvedStep(s, [n], 2, x, n, []);
      if Look(s, x, n) > 0 {
        ResolvedEnd(s, 0, Look(s, x, n) - 1);
      }
    }
  }

  /** The walk along c comes through directory i with names still to go. */
  ghost predicate Through(s: seq<File>, c: seq<Name>, d: int, i: nat) {
    c != [] && (d == i || (0 <= d < |s| && IsDir(s[d].mode) && Look(s, d, c[0]) > 0 && Through(s, c[1..], Look(s, d, c[0]) - 1, i)))
  }

  /** A walk that does not come through i does not depend on i's names. */
  lemma {:induction false} ResolvedAround(s: seq<File>, t: seq<File>, c: seq<Name>, d: int, i: nat)
    requires |s| == |t| && Resolved(s, c, 0, d).Inode? && !Through(s, c, d, i)
    requires forall a: int, n: Name :: a != i && Look(s, a, n) > 0 ==> Look(t, a, n) == Look(s, a, n)
    requires forall j :: 0 <= j < |s| && IsDir(s[j].mode) ==> IsDir(t[j].mode)
    ensures Resolved(t, c, 0, d) == Resolved(s, c, 0, d)
    decreases |c|
  {
    hide Look;
    if c != [] {
      NotNegative(s, c[1..], Look(s, d, c[0]) - 1);
      ResolvedAround(s, t, c[1..], Look(s, d, c[0]) - 1, i);
    }
  }

  /** A walk that comes through empty directory i, to end elsewhere, takes its ".."; without it, it ends there. */
  lemma {:induction false} Stuck(s: seq<File>, t: seq<File>, c: seq<Name>, d: int, i: nat)
    requires |s| == |t| && Resolved(s, c, 0, d).Inode? && Through(s, c, d, i) && Plain(c[|c| - 1])
    requires Look(s, i, Dot()) == i + 1 && Empty(s, i) && Look(t, i, Dot()) == i + 1 && Look(t, i, DotDot()) == 0
    requires forall a: int, n: Name :: a != i ==> Look(t, a, n) == Look(s, a, n)
    requires forall j :: 0 <= j < |s| ==> (IsDir(s[j].mode) <==> IsDir(t[j].mode))
    ensures Resolved(t, c, 0, d) == Missing
    decreases |c|
  {
    hide Look, Dot, DotDot;
    NotNegative(s, c[1..], Look(s, d, c[0]) - 1);
    DotCases(c[0]);
    if d == i && c[0] == DotDot() {
      assert Resolved(t, c[1..], 0, -1) == Missing;
    } else {
      DotsSpelled();
      var rest := c[1..];
      assert rest != [] ==> rest[|rest| - 1] == c[|c| - 1];
      Stuck(s, t, rest, Look(s, d, c[0]) - 1, i);
    }
  }

  /** What rmdir asks: an empty directory other than the root, by an ordinary name. */
  ghost predicate RmdirTarget(s: seq<File>, path: seq<Byte>) {
    var q := Where(s, path, 2);
    q.Parent? && Look(s, q.d, q.name) > ROOTINO && Live(s, Look(s, q.d, q.name) - 1) && Empty(s, Look(s, q.d, q.name) - 1) && Plain(q.name)
  }

  /** The path comes through the directory it ends in. */
  ghost predicate Loops(s: seq<File>, path: seq<Byte>)
    requires RmdirTarget(s, path)
  {
    Through(s, Components(path, 0), ROOTINO - 1, Look(s, Where(s, path, 2).d, Where(s, path, 2).name) - 1)
  }

  /**
   What rmdir promises of a volume whose directories are a tree.  A path through the directory's own ".." is the
   exception: once the ".." is unlinked the path leads nowhere, and the directory stays without it.
   */
  ghost predicate RmdirDone(s: seq<File>, t: seq<File>, path: seq<Byte>, full: bool, ok: bool) {
    if full || !RmdirTarget(s, path) then !ok && t == s
    else
      var q := Where(s, path, 2);
      var i := Look(s, q.d, q.name) - 1;
      if !Loops(s, path) then ok && Sound(t) && Pruned(s, t, q.d, q.name, i)
      else !ok && Linked(t) && !Rooted(t) && Forgot(s, t, i, DotDot())
  }

  /** The enumeration that rmdir makes, with the directory open: is there any entry besides "." and ".."? */
  method Enumerate(vol: Volume, ghost s: seq<File>, i: nat) returns (empty: bool)
    requires vol.Valid() && Up(s) && |s| == |vol.itab| && Pinned(s, i) && IsDir(s[i].mode) && vol.State() == Referenced(s, i, 1)
    modifies vol, vol.fs, vol.fs.bio, vol.itab
    ensures vol.Valid() && vol.State() == Referenced(s, i, 1)
    ensures var e := Slots(s[i].bytes);
      empty <==> forall k :: 0 <= k < |e| ==> Ignored(s, e, k)
  {
    hide Volume.Valid, Volume.State, Slots, StrDots, Guarded, Mounted, Unique, DirOk;
    ghost var e := Slots(s[i].bytes);
    ghost var s1 := vol.State();
    GuardedDir(s, i);
    ReferencedFacts(s, i, i);
    var k := 0;
    while true
      invariant vol.Valid() && vol.State() == s1 && k <= |e| && forall j :: 0 <= j < k ==> Ignored(s, e, j)
      decreases |e| - k
    {
      var end, x := ReadEntry(vol, i, k);
      if end {
        return true;
      }
      if x.ino != 0 {
        EntryNames(s, i, k);
        StillNamed(s, i, x.ino - 1);
        DropBack(s1, x.ino - 1);
        vol.Iget(x.ino - 1);
        vol.StateAt(x.ino - 1);
        var ignored := IsDir(vol.itab[x.ino - 1].mode) && StrDots(x.name);
        vol.Iput(x.ino - 1);
        if !ignored {
          assert !Ignored(s, e, k);
          return false;
        }
      }
      k := k + 1;
    }
  }

  lemma StillNamed(s: seq<File>, i: nat, j: nat)
    requires i < |s| && j < |s| && s[j].mode != 0 && s[j].nlink > 0
    ensures Pinned(Referenced(s, i, 1), j) && Referenced(s, i, 1)[j].mode == s[j].mode
  {
  }

  /** stat, and the enumeration, which needs a descriptor: a directory other than the root without further entries. */
  method IsPrunable(vol: Volume, path: seq<Byte>, full: bool) returns (yes: bool)
    requires vol.Valid() && Up(vol.State()) && 0 !in path
    modifies vol, vol.fs, vol.fs.bio, vol.itab
    ensures vol.Valid() && vol.State() == old(vol.State())
    ensures var s, r := vol.State(), Where(vol.State(), path, 0);
      yes <==> !full && r.Inode? && r.i < |s| && IsDir(s[r.i].mode) && r.i + 1 != ROOTINO
               && forall k :: 0 <= k < |Slots(s[r.i].bytes)| ==> Ignored(s, Slots(s[r.i].bytes), k)
  {
    hide Volume.Valid, Volume.State, Slots, Guarded, Mounted, Where, Ignored;
    ghost var s := vol.State();
    WhereZero(s, path);
    var r, k := Namei(vol, path, 0);
    if r.Missing? {
      return false;
    }
    DropBack(s, r.i);
    vol.StateAt(r.i);
    yes := IsDir(vol.itab[r.i].mode) && r.i + 1 != ROOTINO;
    vol.Iput(r.i);
    if yes {
      r, k := Namei(vol, path, 0);
      if full {
        yes := false;
      } else {
        yes := Enumerate(vol, s, r.i);
      }
      vol.Iput(r.i);
    }
  }

  /** rmdir's tests are about the target of its path. */
  lemma TargetIs(s: seq<File>, path: seq<Byte>)
    requires Sound(s)
    ensures var r, c := Where(s, path, 0), Components(path, 0);
      RmdirTarget(s, path) <==>
      && r.Inode? && r.i < |s| && IsDir(s[r.i].mode) && r.i + 1 != ROOTINO
      && (forall k :: 0 <= k < |Slots(s[r.i].bytes)| ==> Ignored(s, Slots(s[r.i].bytes), k))
      && c != [] && Plain(c[|c| - 1])
  {
    hide Look, Components, Where, Guarded, Exact, Rooted, Slots, Ignored, Plain, Empty;
    LastOfPath(s, path);
    var q := Where(s, path, 2);
    if q.Parent? {
      LastComponent(s, path, 2);
      var i := Look(s, q.d, q.name) - 1;
      NamedInode(s, q.d, q.name);
      if IsDir(s[i].mode) {
        EmptyEntries(s, i);
      }
    }
  }

  lemma NamedInode(s: seq<File>, d: nat, name: Name)
    requires Guarded(s) && d < |s| && IsDir(s[d].mode) && Look(s, d, name) > 0
    ensures ROOTINO <= Look(s, d, name) <= |s| && s[Look(s, d, name) - 1].mode != 0 && s[Look(s, d, name) - 1].nlink > 0
  {
    hide Look, Slots, Find, Covered;
    LookIsFind(s, d, name);
    EntryNames(s, d, Find(Slots(s[d].bytes), name));
  }

  lemma TargetReached(s: seq<File>, path: seq<Byte>)
    requires Sound(s) && RmdirTarget(s, path)
    ensures var q := Where(s, path, 2);
      var i := Look(s, q.d, q.name) - 1;
      && Reaches(s, path, q.d, q.name, i) && Look(s, q.d, q.name) == i + 1
      && Resolved(s, Components(path, 0), 0, ROOTINO - 1) == Inode(i)
  {
    hide Look, Components, Guarded, Exact, Rooted, Plain, Empty;
    LastComponent(s, path, 2);
    LastOfPath(s, path);
  }

  /** The ".." goes, without harm: the parent is named by its own "." too. */
  lemma RmdirFirst(s: seq<File>, path: seq<Byte>, p: nat, name: Name, i: nat)
    requires Sound(s) && Reaches(s, path, p, name, i) && Live(s, i) && Empty(s, i) && Plain(name) && i + 1 != ROOTINO
    ensures Removable(s, WithDots(path), true)
    ensures var s1 := RemovedBy(s, WithDots(path), true);
      Linked(s1) && Forgot(s, s1, i, DotDot()) && Look(s, i, DotDot()) == p + 1 && s[p].nlink >= 2
  {
    hide Look, Components, Where, Guarded, Exact, Rooted, Plain, Empty, Dot, DotDot, RemovedBy, Forgot;
    Prunable(s, p, name, i);
    ReachedPaths(s, path, p, name, i);
    RemovedForgets(s, WithDots(path), i, DotDot());
  }

  lemma {:induction false} ThroughMore(s: seq<File>, c: seq<Name>, last: Name, d: int, i: nat)
    requires Through(s, c, d, i)
    ensures Through(s, c + [last], d, i)
    decreases |c|
  {
    hide Look;
    assert (c + [last])[0] == c[0];
    if d != i {
      assert (c + [last])[1..] == c[1..] + [last];
      ThroughMore(s, c[1..], last, Look(s, d, c[0]) - 1, i);
    }
  }

  /** A path that does not come through i still leads to i when i has lost names of its own. */
  lemma StillReached(s: seq<File>, t: seq<File>, path: seq<Byte>, p: nat, name: Name, i: nat)
    requires Reaches(s, path, p, name, i) && !Through(s, Components(path, 0), ROOTINO - 1, i) && |s| == |t| && i != p
    requires forall a: int, n: Name :: a != i ==> Look(t, a, n) == Look(s, a, n)
    requires forall j :: 0 <= j < |s| && IsDir(s[j].mode) ==> IsDir(t[j].mode)
    ensures Reaches(t, path, p, name, i)
  {
    hide Look, Components;
    var c := Components(path, 0);
    var front := c[..|c| - 1];
    assert c == front + [name];
    if Through(s, front, ROOTINO - 1, i) {
      ThroughMore(s, front, name, ROOTINO - 1, i);
    }
    ResolvedAround(s, t, front, ROOTINO - 1, i);
  }

  /** Then "." goes, and the directory's name. */
  lemma RmdirRest(s: seq<File>, s1: seq<File>, path: seq<Byte>, p: nat, name: Name, i: nat)
    requires Sound(s) && Reaches(s, path, p, name, i) && Live(s, i) && Empty(s, i) && Plain(name) && i + 1 != ROOTINO
    requires Linked(s1) && Forgot(s, s1, i, DotDot()) && !Through(s, Components(path, 0), ROOTINO - 1, i)
    ensures Removable(s1, WithDot(path), true)
    ensures var s2 := RemovedBy(s1, WithDot(path), true);
      && Guarded(s2) && Removable(s2, path, true)
      && Sound(RemovedBy(s2, path, true)) && Pruned(s, RemovedBy(s2, path, true), p, name, i)
  {
    hide Look, Components, Where, Guarded, Exact, Rooted, Plain, Dot, DotDot, RemovedBy, Removable, Through, Called, Pruned, Empty, Resolved;
    Prunable(s, p, name, i);
    StillReached(s, s1, path, p, name, i);
    ReachedPaths(s1, path, p, name, i);
    TwoNames(s1, i, Dot(), p, name);
    RemovedForgets(s1, WithDot(path), i, Dot());
    var s2 := RemovedBy(s1, WithDot(path), true);
    StillReached(s, s2, path, p, name, i);
    ReachedPaths(s2, path, p, name, i);
    NoNamesLeft(s, s1, s2, i);
    RemovedForgets(s2, path, p, name);
    PruneDone(s, s1, s2, RemovedBy(s2, path, true), p, name, i);
  }

  lemma NoNamesLeft(s: seq<File>, s1: seq<File>, s2: seq<File>, i: nat)
    requires Empty(s, i) && Rebound(s, s1, i, DotDot(), 0) && Rebound(s1, s2, i, Dot(), 0)
    ensures forall n: Name :: Look(s2, i, n) == 0
  {
    hide Look, Dot, DotDot;
    DotsSpelled();
    assert Empty(s2, i);
    DotCasesAll(s2, i);
  }

  /** But a path that comes through the directory leads nowhere once its ".." is gone. */
  lemma RmdirStuck(s: seq<File>, s1: seq<File>, path: seq<Byte>, p: nat, name: Name, i: nat)
    requires Sound(s) && Reaches(s, path, p, name, i) && Live(s, i) && Empty(s, i) && Plain(name) && i + 1 != ROOTINO
    requires Resolved(s, Components(path, 0), 0, ROOTINO - 1) == Inode(i)
    requires Linked(s1) && Forgot(s, s1, i, DotDot()) && Through(s, Components(path, 0), ROOTINO - 1, i)
    ensures !Removable(s1, WithDot(path), true) && !Rooted(s1)
  {
    hide Look, Components, Guarded, Exact, Rooted, Plain, Dot, DotDot, Through, Called, Empty;
    Prunable(s, p, name, i);
    var c := Components(path, 0);
    Stuck(s, s1, c, ROOTINO - 1, i);
    DotComponents(path);
    ResolvedJoin(s1, c, [Dot()], 2, ROOTINO - 1);
    if Rooted(s1) {
      HomedAt(s1, i);
    }
  }

  /** v7fs_rmdir: its tests, and then the unlinks of "..", "." and the name, each by path. */
  method RmdirCall(vol: Volume, path: seq<Byte>, full: bool) returns (ok: bool)
    requires vol.Valid() && Up(vol.State()) && 0 !in path
    modifies vol, vol.fs, vol.fs.bio, vol.itab
    ensures vol.Valid() && Up(vol.State())
    ensures Sound(old(vol.State())) ==> RmdirDone(old(vol.State()), vol.State(), path, full, ok)
  {
    hide Volume.Valid, Volume.State, Guarded, Mounted, Where, Look, Exact, Rooted, Slots, Removable, RemovedBy, RmdirTarget, Plain,
         Components, Through, Pruned, Forgot, Ignored, Strands, Reaches;
    DotsNotNul(path);
    ghost var s := vol.State();
    if Sound(s) {
      TargetIs(s, path);
    }
    ok := IsPrunable(vol, path, full);
    var c := Components(path, 0);
    if !ok || c == [] || !Plain(c[|c| - 1]) {
      return false;
    }
    if Sound(s) {
      RmdirSteps(s, path);
    }
    ok := UnlinkCall(vol, WithDots(path), true);
    if ok {
      ok := UnlinkCall(vol, WithDot(path), true);
      if ok {
        ok := UnlinkCall(vol, path, true);
      }
    }
  }

  lemma RmdirSteps(s: seq<File>, path: seq<Byte>)
    requires Sound(s) && RmdirTarget(s, path)
    ensures Removable(s, WithDots(path), true)
    ensures var s1 := RemovedBy(s, WithDots(path), true);
      && Guarded(s1)
      && if Removable(s1, WithDot(path), true)
         then
           var s2 := RemovedBy(s1, WithDot(path), true);
           Guarded(s2) && Removable(s2, path, true) && RmdirDone(s, RemovedBy(s2, path, true), path, false, true)
         else RmdirDone(s, s1, path, false, false)
  {
    hide Look, Components, Where, Guarded, Exact, Rooted, Plain, Dot, DotDot, RemovedBy, Reaches, Removable, Through, Forgot, Pruned, Live, Empty;
    var q := Where(s, path, 2);
    var i := Look(s, q.d, q.name) - 1;
    TargetReached(s, path);
    RmdirFirst(s, path, q.d, q.name, i);
    var s1 := RemovedBy(s, WithDots(path), true);
    if Loops(s, path) {
      RmdirStuck(s, s1, path, q.d, q.name, i);
    } else {
      RmdirRest(s, s1, path, q.d, q.name, i);
    }
  }
}
