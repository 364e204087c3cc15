/** What names lead to, and the tree the directories form: how entering and removing names changes it. */
module Hierarchy {
  import opened Blocks
  import opened BlockMap
  import opened ByteFiles
  import opened Volumes
  import opened Directories
  import opened Links

  /** The inode number that directory d (inode number d + 1) gives to name n, or 0. */
  ghost function Look(s: seq<File>, d: int, n: Name): nat {
    if 0 <= d < |s| && IsDir(s[d].mode) && n in DirMap(Slots(s[d].bytes)) then DirMap(Slots(s[d].bytes))[n] else 0
  }

  /** Look is what namei's search finds. */
  lemma LookIsFind(s: seq<File>, d: nat, n: Name)
    requires d < |s| && IsDir(s[d].mode)
    ensures var e := Slots(s[d].bytes);
      Look(s, d, n) == if Find(e, n) < |e| then e[Find(e, n)].ino else 0
    ensures Look(s, d, n) == 0 <==> Find(Slots(s[d].bytes), n) == |Slots(s[d].bytes)|
  {
    hide Slots, Find, DirMap;
    MapIsFind(Slots(s[d].bytes), n);
  }

  /** A live entry is what its name looks up. */
  lemma LookEntry(s: seq<File>, d: nat, k: nat)
    requires d < |s| && IsDir(s[d].mode) && DirOk(s[d]) && k < |Slots(s[d].bytes)| && Slots(s[d].bytes)[k].ino != 0
    ensures Look(s, d, Slots(s[d].bytes)[k].name) == Slots(s[d].bytes)[k].ino
  {
    hide Slots, Find, DirMap, Look;
    var e := Slots(s[d].bytes);
    FindUnique(e, e[k].name, k);
    LookIsFind(s, d, e[k].name);
  }

  ghost predicate Called(s: seq<File>, x: nat) {
    exists d: nat, n: Name :: d < |s| && Look(s, d, n) == x
  }

  lemma {:induction false} RefsNone(s: seq<File>, x: nat, n: nat)
    requires n <= |s| && x > 0 && !Called(s, x) && forall d :: 0 <= d < |s| ==> DirOk(s[d])
    ensures Refs(s, x, n) == 0
  {
    hide Slots, DirMap, DirOk, Look, CountIn;
    if n > 0 {
      RefsNone(s, x, n - 1);
      if IsDir(s[n - 1].mode) {
        var e := Slots(s[n - 1].bytes);
        forall k | 0 <= k < |e|
          ensures e[k].ino != x
        {
          if e[k].ino == x {
            LookEntry(s, n - 1, k);
          }
        }
        CountNone(e, x);
      } else {
        CountNone([], x);
      }
    }
  }

  lemma {:induction false} CountNone(e: seq<Slot>, x: nat)
    requires forall k :: 0 <= k < |e| ==> e[k].ino != x
    ensures CountIn(e, x) == 0
  {
    if e != [] {
      CountNone(e[..|e| - 1], x);
    }
  }

  /** With exact counts, an inode has links exactly when some name leads to it. */
  lemma LinksMeanNames(s: seq<File>, i: nat)
    requires Exact(s) && (forall d :: 0 <= d < |s| ==> DirOk(s[d])) && i < |s| && s[i].mode != 0
    ensures s[i].nlink >= 0 && (s[i].nlink > 0 <==> Called(s, i + 1))
  {
    hide Slots, DirMap, DirOk, Look, CountIn, Find;
    if Called(s, i + 1) {
      var d: nat, n: Name :| d < |s| && Look(s, d, n) == i + 1;
      NamedCounts(s, d, n);
    } else {
      RefsNone(s, i + 1, |s|);
    }
  }

  lemma NamedCounts(s: seq<File>, d: nat, n: Name)
    requires d < |s| && Look(s, d, n) > 0
    ensures IsDir(s[d].mode) && Refs(s, Look(s, d, n), |s|) > 0
  {
    hide Slots, DirMap, CountIn, Find;
    assert IsDir(s[d].mode);
    LookIsFind(s, d, n);
    var e := Slots(s[d].bytes);
    CountSome(e, Find(e, n));
    RefsAtLeast(s, Look(s, d, n), |s|, d);
  }

  /** Only the binding of name in directory d differs: it is now ino. */
  ghost predicate Rebound(s: seq<File>, t: seq<File>, d: nat, name: Name, ino: nat) {
    && |s| == |t|
    && forall a: int, n: Name :: Look(t, a, n) == if a == d && n == name then ino else Look(s, a, n)
  }

  /** The inodes keep their modes and references, and all but i their links. */
  ghost predicate SameInodes(s: seq<File>, t: seq<File>, i: int) {
    && |s| == |t|
    && forall j :: 0 <= j < |s| && j != i ==> t[j].mode == s[j].mode && t[j].nlink == s[j].nlink && t[j].count == s[j].count
  }

  /** A change of one directory's map. */
  lemma LookUpdate(s: seq<File>, t: seq<File>, d: nat, name: Name, ino: nat)
    requires |s| == |t| && d < |s| && IsDir(s[d].mode) && IsDir(t[d].mode)
    requires forall j :: 0 <= j < |s| && j != d ==> EntriesOf(t[j]) == EntriesOf(s[j])
    requires var m, m' := DirMap(Slots(s[d].bytes)), DirMap(Slots(t[d].bytes)); if ino == 0 then m' == m - {name} else m' == m[name := ino]
    ensures Rebound(s, t, d, name, ino)
  {
    hide Slots, Find, DirMap;
    forall a: int, n: Name
      ensures Look(t, a, n) == if a == d && n == name then ino else Look(s, a, n)
    {
      if 0 <= a < |s| && a != d {
        LookEntries(s, a, n);
        LookEntries(t, a, n);
      }
    }
  }

  lemma LookEntries(s: seq<File>, d: nat, n: Name)
    requires d < |s|
    ensures Look(s, d, n) == var e := EntriesOf(s[d]); if n in DirMap(e) then DirMap(e)[n] else 0
  {
    hide Slots, Find;
    if !IsDir(s[d].mode) {
      assert NamesIn([]) == {};
    }
  }

  lemma LookSame(s: seq<File>, t: seq<File>, a: int, n: Name)
    requires |s| == |t| && forall j :: 0 <= j < |s| ==> EntriesOf(t[j]) == EntriesOf(s[j])
    ensures Look(t, a, n) == Look(s, a, n)
  {
    hide Slots, Find, DirMap;
    if 0 <= a < |s| {
      LookEntries(s, a, n);
      LookEntries(t, a, n);
    }
  }

  /** Unlinking, before the inode is dropped: one binding less, and links are left exactly if another name leads to the inode. */
  lemma Forgetting(s: seq<File>, d: nat, k: nat)
    requires Linked(s) && d < |s| && IsDir(s[d].mode) && k < |Slots(s[d].bytes)| && Slots(s[d].bytes)[k].ino != 0
    ensures var e := Slots(s[d].bytes)[k];
      var i := e.ino - 1;
      && Look(s, d, e.name) == e.ino && ROOTINO <= e.ino <= |s| && s[i].mode != 0
      && var u := AddLinks(Entered(s, d, k, 0, e.name), i, -1);
      && Rebound(s, u, d, e.name, 0) && (s[i].nlink > 1 <==> Called(u, i + 1)) && s[i].nlink >= 1
  {
    hide Slots, Find, DirMap, Look, Splice, Dent, Exact, Unique, Called;
    var e := Slots(s[d].bytes)[k];
    var i := e.ino - 1;
    EntryNames(s, d, k);
    LookEntry(s, d, k);
    Unlinking(s, d, k);
    var u := AddLinks(Entered(s, d, k, 0, e.name), i, -1);
    LookUpdate(s, u, d, e.name, 0);
    LinksMeanNames(u, i);
  }

  /** unlink of a name: the binding goes; the inode stays if another name leads to it or it is open. */
  ghost predicate Forgot(s: seq<File>, t: seq<File>, d: nat, name: Name) {
    && Rebound(s, t, d, name, 0)
    && var i := Look(s, d, name) - 1;
    && 0 <= i < |s| && SameInodes(s, t, i)
    && t[i].nlink == s[i].nlink - 1 && t[i].count == s[i].count
    && t[i].mode == (if s[i].nlink == 1 && s[i].count == 0 then 0 else s[i].mode)
    && (s[i].nlink > 1 <==> Called(t, i + 1))
    && (forall j :: 0 <= j < |s| && j != d && j != i ==> t[j] == s[j])
  }

  lemma BareLooks(s: seq<File>, d: nat)
    requires d < |s| && DirOk(s[d])
    ensures Bare(s[d]) <==> forall n: Name :: Look(s, d, n) == 0
    ensures Bare(s[d]) && IsDir(s[d].mode) ==> DirMap(Slots(s[d].bytes)) == map[]
  {
    hide Slots, Find, DirMap, Look;
    if IsDir(s[d].mode) {
      var e := Slots(s[d].bytes);
      forall k | 0 <= k < |e| && e[k].ino != 0
        ensures Look(s, d, e[k].name) != 0
      {
        LookEntry(s, d, k);
      }
      forall n: Name
        ensures n in DirMap(e) || Look(s, d, n) != 0 ==> !Bare(s[d])
      {
        LookIsFind(s, d, n);
        MapIsFind(e, n);
      }
    } else {
      forall n: Name
        ensures Look(s, d, n) == 0
      {
        LookFile(s, d, n);
      }
    }
  }

  lemma LookFile(s: seq<File>, d: nat, n: Name)
    requires d < |s| && !IsDir(s[d].mode)
    ensures Look(s, d, n) == 0
  {
  }

  /** unlink keeps the counts when the inode it may release is no directory, or one without other entries. */
  lemma Unlinkable(s: seq<File>, d: nat, k: nat)
    requires Linked(s) && d < |s| && IsDir(s[d].mode) && k < |Slots(s[d].bytes)| && Slots(s[d].bytes)[k].ino != 0
    requires Orphaned(s, d, k) ==> Emptied(s, d, k)
    ensures Linked(Unlinked(s, d, k)) && Forgot(s, Unlinked(s, d, k), d, Slots(s[d].bytes)[k].name)
  {
    hide Slots, Find, DirMap, Look, Splice, Dent, Exact, Unique, Called, Guarded, Rebound;
    UnlinkExact(s, d, k);
    Forgetting(s, d, k);
    var e := Slots(s[d].bytes)[k];
    var i := e.ino - 1;
    var u := AddLinks(Entered(s, d, k, 0, e.name), i, -1);
    var t := Unlinked(s, d, k);
    EnteredFacts(s, d, k, 0, e.name);
    GuardedDir(s, i);
    if Orphaned(s, d, k) {
      UnlinkBare(s, d, k);
    }
  }

  lemma UnlinkBare(s: seq<File>, d: nat, k: nat)
    requires Linked(s) && d < |s| && IsDir(s[d].mode) && k < |Slots(s[d].bytes)| && Slots(s[d].bytes)[k].ino != 0
    requires Orphaned(s, d, k) && Emptied(s, d, k)
    ensures var e := Slots(s[d].bytes)[k];
      Rebound(s, Unlinked(s, d, k), d, e.name, 0) && !Called(Unlinked(s, d, k), e.ino)
  {
    hide Slots, Find, DirMap, Look, Splice, Dent, Exact, Unique, Called;
    Forgetting(s, d, k);
    Unlinking(s, d, k);
    var e := Slots(s[d].bytes)[k];
    var i := e.ino - 1;
    var u := AddLinks(Entered(s, d, k, 0, e.name), i, -1);
    var t := Unlinked(s, d, k);
    assert Bare(u[i]);
    BareLooks(u, i);
    forall a: int, n: Name
      ensures Look(t, a, n) == Look(u, a, n)
    {
      LookElse(u, i, File(0, 0, 0, [], true), a, n);
    }
    CalledLook(u, t, e.ino);
  }

  lemma CalledLook(s: seq<File>, t: seq<File>, x: nat)
    requires |s| == |t| && forall a: int, n: Name :: Look(t, a, n) == Look(s, a, n)
    ensures Called(t, x) <==> Called(s, x)
  {
    hide Look;
  }

  lemma LookElse(s: seq<File>, i: nat, f: File, a: int, n: Name)
    requires i < |s| && !IsDir(f.mode)
    ensures Look(s[i := f], a, n) == if a == i then 0 else Look(s, a, n)
  {
    hide Slots, DirMap;
  }

  /** A directory in use. */
  ghost predicate Live(s: seq<File>, d: int) {
    0 <= d < |s| && IsDir(s[d].mode) && s[d].nlink > 0
  }

  predicate Plain(n: Name) {
    n != Dot() && n != DotDot()
  }

  /** A name as namei gathers it: zero-padded, not empty, without a slash. */
  predicate Spelled(n: Name) {
    (forall i, j :: 0 <= i < j < 14 && n[i] == 0 ==> n[j] == 0) && n[0] != 0 && SLASH !in n
  }

  /** d's "." leads to d, and its ".." to a directory that has a name for d; the root is its own parent. */
  ghost predicate Homed(s: seq<File>, d: nat) {
    && Look(s, d, Dot()) == d + 1 && Look(s, d, DotDot()) > 0
    && if d + 1 == ROOTINO then Look(s, d, DotDot()) == ROOTINO
       else exists n: Name :: Plain(n) && Look(s, Look(s, d, DotDot()) - 1, n) == d + 1
  }

  /** What a directory calls by an ordinary name, if it is a directory, has it as parent and no second name. */
  ghost predicate Child(s: seq<File>, a: nat, n: Name) {
    var c := Look(s, a, n);
    Live(s, c - 1) ==> c != ROOTINO && Look(s, c - 1, DotDot()) == a + 1 && forall m: Name :: Plain(m) && Look(s, a, m) == c ==> m == n
  }

  /** From d, n steps by ".." at most lead to the root, through directories in use. */
  ghost predicate ClimbsIn(s: seq<File>, d: int, n: nat)
    decreases n
  {
    d == ROOTINO - 1 || (n > 0 && Live(s, d) && ClimbsIn(s, Look(s, d, DotDot()) - 1, n - 1))
  }

  ghost predicate Climbs(s: seq<File>, d: int) {
    exists n: nat :: ClimbsIn(s, d, n)
  }

  /** The directories form a tree under the root: ".." leads up to it from each of them, and each has one name in its parent. */
  ghost predicate Rooted(s: seq<File>) {
    && Live(s, ROOTINO - 1)
    && (forall d: nat, n: Name :: Look(s, d, n) > 0 ==> Live(s, d) && Spelled(n))
    && (forall d: nat :: Live(s, d) ==> Homed(s, d) && Climbs(s, d))
    && (forall a: nat, n: Name :: Plain(n) && Look(s, a, n) > 0 ==> Child(s, a, n))
  }

  lemma RootedAt(s: seq<File>, d: nat, n: Name)
    requires Rooted(s)
    ensures Live(s, d) ==> Homed(s, d) && Climbs(s, d)
    ensures Plain(n) && Look(s, d, n) > 0 ==> Child(s, d, n)
    ensures Look(s, d, n) > 0 ==> Live(s, d) && Spelled(n)
    ensures Live(s, ROOTINO - 1)
  {
    hide Look, Live, Plain, Spelled, Child, Homed, Climbs;
  }

  /** Everything Rooted says about directory d and name n. */
  ghost predicate Fine(s: seq<File>, d: nat, n: Name) {
    && (Live(s, d) ==> Homed(s, d) && Climbs(s, d))
    && (Plain(n) && Look(s, d, n) > 0 ==> Child(s, d, n))
    && (Look(s, d, n) > 0 ==> Live(s, d) && Spelled(n))
  }

  lemma AllFine(s: seq<File>)
    requires Live(s, ROOTINO - 1) && forall d: nat, n: Name :: Fine(s, d, n)
    ensures Rooted(s)
  {
    hide Look, Live, Plain, Spelled, Child, Homed, Dot, Climbs;
    forall d: nat | Live(s, d)
      ensures Homed(s, d) && Climbs(s, d)
    {
      assert Fine(s, d, Dot());
    }
    forall d: nat, n: Name | Look(s, d, n) > 0
      ensures Live(s, d) && Spelled(n) && (Plain(n) ==> Child(s, d, n))
    {
      assert Fine(s, d, n);
    }
  }

  lemma HomedAt(s: seq<File>, d: nat)
    requires Rooted(s) && Live(s, d)
    ensures Look(s, d, Dot()) == d + 1 && Look(s, d, DotDot()) > 0 && Live(s, Look(s, d, DotDot()) - 1)
    ensures d + 1 == ROOTINO ==> Look(s, d, DotDot()) == ROOTINO
  {
    hide Look, Live, Dot, DotDot, Rooted, Plain, Spelled, Child;
    RootedAt(s, d, Dot());
    if d + 1 != ROOTINO {
      var n: Name :| Plain(n) && Look(s, Look(s, d, DotDot()) - 1, n) == d + 1;
      RootedAt(s, Look(s, d, DotDot()) - 1, n);
    }
  }

  lemma Homes(s: seq<File>)
    requires Rooted(s)
    ensures forall a: int :: Live(s, a) ==> a >= 0 && Look(s, a, Dot()) == a + 1 && Look(s, a, DotDot()) > 0 && Live(s, Look(s, a, DotDot()) - 1)
  {
    hide Look, Dot, DotDot, Rooted;
    forall a: int | Live(s, a)
      ensures Look(s, a, Dot()) == a + 1 && Look(s, a, DotDot()) > 0 && Live(s, Look(s, a, DotDot()) - 1)
    {
      HomedAt(s, a);
    }
  }

  lemma HomedStep(s: seq<File>, t: seq<File>, d: nat)
    requires Homed(s, d) && Look(t, d, Dot()) == Look(s, d, Dot()) && Look(t, d, DotDot()) == Look(s, d, DotDot())
    requires forall n: Name :: Look(s, Look(s, d, DotDot()) - 1, n) == d + 1 && Plain(n) ==> Look(t, Look(s, d, DotDot()) - 1, n) == d + 1
    ensures Homed(t, d)
  {
    hide Look, Dot, DotDot, Plain;
  }

  lemma ChildStep(s: seq<File>, t: seq<File>, a: nat, n: Name)
    requires Child(s, a, n) && Look(t, a, n) == Look(s, a, n)
    requires Live(t, Look(s, a, n) - 1) ==> Live(s, Look(s, a, n) - 1) && Look(t, Look(s, a, n) - 1, DotDot()) == Look(s, Look(s, a, n) - 1, DotDot())
    requires Live(t, Look(s, a, n) - 1) ==> forall m: Name :: Look(t, a, m) == Look(s, a, n) ==> Look(s, a, m) == Look(s, a, n)
    ensures Child(t, a, n)
  {
    hide Look, Dot, DotDot, Plain, Live;
  }

  /** Directories that stay in use with the same ".." climb as before; avoid is one that nobody climbs through. */
  lemma {:induction false} ClimbsKept(s: seq<File>, t: seq<File>, d: int, n: nat, avoid: int)
    requires ClimbsIn(s, d, n) && d != avoid && avoid != ROOTINO - 1
    requires forall a: int :: Live(s, a) && a != avoid && a != ROOTINO - 1 ==>
      Live(t, a) && Look(t, a, DotDot()) == Look(s, a, DotDot()) && Look(s, a, DotDot()) - 1 != avoid
    ensures ClimbsIn(t, d, n)
    decreases n
  {
    hide Look, Live, DotDot;
    if d != ROOTINO - 1 {
      ClimbsKept(s, t, Look(s, d, DotDot()) - 1, n - 1, avoid);
    }
  }

  lemma StillClimbs(s: seq<File>, t: seq<File>, avoid: int)
    requires avoid != ROOTINO - 1
    requires forall a: int :: Live(s, a) && a != avoid && a != ROOTINO - 1 ==>
      Live(t, a) && Look(t, a, DotDot()) == Look(s, a, DotDot()) && Look(s, a, DotDot()) - 1 != avoid
    ensures forall d: int :: Climbs(s, d) && d != avoid ==> Climbs(t, d)
  {
    hide Look, Live, DotDot;
    forall d: int | Climbs(s, d) && d != avoid
      ensures Climbs(t, d)
    {
      var n: nat :| ClimbsIn(s, d, n);
      ClimbsKept(s, t, d, n, avoid);
    }
  }

  lemma ClimbsMore(s: seq<File>, d: nat)
    requires Live(s, d) && Climbs(s, Look(s, d, DotDot()) - 1)
    ensures Climbs(s, d)
  {
    hide Look, Live, DotDot;
    var n: nat :| ClimbsIn(s, Look(s, d, DotDot()) - 1, n);
    assert ClimbsIn(s, d, n + 1);
  }

  lemma NotPlain(s: seq<File>, d: nat, name: Name)
    requires Rooted(s) && Live(s, d) && Look(s, d, name) == 0
    ensures Plain(name) && name != Dot() && name != DotDot()
  {
    hide Look, Dot, DotDot, Live, Rooted;
    HomedAt(s, d);
  }

  /** Naming a file that is no directory. */
  lemma RootedBind(s: seq<File>, t: seq<File>, d: nat, name: Name, i: nat)
    requires Rooted(s) && Rebound(s, t, d, name, i + 1) && Live(s, d) && Look(s, d, name) == 0 && Spelled(name)
    requires !Live(s, i) && forall j: int :: Live(t, j) <==> Live(s, j)
    ensures Rooted(t)
  {
    hide Look, Live, Dot, DotDot, Homed, Child, Spelled, Rooted, Plain, Climbs;
    NotPlain(s, d, name);
    RootedAt(s, d, name);
    Homes(s);
    StillClimbs(s, t, -1);
    forall a: nat, n: Name
      ensures Fine(t, a, n)
    {
      RootedAt(s, a, n);
      if Live(t, a) {
        HomedAt(s, a);
        HomedStep(s, t, a);
      }
      if Plain(n) && Look(t, a, n) > 0 {
        if Look(s, a, n) > 0 {
          ChildStep(s, t, a, n);
        } else {
          NoChild(t, a, n);
        }
      }
    }
    AllFine(t);
  }

  lemma NoChild(s: seq<File>, a: nat, n: Name)
    requires !Live(s, Look(s, a, n) - 1)
    ensures Child(s, a, n)
  {
  }

  /** A name of a file that is no directory goes. */
  lemma RootedForget(s: seq<File>, t: seq<File>, d: nat, name: Name)
    requires Rooted(s) && Rebound(s, t, d, name, 0) && !Live(s, Look(s, d, name) - 1)
    requires forall j: int :: Live(t, j) <==> Live(s, j)
    ensures Rooted(t)
  {
    hide Look, Live, Dot, DotDot, Homed, Child, Spelled, Rooted, Plain, Climbs;
    RootedAt(s, d, name);
    Homes(s);
    StillClimbs(s, t, -1);
    forall a: nat, n: Name
      ensures Fine(t, a, n)
    {
      RootedAt(s, a, n);
      if Live(t, a) {
        HomedAt(s, a);
        HomedStep(s, t, a);
      }
      if Plain(n) && Look(t, a, n) > 0 {
        if Live(s, Look(s, a, n) - 1) {
          HomedAt(s, Look(s, a, n) - 1);
        }
        ChildStep(s, t, a, n);
      }
    }
    AllFine(t);
  }

  /** The names of s with a directory i under p: its name, "." and "..". */
  ghost function Bud(s: seq<File>, p: nat, name: Name, i: nat, dot: nat, dotdot: nat, a: int, n: Name): nat {
    if a == p && n == name then i + 1
    else if a == i && n == Dot() then dot
    else if a == i && n == DotDot() then dotdot
    else Look(s, a, n)
  }

  /** t has a directory i under p that s has not. */
  ghost predicate Sprouted(s: seq<File>, t: seq<File>, p: nat, name: Name, i: nat) {
    forall a: int, n: Name :: Look(t, a, n) == Bud(s, p, name, i, i + 1, p + 1, a, n)
  }

  lemma DotsSpelled()
    ensures Spelled(Dot()) && Spelled(DotDot()) && Dot() != DotDot() && !Plain(Dot()) && !Plain(DotDot())
  {
  }

  lemma NewHome(t: seq<File>, i: nat, p: nat, name: Name)
    requires Look(t, i, Dot()) == i + 1 && Look(t, i, DotDot()) == p + 1 && Look(t, p, name) == i + 1 && Plain(name) && i + 1 != ROOTINO
    ensures Homed(t, i)
  {
    hide Look, Dot, DotDot, Plain;
  }

  lemma NewChild(t: seq<File>, i: nat, p: nat, name: Name)
    requires Look(t, i, DotDot()) == p + 1 && Look(t, p, name) == i + 1 && i + 1 != ROOTINO
    requires forall m: Name :: Look(t, p, m) == i + 1 && Plain(m) ==> m == name
    ensures Child(t, p, name)
  {
    hide Look, Dot, DotDot, Plain;
  }

  /** mkdir grows the tree by a directory. */
  lemma RootedSprout(s: seq<File>, t: seq<File>, p: nat, name: Name, i: nat)
    requires Rooted(s) && Sprouted(s, t, p, name, i) && Live(s, p) && Look(s, p, name) == 0 && Spelled(name)
    requires !Live(s, i) && !Called(s, i + 1) && forall j: int :: Live(t, j) <==> Live(s, j) || j == i
    ensures Rooted(t)
  {
    hide Look, Live, Dot, DotDot, Homed, Child, Spelled, Rooted, Plain, Climbs, Called;
    NotPlain(s, p, name);
    DotsSpelled();
    RootedAt(s, p, name);
    Homes(s);
    Uncalled(s, i);
    StillClimbs(s, t, -1);
    forall a: nat, n: Name
      ensures Fine(t, a, n)
    {
      RootedAt(s, a, n);
      if a == i {
        NewHome(t, i, p, name);
        RootedAt(s, p, name);
        ClimbsMore(t, i);
      } else if Live(t, a) {
        HomedAt(s, a);
        HomedStep(s, t, a);
      }
      if Plain(n) && Look(t, a, n) > 0 {
        if a == p && n == name {
          NewChild(t, i, p, name);
        } else {
          ChildStep(s, t, a, n);
        }
      }
    }
    AllFine(t);
  }

  lemma Uncalled(s: seq<File>, i: nat)
    requires !Called(s, i + 1)
    ensures forall a: int, n: Name :: Look(s, a, n) != i + 1
  {
    hide DirMap, Slots;
  }

  /** rmdir takes a directory without further entries out of the tree. */
  lemma RootedPrune(s: seq<File>, t: seq<File>, p: nat, name: Name, i: nat)
    requires Rooted(s) && Sprouted(t, s, p, name, i) && Live(s, p) && Live(s, i) && Plain(name) && i + 1 != ROOTINO && i != p
    requires forall n: Name :: Look(t, i, n) == 0
    requires Look(t, p, name) == 0
    requires forall j: int :: Live(t, j) <==> Live(s, j) && j != i
    ensures Rooted(t)
  {
    hide Look, Live, Dot, DotDot, Homed, Child, Spelled, Rooted, Plain, Climbs;
    DotsSpelled();
    RootedAt(s, p, name);
    Homes(s);
    forall a: int | Live(s, a) && a != i && a != ROOTINO - 1
      ensures Look(t, a, DotDot()) == Look(s, a, DotDot()) && Look(s, a, DotDot()) - 1 != i
    {
      ParentKeeps(s, a);
    }
    StillClimbs(s, t, i);
    forall a: nat, n: Name
      ensures Fine(t, a, n)
    {
      RootedAt(s, a, n);
      if Live(t, a) {
        HomedAt(s, a);
        if a + 1 != ROOTINO {
          ParentKeeps(s, a);
        }
        HomedStep(s, t, a);
      }
      if Plain(n) && Look(t, a, n) > 0 {
        ChildStep(s, t, a, n);
      }
    }
    AllFine(t);
  }

  lemma ParentKeeps(s: seq<File>, d: nat)
    requires Rooted(s) && Live(s, d) && d + 1 != ROOTINO
    ensures exists n: Name :: Plain(n) && Look(s, Look(s, d, DotDot()) - 1, n) == d + 1
  {
    hide Look, Live, Dot, DotDot, Spelled, Plain, Child, Rooted;
    RootedAt(s, d, Dot());
  }

  /** Names, directories in use and inodes in use are the same. */
  ghost predicate SameTree(s: seq<File>, t: seq<File>) {
    && |s| == |t|
    && (forall a: int, n: Name :: Look(t, a, n) == Look(s, a, n))
    && (forall j :: 0 <= j < |s| ==> t[j].mode == s[j].mode && (s[j].mode != 0 ==> t[j].nlink == s[j].nlink && t[j].count == s[j].count))
  }

  lemma RootedSame(s: seq<File>, t: seq<File>)
    requires Rooted(s) && |s| == |t| && (forall a: int, n: Name :: Look(t, a, n) == Look(s, a, n)) && forall j: int :: Live(t, j) <==> Live(s, j)
    ensures Rooted(t)
  {
    hide Look, Live, Dot, DotDot, Homed, Child, Spelled, Rooted, Plain, Climbs;
    RootedAt(s, 0, Dot());
    Homes(s);
    StillClimbs(s, t, -1);
    forall a: nat, n: Name
      ensures Fine(t, a, n)
    {
      RootedAt(s, a, n);
      if Live(t, a) {
        HomedStep(s, t, a);
      }
      if Plain(n) && Look(t, a, n) > 0 {
        ChildStep(s, t, a, n);
      }
    }
    AllFine(t);
  }

  /** link's effect on names and inodes. */
  lemma LinkedLooks(s: seq<File>, d: nat, i: nat, name: Name)
    requires Guarded(s) && d < |s| && ROOTINO <= i + 1 <= |s| && IsDir(s[d].mode) && s[i].mode != 0 && s[i].nlink < MAXLINKS
    requires Look(s, d, name) == 0
    ensures i + 1 < INUMS
    ensures var t := Bound(s, d, Vacant(Slots(s[d].bytes)), i, name);
      && Rebound(s, t, d, name, i + 1) && SameInodes(s, t, i) && t[i].nlink == s[i].nlink + 1 && t[i].count == s[i].count && t[i].mode == s[i].mode
      && forall j :: 0 <= j < |s| && j != d && j != i ==> t[j] == s[j]
  {
    hide Slots, Find, DirMap, Look, Splice, Dent, Exact, Unique, Guarded, Vacant;
    LookIsFind(s, d, name);
    GuardedDir(s, d);
    GuardedDir(s, i);
    BoundIs(s, d, Vacant(Slots(s[d].bytes)), i, name);
    var k := Vacant(Slots(s[d].bytes));
    Linking(s, d, k, i, name);
    var t := AddLinks(Entered(s, d, k, i + 1, name), i, 1);
    EnteredFacts(s, d, k, i + 1, name);
    LookUpdate(s, t, d, name, i + 1);
  }

  /** maknode's effect on names and inodes. */
  lemma MadeLooks(s: seq<File>, d: nat, i: nat, name: Name, mode: nat)
    requires Guarded(s) && d < |s| && IsDir(s[d].mode) && ROOTINO <= i + 1 <= |s| && i + 1 < INUMS && s[i].mode == 0 && mode != 0
    requires Look(s, d, name) == 0
    ensures var t := Made(s, d, Vacant(Slots(s[d].bytes)), i, name, mode);
      && Rebound(s, t, d, name, i + 1) && SameInodes(s, t, i) && t[i] == File(mode, 1, 1, [], true) && i != d
      && forall j :: 0 <= j < |s| && j != d && j != i ==> t[j] == s[j]
  {
    hide Slots, Find, DirMap, Look, Splice, Dent, Exact, Unique, Vacant;
    LookIsFind(s, d, name);
    var k := Vacant(Slots(s[d].bytes));
    MadeGuarded(s, d, i, name, mode);
    NewInode(s, i, File(mode, 0, 1, [], true));
    var t := Made(s, d, k, i, name, mode);
    var s1 := s[i := File(mode, 1, 1, [], true)];
    EnteredFacts(s1, d, k, i + 1, name);
    assert EntriesOf(t[i]) == [] && EntriesOf(s[i]) == [];
    LookUpdate(s, t, d, name, i + 1);
  }

  /** A free inode has no name and, as a directory, no entries. */
  lemma FreeLooks(s: seq<File>, i: nat)
    requires Guarded(s) && ROOTINO <= i + 1 <= |s| && s[i].mode == 0
    ensures !Called(s, i + 1) && forall n: Name :: Look(s, i, n) == 0
  {
    hide Slots, Find, DirMap, CountIn, Refs;
    NewInode(s, i, File(0, 0, 0, [], true));
    if Called(s, i + 1) {
      var d: nat, n: Name :| d < |s| && Look(s, d, n) == i + 1;
      NamedCounts(s, d, n);
    }
  }

  /** unlink of name in d cannot release a directory with other entries. */
  ghost predicate Harmless(s: seq<File>, d: nat, name: Name) {
    var i := Look(s, d, name) - 1;
    0 <= i < |s| && s[i].nlink == 1 && s[i].count == 0 ==> forall n: Name :: Look(s, i, n) != 0 ==> i == d && n == name
  }

  lemma HarmlessEmptied(s: seq<File>, d: nat, k: nat)
    requires Linked(s) && d < |s| && IsDir(s[d].mode) && k < |Slots(s[d].bytes)| && Slots(s[d].bytes)[k].ino != 0
    requires Harmless(s, d, Slots(s[d].bytes)[k].name)
    ensures Orphaned(s, d, k) ==> Emptied(s, d, k)
  {
    hide Slots, Find, DirMap, Look, Splice, Dent, Exact, Unique, Guarded, Called;
    Forgetting(s, d, k);
    Unlinking(s, d, k);
    var e := Slots(s[d].bytes)[k];
    var i := e.ino - 1;
    var u := AddLinks(Entered(s, d, k, 0, e.name), i, -1);
    BareLooks(u, i);
    EnteredFacts(s, d, k, 0, e.name);
  }

  /** What links and names look like between calls. */
  ghost predicate Sound(s: seq<File>) {
    Linked(s) && Rooted(s)
  }

  lemma SameSound(s: seq<File>, t: seq<File>)
    requires Sound(s) && Linked(t) && SameTree(s, t)
    ensures Sound(t)
  {
    hide Look, Guarded, Exact, Rooted;
    RootedSame(s, t);
  }

  lemma ClearedFree(s: seq<File>, i: nat)
    requires i < |s| && s[i].mode == 0
    ensures SameTree(s, s[i := File(0, 0, 0, [], true)])
  {
    hide Slots, DirMap, Exact;
    forall a: int, n: Name
      ensures Look(s[i := File(0, 0, 0, [], true)], a, n) == Look(s, a, n)
    {
      LookElse(s, i, File(0, 0, 0, [], true), a, n);
    }
  }

  /** After maknode and the links made so far, a mkdir in progress: directory i has only the dots it was given. */
  ghost predicate Budding(s: seq<File>, t: seq<File>, p: nat, name: Name, i: nat, dot: nat, dotdot: nat) {
    && |s| == |t| && i < |s| && p < |s| && i != p && s[i].mode == 0 && IsDir(t[i].mode) && IsDir(t[p].mode)
    && SameInodes(s[p := s[p].(nlink := t[p].nlink)], t, i) && t[i].count == 0
    && t[i].nlink == 1 + (if dot == 0 then 0 else 1) && t[p].nlink == s[p].nlink + (if dotdot == 0 then 0 else 1)
    && (forall a: int, n: Name :: Look(t, a, n) == Bud(s, p, name, i, dot, dotdot, a, n))
    && Look(s, p, name) == 0 && (forall n: Name :: Look(s, i, n) == 0)
  }

  /** A new directory, when maknode's caller has dropped it. */
  ghost function Sprout(s: seq<File>, p: nat, i: nat, name: Name, mode: nat): (t: seq<File>)
    requires p < |s| && i < |s| && i + 1 < INUMS
    ensures |t| == |s|
  {
    var t := Made(s, p, Vacant(Slots(s[p].bytes)), i, name, mode);
    t[i := t[i].(count := 0)]
  }

  lemma Budded(s: seq<File>, p: nat, i: nat, name: Name, mode: nat)
    requires Guarded(s) && p < |s| && IsDir(s[p].mode) && ROOTINO <= i + 1 <= |s| && i + 1 < INUMS && s[i].mode == 0 && IsDir(mode) && Look(s, p, name) == 0
    ensures var t := Sprout(s, p, i, name, mode);
      Guarded(t) && (Exact(t) <==> Exact(s)) && Budding(s, t, p, name, i, 0, 0) && t[i].bytes == []
  {
    hide Guarded, Exact, Look, Dot, DotDot, Called, Slots, Vacant, Made, Find, DirMap;
    var u, t := Made(s, p, Vacant(Slots(s[p].bytes)), i, name, mode), Sprout(s, p, i, name, mode);
    LookIsFind(s, p, name);
    MadeLooks(s, p, i, name, mode);
    MadeGuarded(s, p, i, name, mode);
    FreeLooks(s, i);
    RecountGuarded(u, i, 0);
    forall a: int, n: Name
      ensures Look(t, a, n) == Look(u, a, n)
    {
      LookSame(u, t, a, n);
    }
  }

  lemma BuddedDot(s: seq<File>, t: seq<File>, p: nat, name: Name, i: nat)
    requires Guarded(t) && Budding(s, t, p, name, i, 0, 0) && t[i].bytes == [] && ROOTINO <= i + 1
    ensures Look(t, i, Dot()) == 0 && i + 1 < INUMS
    ensures var u := Bound(t, i, Vacant(Slots(t[i].bytes)), i, Dot());
      Budding(s, u, p, name, i, i + 1, 0) && |u[i].bytes| == DENT
  {
    hide Guarded, Exact, Look, Dot, DotDot, Called, AddLinks, Slots, Vacant, Entered, Dent, Splice;
    DotsSpelled();
    GuardedDir(t, i);
    DirHasBlocks(t[i].mode);
    LinkedLooks(t, i, i, Dot());
    NoSlots(t, i, i + 1, Dot());
  }

  lemma NoSlots(t: seq<File>, i: nat, ino: nat, name: Name)
    requires i < |t| && t[i].bytes == [] && ino < INUMS
    ensures Vacant(Slots(t[i].bytes)) == 0 && |AddLinks(Entered(t, i, Vacant(Slots(t[i].bytes)), ino, name), i, 1)[i].bytes| == DENT
  {
    hide Dent;
    assert Slots([]) == [];
  }

  lemma BuddedDots(s: seq<File>, t: seq<File>, p: nat, name: Name, i: nat)
    requires Guarded(t) && Budding(s, t, p, name, i, i + 1, 0) && ROOTINO <= p + 1 && s[p].nlink < MAXLINKS
    ensures Look(t, i, DotDot()) == 0 && p + 1 < INUMS
    ensures var u := Bound(t, i, Vacant(Slots(t[i].bytes)), p, DotDot());
      Budding(s, u, p, name, i, i + 1, p + 1)
  {
    hide Guarded, Exact, Look, Dot, DotDot, Called, AddLinks, Slots, Vacant, Entered, Dent, Splice;
    DotsSpelled();
    GuardedDir(t, i);
    DirHasBlocks(t[p].mode);
    LinkedLooks(t, i, p, DotDot());
  }

  /** What mkdir leaves when it succeeds. */
  ghost predicate Grew(s: seq<File>, t: seq<File>, p: nat, name: Name, i: nat) {
    && Look(s, p, name) == 0 && Budding(s, t, p, name, i, i + 1, p + 1)
  }

  lemma GrewSound(s: seq<File>, t: seq<File>, p: nat, name: Name, i: nat)
    requires Sound(s) && Linked(t) && Grew(s, t, p, name, i) && Live(s, p) && Spelled(name) && ROOTINO <= i + 1
    ensures Sound(t) && Live(t, i)
  {
    hide Guarded, Exact, Look, Dot, DotDot, Called, Rooted, Spelled;
    FreeLooks(s, i);
    assert forall j: int :: Live(t, j) <==> Live(s, j) || j == i;
    RootedSprout(s, t, p, name, i);
  }

  lemma NoBud(s: seq<File>, t: seq<File>, i: nat)
    requires Sound(s) && Linked(t) && (t == s || (i < |s| && s[i].mode == 0 && t == s[i := File(0, 0, 0, [], true)]))
    ensures Sound(t) && SameTree(s, t)
  {
    hide Guarded, Exact, Look, Rooted;
    if t != s {
      ClearedFree(s, i);
    }
    SameSound(s, t);
  }

  lemma ParentNumber(s: seq<File>, p: nat)
    requires Linked(s) && p < |s| && IsDir(s[p].mode)
    ensures ROOTINO <= p + 1 < INUMS
  {
  }

  /** strcmp of an entry's name with "." and "..". */
  predicate StrDots(n: Name) {
    n[0] == 46 && (n[1] == 0 || (n[1] == 46 && n[2] == 0))
  }

  lemma DotStrings(n: Name)
    requires Spelled(n)
    ensures StrDots(n) <==> !Plain(n)
  {
    if StrDots(n) {
      assert n == if n[1] == 0 then Dot() else DotDot();
    }
  }

  /** No names but "." and "..". */
  ghost predicate Empty(s: seq<File>, i: nat) {
    forall n: Name :: Plain(n) ==> Look(s, i, n) == 0
  }

  /** v7fs_failnonemptydir's question about the entry at slot k. */
  ghost predicate Ignored(s: seq<File>, e: seq<Slot>, k: nat)
    requires k < |e|
  {
    e[k].ino != 0 ==> 0 < e[k].ino <= |s| && IsDir(s[e[k].ino - 1].mode) && StrDots(e[k].name)
  }

  lemma EmptyEntries(s: seq<File>, i: nat)
    requires Sound(s) && Live(s, i)
    ensures var e := Slots(s[i].bytes);
      Empty(s, i) <==> forall k :: 0 <= k < |e| ==> Ignored(s, e, k)
  {
    hide Slots, Find, DirMap, Look, Plain, Spelled, StrDots, Rooted, Exact, Dot, DotDot;
    var e := Slots(s[i].bytes);
    GuardedDir(s, i);
    HomedAt(s, i);
    forall k | 0 <= k < |e| && e[k].ino != 0
      ensures Ignored(s, e, k) <==> !Plain(e[k].name)
      ensures Look(s, i, e[k].name) > 0
    {
      LookEntry(s, i, k);
      RootedAt(s, i, e[k].name);
      DotStrings(e[k].name);
      DotCases(e[k].name);
    }
    forall n: Name | Plain(n) && Look(s, i, n) > 0
      ensures exists k :: 0 <= k < |e| && !Ignored(s, e, k)
    {
      LookIsFind(s, i, n);
      assert !Ignored(s, e, Find(e, n));
    }
  }

  lemma DotCases(n: Name)
    ensures !Plain(n) <==> n == Dot() || n == DotDot()
  {
  }

  /** Two names make two links. */
  lemma TwoNames(s: seq<File>, d: nat, n: Name, d': nat, n': Name)
    requires Linked(s) && Look(s, d, n) > 0 && Look(s, d', n') == Look(s, d, n) && (d != d' || n != n')
    ensures Look(s, d, n) <= |s| && s[Look(s, d, n) - 1].nlink >= 2
  {
    hide Slots, Find, DirMap, Exact, Splice, Dent, Guarded;
    LookIsFind(s, d, n);
    var k := Find(Slots(s[d].bytes), n);
    Forgetting(s, d, k);
    var e := Slots(s[d].bytes)[k];
    var u := AddLinks(Entered(s, d, k, 0, e.name), e.ino - 1, -1);
    assert Look(u, d', n') == Look(s, d, n);
  }

  /** What rmdir leaves: directory i and its three names are gone, and its inode too unless it is open. */
  ghost predicate Pruned(s: seq<File>, t: seq<File>, p: nat, name: Name, i: nat) {
    && |t| == |s| && i < |s| && p < |s| && i != p
    && Sprouted(t, s, p, name, i) && Look(t, p, name) == 0 && (forall n: Name :: Look(t, i, n) == 0)
    && SameInodes(s[p := s[p].(nlink := t[p].nlink)], t, i)
    && t[p].nlink == s[p].nlink - 1 && t[i].nlink == 0 && t[i].count == s[i].count
    && t[i].mode == if s[i].count == 0 then 0 else s[i].mode
  }

  /** The three names that lead to or from an empty directory are its only ones. */
  lemma OnlyNames(s: seq<File>, p: nat, name: Name, i: nat, a: nat, n: Name)
    requires Rooted(s) && Live(s, i) && Plain(name) && Look(s, p, name) == i + 1 && Empty(s, i) && i + 1 != ROOTINO
    requires Look(s, a, n) == i + 1
    ensures (a == p && n == name) || (a == i && n == Dot())
  {
    hide Look, Live, Plain, Spelled, Rooted, Dot, DotDot;
    RootedAt(s, p, name);
    RootedAt(s, a, n);
    HomedAt(s, a);
    DotCases(n);
    if n == DotDot() {
      if a + 1 != ROOTINO {
        ParentKeeps(s, a);
      }
    }
  }

  /** An empty directory found under an ordinary name: it is not its own parent, and its ".." is the directory it was found in. */
  lemma Prunable(s: seq<File>, p: nat, name: Name, i: nat)
    requires Sound(s) && Live(s, i) && Plain(name) && Look(s, p, name) == i + 1 && i + 1 != ROOTINO && Empty(s, i)
    ensures i != p && Live(s, p) && Look(s, i, Dot()) == i + 1 && Look(s, i, DotDot()) == p + 1 && s[p].nlink >= 2 && s[i].nlink >= 2
    ensures Dot() != DotDot() && name != Dot() && name != DotDot()
    ensures ROOTINO <= |s| && ROOTINO <= i + 1
  {
    hide Look, Plain, Spelled, Rooted, Dot, DotDot, Exact;
    RootedAt(s, p, name);
    HomedAt(s, i);
    HomedAt(s, p);
    DotsSpelled();
    DotCases(name);
    TwoNames(s, p, Dot(), i, DotDot());
    TwoNames(s, i, Dot(), p, name);
  }

  lemma DotCasesAll(s: seq<File>, i: nat)
    requires Empty(s, i) && Look(s, i, Dot()) == 0 && Look(s, i, DotDot()) == 0
    ensures forall n: Name :: Look(s, i, n) == 0
  {
    hide Look;
  }

  lemma PruneDone(s: seq<File>, s1: seq<File>, s2: seq<File>, t: seq<File>, p: nat, name: Name, i: nat)
    requires Sound(s) && Live(s, i) && Plain(name) && Look(s, p, name) == i + 1 && i + 1 != ROOTINO && Empty(s, i) && Linked(t)
    requires Forgot(s, s1, i, DotDot()) && Forgot(s1, s2, i, Dot()) && Forgot(s2, t, p, name)
    ensures Sound(t) && Pruned(s, t, p, name, i)
  {
    hide Guarded, Exact, Rooted, Look, Dot, DotDot, Plain, Called;
    Prunable(s, p, name, i);
    if Called(t, i + 1) {
      SomeName(t, i + 1);
      var a: nat, n: Name :| a < |t| && Look(t, a, n) == i + 1;
      assert Look(s, a, n) == i + 1;
      OnlyNames(s, p, name, i, a, n);
      assert false;
    }
    DotCasesAll(s2, i);
    RootedPrune(s, t, p, name, i);
  }

  lemma SomeName(s: seq<File>, x: nat)
    requires Called(s, x)
    ensures exists d: nat, n: Name :: d < |s| && Look(s, d, n) == x
  {
    hide Look;
  }
}
