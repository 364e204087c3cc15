/** namei: a path leads where the directories' maps lead, component by component. */
module Paths {
  import opened Blocks
  import opened BlockMap
  import opened ByteFiles
  import opened Volumes
  import opened Directories
  import opened Links
  import opened Hierarchy

  /** A component cut to, or padded with zeros to, fourteen bytes. */
  function NameOf(c: seq<Byte>): (n: Name) {
    if |c| >= DIRSIZ then c[..DIRSIZ] else c + seq(DIRSIZ - |c|, i => 0)
  }

  /** A component shorter than fourteen bytes is padded with zeros; of a longer one the first fourteen bytes count. */
  lemma NameBytes(c: seq<Byte>, i: nat)
    requires i < DIRSIZ
    ensures NameOf(c)[i] == if i < |c| then c[i] else 0
  {
  }

  /** Components that agree in their first fourteen bytes are one name. */
  lemma LongNames(c: seq<Byte>, d: seq<Byte>)
    requires |c| >= DIRSIZ && |d| >= DIRSIZ
    ensures NameOf(c) == NameOf(d) <==> c[..DIRSIZ] == d[..DIRSIZ]
  {
  }

  lemma NameSpelled(c: seq<Byte>)
    requires 0 !in c && SLASH !in c && c != []
    ensures Spelled(NameOf(c))
  {
  }

  /** Where the component at k ends. */
  function End(path: seq<Byte>, k: nat): (e: nat)
    requires k <= |path|
    ensures k <= e <= |path| && (e < |path| ==> path[e] == SLASH) && forall j :: k <= j < e ==> path[j] != SLASH
    decreases |path| - k
  {
    if k == |path| || path[k] == SLASH then k else End(path, k + 1)
  }

  /** The names on a path from byte k on: the stretches between slashes. */
  function Components(path: seq<Byte>, k: nat): (c: seq<Name>)
    requires k <= |path|
    decreases |path| - k
  {
    if k == |path| then []
    else if path[k] == SLASH then Components(path, k + 1)
    else [NameOf(path[k..End(path, k)])] + Components(path, End(path, k))
  }

  datatype Target = Inode(i: nat) | Parent(d: nat, name: Name) | Missing

  /**
   What a path means from directory d: the inode it leads to; for flag 1 also the directory to enter a
   missing last name in; for flag 2 the directory that has the last name.
   */
  ghost function Resolved(s: seq<File>, c: seq<Name>, flag: nat, d: int): Target {
    if d < 0 then Missing
    else if c == [] then Inode(d)
    else if !(d < |s| && IsDir(s[d].mode)) then Missing
    else if |c| == 1 && flag == 2 && Look(s, d, c[0]) > 0 then Parent(d, c[0])
    else if |c| == 1 && flag == 1 && Look(s, d, c[0]) == 0 then Parent(d, c[0])
    else Resolved(s, c[1..], flag, Look(s, d, c[0]) - 1)
  }

  /** namei's answer for a path from the root. */
  ghost function Where(s: seq<File>, path: seq<Byte>, flag: nat): Target {
    if Components(path, 0) == [] && flag != 0 then Missing else Resolved(s, Components(path, 0), flag, ROOTINO - 1)
  }

  /** A path goes on from where its first part leads. */
  lemma {:induction false} ResolvedJoin(s: seq<File>, a: seq<Name>, b: seq<Name>, flag: nat, d: nat)
    requires b != []
    ensures Resolved(s, a + b, flag, d) == match Resolved(s, a, 0, d) case Inode(x) => Resolved(s, b, flag, x) case _ => Missing
  {
    hide Look;
    if a == [] {
      assert a + b == b;
    } else {
      assert (a + b)[1..] == a[1..] + b && (a + b)[0] == a[0];
      if d < |s| && IsDir(s[d].mode) && Look(s, d, a[0]) > 0 {
        ResolvedJoin(s, a[1..], b, flag, Look(s, d, a[0]) - 1);
      }
    }
  }

  /** Splitting at a slash splits the components. */
  lemma {:induction false} ComponentsJoin(a: seq<Byte>, b: seq<Byte>, k: nat)
    requires k <= |a|
    ensures Components(a + [SLASH] + b, k) == Components(a, k) + Components(b, 0)
    decreases |a| - k
  {
    var p := a + [SLASH] + b;
    if k == |a| {
      ComponentsShift(p, b, |a| + 1, 0);
    } else if a[k] == SLASH {
      ComponentsJoin(a, b, k + 1);
    } else {
      EndIs(p, k, End(a, k));
      assert p[k..End(a, k)] == a[k..End(a, k)];
      ComponentsJoin(a, b, End(a, k));
    }
  }

  lemma EndIs(path: seq<Byte>, k: nat, e: nat)
    requires k <= e <= |path| && (e < |path| ==> path[e] == SLASH) && forall j :: k <= j < e ==> path[j] != SLASH
    ensures End(path, k) == e
  {
  }

  lemma {:induction false} ComponentsShift(p: seq<Byte>, b: seq<Byte>, n: nat, k: nat)
    requires k <= |b| && n + |b| == |p| && p[n..] == b
    ensures Components(p, n + k) == Components(b, k)
    decreases |b| - k
  {
    hide NameOf, End;
    if k < |b| {
      assert p[n + k] == p[n..][k];
      if b[k] == SLASH {
        ComponentsShift(p, b, n, k + 1);
      } else {
        EndShift(p, b, n, k);
        ComponentsShift(p, b, n, End(b, k));
      }
    }
  }

  lemma EndShift(p: seq<Byte>, b: seq<Byte>, n: nat, k: nat)
    requires k <= |b| && n + |b| == |p| && p[n..] == b
    ensures End(p, n + k) == n + End(b, k) && p[n + k..End(p, n + k)] == b[k..End(b, k)]
  {
    var e := End(b, k);
    forall j | n + k <= j < n + e
      ensures p[j] != SLASH
    {
      assert p[j] == p[n..][j - n];
    }
    assert e < |b| ==> p[n + e] == p[n..][e];
    EndIs(p, n + k, n + e);
    assert p[n + k..n + e] == b[k..e];
  }

  /** Gather the component at k into u_dbuf and skip the slashes after it. */
  method Gather(path: seq<Byte>, k: nat) returns (name: Name, next: nat)
    requires k < |path| && path[k] != SLASH && 0 !in path
    ensures k < next <= |path| && (next < |path| ==> path[next] != SLASH) && Spelled(name)
    ensures Components(path, k) == [name] + Components(path, next)
    ensures forall i :: 0 <= i < DIRSIZ ==> name[i] == if i < End(path, k) - k then path[k + i] else 0
    ensures forall j :: End(path, k) <= j < next ==> path[j] == SLASH
  {
    hide Spelled, Components;
    var gathered: seq<Byte> := [];
    next := k;
    while next < |path| && path[next] != SLASH
      invariant k <= next <= |path| && (next == k ==> gathered == []) && End(path, k) == End(path, next)
      invariant gathered == if next - k <= DIRSIZ then path[k..next] else path[k..k + DIRSIZ]
    {
      if |gathered| < DIRSIZ {
        gathered := gathered + [path[next]];
      }
      next := next + 1;
    }
    name := gathered + seq(DIRSIZ - |gathered|, i => 0);
    Gathered(path, k, next, gathered, name);
    next := SkipSlashes(path, next);
  }

  lemma Gathered(path: seq<Byte>, k: nat, e: nat, gathered: seq<Byte>, name: Name)
    requires k < e <= |path| && e == End(path, k) && 0 !in path && |gathered| <= DIRSIZ
    requires gathered == (if e - k <= DIRSIZ then path[k..e] else path[k..k + DIRSIZ]) && name == gathered + seq(DIRSIZ - |gathered|, i => 0)
    ensures Spelled(name) && Components(path, k) == [name] + Components(path, e)
    ensures forall i :: 0 <= i < DIRSIZ ==> name[i] == if i < e - k then path[k + i] else 0
  {
    hide Spelled;
    var c := path[k..e];
    assert e - k > DIRSIZ ==> c[..DIRSIZ] == gathered;
    assert name == NameOf(c);
    NameSpelled(c);
    forall i | 0 <= i < DIRSIZ
      ensures name[i] == if i < e - k then path[k + i] else 0
    {
      NameBytes(c, i);
    }
  }

  method SkipSlashes(path: seq<Byte>, k: nat) returns (next: nat)
    requires k <= |path|
    ensures k <= next <= |path| && (next < |path| ==> path[next] != SLASH) && Components(path, next) == Components(path, k)
    ensures forall j :: k <= j < next ==> path[j] == SLASH
  {
    next := k;
    while next < |path| && path[next] == SLASH
      invariant k <= next <= |path| && Components(path, next) == Components(path, k) && forall j :: k <= j < next ==> path[j] == SLASH
    {
      next := next + 1;
    }
  }

  /** A mounted volume: its root is a directory with the two references that the mount holds. */
  ghost predicate Mounted(s: seq<File>) {
    ROOTINO <= |s| && IsDir(s[ROOTINO - 1].mode) && s[ROOTINO - 1].count >= MOUNTREFS
  }

  const MOUNTREFS := 2

  /** The reference namei leaves with its caller: to the inode found, or to the directory of a last name. */
  ghost function Kept(s: seq<File>, r: Target): (t: seq<File>)
    requires r.Inode? ==> r.i < |s|
    requires r.Parent? ==> r.d < |s|
    ensures |t| == |s|
  {
    match r
    case Inode(i) => Referenced(s, i, 1)
    case Parent(d, _) => Referenced(s, d, 1)
    case Missing => s
  }

  lemma Held(s: seq<File>, d: nat)
    requires Guarded(s) && Pinned(s, d)
    ensures var t := Referenced(s, d, 1);
      && t[d].count > 0 && t[d].mode == s[d].mode && t[d].bytes == s[d].bytes && DirOk(t[d]) && d + 1 < INUMS
      && Dropped(t, d) == s
    ensures IsDir(s[d].mode) || s[d].nlink > 0 ==> ROOTINO <= d + 1
  {
    hide Slots, Refs, Unique;
  }

  /** One component: search directory d, which the caller holds; move on to the inode found, or stay for the last name. */
  method Enter(vol: Volume, ghost s: seq<File>, d: nat, name: Name, flag: nat, last: bool) returns (found: bool, i: nat, slot: nat)
    requires vol.Valid() && Guarded(s) && Pinned(s, d) && |s| == |vol.itab| && IsDir(s[d].mode) && vol.State() == Referenced(s, d, 1)
    modifies vol, vol.fs, vol.fs.bio, vol.itab
    ensures vol.Valid() && vol.fs.stack == old(vol.fs.stack) && (found <==> Look(s, d, name) > 0)
    ensures found && !(last && flag == 2) ==> i + 1 == Look(s, d, name) && Pinned(s, i) && s[i].nlink > 0 && vol.State() == Referenced(s, i, 1)
    ensures found && last && flag == 2 ==> vol.State() == Referenced(s, d, 1) && slot == Find(Slots(s[d].bytes), name) < |Slots(s[d].bytes)|
    ensures !found && last && flag == 1 ==> vol.State() == Referenced(s, d, 1) && slot == Vacant(Slots(s[d].bytes))
    ensures !found && !(last && flag == 1) ==> vol.State() == s
  {
    hide Volume.Valid, Volume.State, Slots, Find, Vacant, Look, Unique, Guarded;
    Held(s, d);
    var k, e;
    found, k, e := Search(vol, d, name);
    LookIsFind(s, d, name);
    i, slot := 0, if found then k else e;
    if found && !(last && flag == 2) {
      var end, x := ReadEntry(vol, d, k);
      EntryNames(s, d, k);
      i := x.ino - 1;
      vol.Iput(d);
      vol.Iget(i);
    } else if !found && !(last && flag == 1) {
      vol.Iput(d);
    }
  }

  /** One turn of namei's loop: the answer, or one component less to go from inode i. */
  method Turn(vol: Volume, ghost s: seq<File>, path: seq<Byte>, pos: nat, flag: nat, d: nat)
    returns (done: bool, r: Target, slot: nat, next: nat, i: nat)
    requires vol.Valid() && Guarded(s) && Pinned(s, d) && |s| == |vol.itab| && vol.State() == Referenced(s, d, 1)
    requires pos < |path| && path[pos] != SLASH && 0 !in path && (IsDir(s[d].mode) || s[d].nlink > 0)
    modifies vol, vol.fs, vol.fs.bio, vol.itab
    ensures vol.Valid() && vol.fs.stack == old(vol.fs.stack)
    ensures done ==> r == Resolved(s, Components(path, pos), flag, d) && Lands(s, r, flag, slot) && vol.State() == Kept(s, r)
    ensures !done ==> pos < next <= |path| && (next < |path| ==> path[next] != SLASH)
    ensures !done ==> Pinned(s, i) && s[i].nlink > 0 && vol.State() == Referenced(s, i, 1)
    ensures !done ==> Resolved(s, Components(path, pos), flag, d) == Resolved(s, Components(path, next), flag, i)
  {
    hide Volume.Valid, Volume.State, Look, Guarded, Components, Spelled, Resolved, Slots, Find, Vacant;
    ghost var c := Components(path, pos);
    done, r, slot, i := true, Missing, 0, 0;
    var name;
    name, next := Gather(path, pos);
    ComponentsEmpty(path, next);
    ResolvedStep(s, c, flag, d, name, Components(path, next));
    Held(s, d);
    vol.StateAt(d);
    if !IsDir(vol.itab[d].mode) {
      vol.Iput(d);
      return;
    }
    var found;
    found, i, slot := Enter(vol, s, d, name, flag, next == |path|);
    LookIsFind(s, d, name);
    if next == |path| && ((flag == 2 && found) || (flag == 1 && !found)) {
      r := Parent(d, name);
    } else {
      done := !found;
    }
  }

  /** namei, from the root, which is also the current directory. */
  method Namei(vol: Volume, path: seq<Byte>, flag: nat) returns (r: Target, slot: nat)
    requires vol.Valid() && Guarded(vol.State()) && Mounted(vol.State()) && 0 !in path
    modifies vol, vol.fs, vol.fs.bio, vol.itab
    ensures vol.Valid() && r == Where(old(vol.State()), path, flag) && vol.fs.stack == old(vol.fs.stack)
    ensures Lands(old(vol.State()), r, flag, slot) && vol.State() == Kept(old(vol.State()), r)
  {
    hide Volume.Valid, Volume.State, Look, Guarded, Components, Spelled, Resolved, Slots, Find, Vacant;
    ghost var s := vol.State();
    var d: nat := ROOTINO - 1;
    slot := 0;
    RootPinned(s);
    Held(s, d);
    vol.Iget(d);
    var pos := SkipSlashes(path, 0);
    ComponentsEmpty(path, pos);
    if pos == |path| && flag != 0 {
      vol.Iput(d);
      return Missing, 0;
    }
    while pos < |path|
      invariant vol.Valid() && Pinned(s, d) && vol.State() == Referenced(s, d, 1) && vol.fs.stack == old(vol.fs.stack)
      invariant pos <= |path| && (pos < |path| ==> path[pos] != SLASH) && (IsDir(s[d].mode) || s[d].nlink > 0)
      invariant Resolved(s, Components(path, 0), flag, ROOTINO - 1) == Resolved(s, Components(path, pos), flag, d)
    {
      var done;
      done, r, slot, pos, d := Turn(vol, s, path, pos, flag, d);
      if done {
        return;
      }
    }
    ComponentsEmpty(path, pos);
    ResolvedEnd(s, flag, d);
    Held(s, d);
    return Inode(d), 0;
  }

  lemma RootPinned(s: seq<File>)
    requires Guarded(s) && Mounted(s)
    ensures Pinned(s, ROOTINO - 1)
  {
  }

  /** What namei's caller can rely on. */
  ghost predicate Lands(s: seq<File>, r: Target, flag: nat, slot: nat) {
    match r
    case Inode(i) => Pinned(s, i) && ROOTINO <= i + 1 && i + 1 < INUMS
    case Parent(d, name) =>
      && Pinned(s, d) && IsDir(s[d].mode) && Spelled(name)
      && (flag == 1 ==> Look(s, d, name) == 0 && Find(Slots(s[d].bytes), name) == |Slots(s[d].bytes)| && slot == Vacant(Slots(s[d].bytes)))
      && (flag == 2 ==> Look(s, d, name) > 0 && slot == Find(Slots(s[d].bytes), name) < |Slots(s[d].bytes)|)
      && (flag == 1 || flag == 2)
    case Missing => true
  }

  lemma ComponentsEmpty(path: seq<Byte>, k: nat)
    requires k <= |path| && (k < |path| ==> path[k] != SLASH)
    ensures Components(path, k) == [] <==> k == |path|
  {
  }

  lemma ResolvedEnd(s: seq<File>, flag: nat, d: nat)
    ensures Resolved(s, [], flag, d) == Inode(d)
  {
  }

  lemma ResolvedStep(s: seq<File>, c: seq<Name>, flag: nat, d: nat, name: Name, rest: seq<Name>)
    requires c == [name] + rest && d < |s|
    ensures Resolved(s, c, flag, d) ==
            if !IsDir(s[d].mode) then Missing
            else if rest == [] && flag == 2 && Look(s, d, name) > 0 then Parent(d, name)
            else if rest == [] && flag == 1 && Look(s, d, name) == 0 then Parent(d, name)
            else if Look(s, d, name) == 0 then Missing
            else Resolved(s, rest, flag, Look(s, d, name) - 1)
  {
    hide Look;
    assert c[1..] == rest;
  }
}
