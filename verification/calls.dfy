/** The calls on names, by path: link, unlink, creat, open, truncate, close, read and write. */
module Calls {
  import opened Blocks
  import opened BlockMap
  import opened ByteFiles
  import opened Volumes
  import opened Directories
  import opened Links
  import opened Hierarchy
  import opened Paths

  predicate IsFile(mode: nat) {
    mode / 4096 % 16 == 8
  }

  /** What holds between calls on a mounted volume, whatever the calls. */
  ghost predicate Up(s: seq<File>) {
    Guarded(s) && Mounted(s)
  }

  /** References do not change where paths lead. */
  lemma WhereSame(s: seq<File>, i: nat, path: seq<Byte>, flag: nat)
    requires i < |s|
    ensures Where(Referenced(s, i, 1), path, flag) == Where(s, path, flag)
  {
    hide Components;
    ResolvedSame(s, i, Components(path, 0), flag, ROOTINO - 1);
  }

  lemma {:induction false} ResolvedSame(s: seq<File>, i: nat, c: seq<Name>, flag: nat, d: int)
    requires i < |s|
    ensures Resolved(Referenced(s, i, 1), c, flag, d) == Resolved(s, c, flag, d)
    decreases |c|
  {
    hide Look, Referenced;
    if c != [] {
      ReferencedLook(s, i, d, c[0]);
    }
    if d >= 0 && c != [] && d < |s| && IsDir(s[d].mode) {
      ResolvedSame(s, i, c[1..], flag, Look(s, d, c[0]) - 1);
    }
  }

  lemma ReferencedLook(s: seq<File>, i: nat, d: int, n: Name)
    requires i < |s|
    ensures Look(Referenced(s, i, 1), d, n) == Look(s, d, n)
    ensures 0 <= d < |s| ==> IsDir(Referenced(s, i, 1)[d].mode) == IsDir(s[d].mode)
  {
    hide Slots, DirMap, Find;
  }

  lemma HeldUp(s: seq<File>, i: nat)
    requires Up(s) && Pinned(s, i)
    ensures Up(Referenced(s, i, 1)) && forall j: nat :: Pinned(s, j) ==> Pinned(Referenced(s, i, 1), j)
  {
    hide Slots, Refs, Unique, Exact, Covered;
    RecountGuarded(s, i, s[i].count + 1);
  }

  /** There is room for an entry: five free blocks, and a directory not at the size limit. */
  ghost predicate Room(s: seq<File>, d: nat, free: nat) {
    d < |s| && s[d].nlink > 0 && |s[d].bytes| + DENT <= MAXSIZE && free > 4
  }

  /** A lookup for reading gives an inode or nothing. */
  lemma WhereZero(s: seq<File>, path: seq<Byte>)
    ensures !Where(s, path, 0).Parent?
  {
    hide Look, Components;
    ResolvedZero(s, Components(path, 0), ROOTINO - 1);
  }

  lemma {:induction false} ResolvedZero(s: seq<File>, c: seq<Name>, d: int)
    ensures !Resolved(s, c, 0, d).Parent?
    decreases |c|
  {
    hide Look;
    if d >= 0 && c != [] && d < |s| && IsDir(s[d].mode) {
      ResolvedZero(s, c[1..], Look(s, d, c[0]) - 1);
    }
  }

  /** A target to link to, and a missing last name to enter; directories are linked by the superuser only. */
  ghost predicate Linkable(s: seq<File>, target: seq<Byte>, path: seq<Byte>, su: bool) {
    var r, q := Where(s, target, 0), Where(s, path, 1);
    r.Inode? && r.i < |s| && r.i + 1 < INUMS && q.Parent? && q.d < |s| && (su || !IsDir(s[r.i].mode))
  }

  ghost function LinkedBy(s: seq<File>, target: seq<Byte>, path: seq<Byte>, su: bool): (t: seq<File>)
    requires Linkable(s, target, path, su)
    ensures |t| == |s|
  {
    var r, q := Where(s, target, 0), Where(s, path, 1);
    Bound(s, q.d, Vacant(Slots(s[q.d].bytes)), r.i, q.name)
  }

  lemma LandsSame(s: seq<File>, i: nat, q: Target, k: nat)
    requires i < |s| && Lands(Referenced(s, i, 1), q, 1, k) && (q.Parent? ==> Pinned(s, q.d))
    ensures q.Parent? ==> Lands(s, q, 1, k)
  {
    hide Slots, Find, Vacant, DirMap, Spelled;
    if q.Parent? {
      LookSame(s, Referenced(s, i, 1), q.d, q.name);
    }
  }

  lemma StillPinned(s: seq<File>, i: nat, d: nat)
    requires Up(s) && Pinned(s, i) && Pinned(Referenced(s, i, 1), d)
    ensures Pinned(s, d)
  {
  }

  /** A link changes neither the root's mode nor its references. */
  lemma BoundUp(s: seq<File>, d: nat, k: nat, i: nat, name: Name)
    requires Mounted(s) && d < |s| && i < |s| && i + 1 < INUMS
    ensures Mounted(Bound(s, d, k, i, name))
  {
    hide Splice, Dent;
  }

  /** The inode r has as many links as it can count. */
  ghost predicate Brimful(s: seq<File>, r: Target) {
    r.Inode? && r.i < |s| && s[r.i].nlink == MAXLINKS
  }

  /** What a path leads to, other than the root, has a name in a directory other than itself. */
  lemma {:induction false} NamedElsewhere(s: seq<File>, c: seq<Name>, d: int, i: nat)
    requires Resolved(s, c, 0, d) == Inode(i) && d != i
    ensures Elsewhere(s, i)
    decreases |c|
  {
    hide Look, CountIn, Slots, Find;
    var next := Look(s, d, c[0]) - 1;
    if next == i {
      LookIsFind(s, d, c[0]);
      CountSome(Slots(s[d].bytes), Find(Slots(s[d].bytes), c[0]));
      assert CountIn(EntriesOf(s[d]), i + 1) > 0;
    } else {
      NamedElsewhere(s, c[1..], next, i);
    }
  }

  lemma PathElsewhere(s: seq<File>, path: seq<Byte>, i: nat)
    requires Where(s, path, 0) == Inode(i)
    ensures i == ROOTINO - 1 || Elsewhere(s, i)
  {
    hide Look, Components;
    if i != ROOTINO - 1 {
      NamedElsewhere(s, Components(path, 0), ROOTINO - 1, i);
    }
  }

  /** link's last part, unless the directory is at its size limit. */
  method LinkIn(vol: Volume, ghost s: seq<File>, i: nat, d: nat, k: nat, name: Name) returns (ok: bool, lost: bool)
    requires vol.Valid() && Up(s) && |s| == |vol.itab| && Pinned(s, i) && Pinned(s, d) && ROOTINO <= i + 1 && IsDir(s[d].mode)
    requires vol.State() == Referenced(Referenced(s, i, 1), d, 1) && Lands(s, Parent(d, name), 1, k)
    requires i == ROOTINO - 1 || Elsewhere(s, i)
    modifies vol, vol.fs, vol.fs.bio, vol.itab
    ensures vol.Valid() && i + 1 < INUMS && |old(vol.fs.stack)| <= |vol.fs.stack| + 4
    ensures vol.State() == if ok then Bound(s, d, k, i, name) else s
    ensures Room(s, d, |old(vol.fs.stack)|) ==> ok
    ensures lost <==> ok && s[i].nlink == MAXLINKS
    ensures if lost then Overrun(vol.State(), i) else Up(vol.State()) && (Exact(vol.State()) <==> Exact(s))
  {
    hide Volume.Valid, Volume.State, Guarded, Slots, Find, Vacant, Look, Spelled, Exact, Bound, DirOk, Elsewhere, Overrun;
    ok, lost := false, false;
    GuardedDir(s, d);
    GuardedDir(s, i);
    LinkNet(s, d, k, i, name);
    vol.SizeAt(d);
    if vol.itab[d].size + DENT <= MAXSIZE {
      ok, lost := Link(vol, s, i, d, k, name);
      BoundUp(s, d, k, i, name);
      if lost {
        LinkOverruns(s, d, k, i, name);
      }
    } else {
      vol.Iput(d);
      vol.Iput(i);
    }
  }

  /**
   v7fs_link: the missing last name of the second path becomes a name of the inode the first one leads to; or nothing
   changes.  The volume stays up if and only if the inode had fewer links than it can count.
   */
  method LinkCall(vol: Volume, target: seq<Byte>, path: seq<Byte>, su: bool) returns (ok: bool, lost: bool)
    requires vol.Valid() && Up(vol.State()) && 0 !in target && 0 !in path
    modifies vol, vol.fs, vol.fs.bio, vol.itab
    ensures vol.Valid() && |old(vol.fs.stack)| <= |vol.fs.stack| + 4
    ensures ok ==> Linkable(old(vol.State()), target, path, su)
    ensures var s, r, q := old(vol.State()), Where(old(vol.State()), target, 0), Where(old(vol.State()), path, 1);
      && (r.Missing? || !q.Parent? ==> !ok)
      && (r.Inode? && r.i < |s| && IsDir(s[r.i].mode) && !su ==> !ok)
    ensures vol.State() == if ok then LinkedBy(old(vol.State()), target, path, su) else old(vol.State())
    ensures Linkable(old(vol.State()), target, path, su) && Room(old(vol.State()), Where(old(vol.State()), path, 1).d, |old(vol.fs.stack)|) ==> ok
    ensures lost <==> ok && Brimful(old(vol.State()), Where(old(vol.State()), target, 0))
    ensures if lost then Overrun(vol.State(), Where(old(vol.State()), target, 0).i) && !Guarded(vol.State())
            else Up(vol.State()) && (Exact(vol.State()) <==> Exact(old(vol.State())))
  {
    hide Volume.Valid, Volume.State, Guarded, Where, Slots, Find, Vacant, Look, Spelled, Exact, Bound, DirOk, Mounted, Room, Elsewhere, Overrun;
    ghost var s := vol.State();
    ok, lost := false, false;
    WhereZero(s, target);
    var r, k := Namei(vol, target, 0);
    if r.Missing? {
      return;
    }
    var i := r.i;
    DropBack(s, i);
    vol.StateAt(i);
    if IsDir(vol.itab[i].mode) && !su {
      vol.Iput(i);
      return;
    }
    PathElsewhere(s, target, i);
    ok, lost := LinkFrom(vol, s, i, path);
  }

  /** link from the second namei on, with the inode of the first path held. */
  method LinkFrom(vol: Volume, ghost s: seq<File>, i: nat, path: seq<Byte>) returns (ok: bool, lost: bool)
    requires vol.Valid() && Up(s) && |s| == |vol.itab| && Pinned(s, i) && ROOTINO <= i + 1 && vol.State() == Referenced(s, i, 1) && 0 !in path
    requires i == ROOTINO - 1 || Elsewhere(s, i)
    modifies vol, vol.fs, vol.fs.bio, vol.itab
    ensures vol.Valid() && i + 1 < INUMS && |old(vol.fs.stack)| <= |vol.fs.stack| + 4
    ensures var q := Where(s, path, 1);
      && (ok ==> q.Parent? && q.d < |s|)
      && vol.State() == (if ok then Bound(s, q.d, Vacant(Slots(s[q.d].bytes)), i, q.name) else s)
      && (q.Parent? && Room(s, q.d, |old(vol.fs.stack)|) ==> ok)
    ensures lost <==> ok && s[i].nlink == MAXLINKS
    ensures if lost then Overrun(vol.State(), i) && !Guarded(vol.State()) else Up(vol.State()) && (Exact(vol.State()) <==> Exact(s))
  {
    hide Volume.Valid, Volume.State, Guarded, Where, Slots, Find, Vacant, Look, Spelled, Exact, Bound, DirOk, Mounted, Room, Elsewhere, Overrun;
    ok, lost := false, false;
    DropBack(s, i);
    GuardedDir(s, i);
    HeldUp(s, i);
    WhereSame(s, i, path, 1);
    ghost var s1 := vol.State();
    var q, k := Namei(vol, path, 1);
    match q {
      case Missing =>
        vol.Iput(i);
      case Inode(j) =>
        DropBack(s1, j);
        vol.Iput(j);
        vol.Iput(i);
      case Parent(d, name) =>
        StillPinned(s, i, d);
        LandsSame(s, i, q, k);
        ok, lost := LinkIn(vol, s, i, d, k, name);
        if lost {
          OverrunUnguarded(vol.State(), i);
        }
    }
  }

  /** A live last name; a directory's is removed by the superuser only. */
  ghost predicate Removable(s: seq<File>, path: seq<Byte>, su: bool) {
    var q := Where(s, path, 2);
    q.Parent? && q.d < |s| && IsDir(s[q.d].mode) && 0 < Look(s, q.d, q.name) <= |s| && (su || !IsDir(s[Look(s, q.d, q.name) - 1].mode))
  }

  ghost function RemovedBy(s: seq<File>, path: seq<Byte>, su: bool): (t: seq<File>)
    requires Guarded(s) && Removable(s, path, su)
    ensures |t| == |s|
  {
    var q := Where(s, path, 2);
    LookIsFind(s, q.d, q.name);
    Unlinked(s, q.d, Find(Slots(s[q.d].bytes), q.name))
  }

  /** unlinking that entry would release a directory that still has live entries. */
  ghost predicate Strands(s: seq<File>, path: seq<Byte>, su: bool)
    requires Guarded(s) && Removable(s, path, su)
  {
    var q := Where(s, path, 2);
    LookIsFind(s, q.d, q.name);
    var k := Find(Slots(s[q.d].bytes), q.name);
    Orphaned(s, q.d, k) && !Emptied(s, q.d, k)
  }

  lemma UnlinkedUp(s: seq<File>, d: nat, k: nat)
    requires Up(s) && d < |s| && IsDir(s[d].mode) && k < |Slots(s[d].bytes)| && Slots(s[d].bytes)[k].ino != 0
    ensures Mounted(Unlinked(s, d, k))
  {
    hide Slots, Splice, Dent, Refs, Unique, Exact, Covered, DirOk;
    EntryNames(s, d, k);
  }

  /** v7fs_unlink: the entry goes, and its inode too if that was the last link and it is not open. */
  method UnlinkCall(vol: Volume, path: seq<Byte>, su: bool) returns (ok: bool)
    requires vol.Valid() && Up(vol.State()) && 0 !in path
    modifies vol, vol.fs, vol.fs.bio, vol.itab
    ensures vol.Valid() && Up(vol.State())
    ensures ok <==> Removable(old(vol.State()), path, su)
    ensures var s, q := old(vol.State()), Where(old(vol.State()), path, 2);
      && (q.Missing? ==> !ok)
      && (q.Parent? && q.d < |s| && 0 < Look(s, q.d, q.name) <= |s| ==> (ok <==> su || !IsDir(s[Look(s, q.d, q.name) - 1].mode)))
    ensures vol.State() == if ok then RemovedBy(old(vol.State()), path, su) else old(vol.State())
    ensures Exact(old(vol.State())) ==> (Exact(vol.State()) <==> !(ok && Strands(old(vol.State()), path, su)))
  {
    hide Volume.Valid, Volume.State, Guarded, Where, Slots, Find, Vacant, Look, Spelled, Exact, DirOk, Mounted, Orphaned, Emptied, Unlinked;
    ghost var s := vol.State();
    ok := false;
    NotInode(s, path);
    var q, k := Namei(vol, path, 2);
    if q.Missing? {
      return;
    }
    var d := q.d;
    LookIsFind(s, d, q.name);
    GuardedDir(s, d);
    ReferencedFacts(s, d, d);
    DropBack(s, d);
    var end, x := ReadEntry(vol, d, k);
    EntryNames(s, d, k);
    vol.StateAt(x.ino - 1);
    ok := su || !IsDir(vol.itab[x.ino - 1].mode);
    if ok {
      UnlinkedUp(s, d, k);
      Unlink(vol, s, d, k);
    } else {
      vol.Iput(d);
    }
  }

  /** A lookup for deletion gives a directory or nothing. */
  lemma NotInode(s: seq<File>, path: seq<Byte>)
    ensures !Where(s, path, 2).Inode?
  {
    hide Look, Components;
    if Components(path, 0) != [] {
      ResolvedTwo(s, Components(path, 0), ROOTINO - 1);
    }
  }

  lemma {:induction false} ResolvedTwo(s: seq<File>, c: seq<Name>, d: int)
    requires c != []
    ensures !Resolved(s, c, 2, d).Inode?
    decreases |c|
  {
    hide Look;
    if d >= 0 && d < |s| && IsDir(s[d].mode) && |c| > 1 {
      ResolvedTwo(s, c[1..], Look(s, d, c[0]) - 1);
    }
  }

  /** A file without its bytes. */
  ghost function Hollow(f: File): File {
    f.(bytes := [], solid := true)
  }

  /** Truncation of any inode keeps the volume up; link counts stay exact if and only if no live entries were lost. */
  lemma HollowUp(s: seq<File>, i: nat)
    requires Up(s) && i < |s| && s[i].mode != 0
    ensures Up(s[i := Hollow(s[i])])
    ensures Exact(s) ==> (Exact(s[i := Hollow(s[i])]) <==> Bare(s[i]))
  {
    hide Slots, Refs, Covered, Exact, DirOk;
    EmptyDirOk(Hollow(s[i]));
    SizeOfSlots([]);
    Clearing(s, i, Hollow(s[i]));
  }

  /** v7fs_truncate: the inode the path leads to, whatever it is, loses its bytes if the length asked for is zero. */
  method TruncateCall(vol: Volume, path: seq<Byte>, length: nat) returns (ok: bool)
    requires vol.Valid() && Up(vol.State()) && 0 !in path
    modifies vol, vol.fs, vol.fs.bio, vol.itab
    ensures vol.Valid() && Up(vol.State())
    ensures var s, r := old(vol.State()), Where(old(vol.State()), path, 0);
      && (ok <==> r.Inode? && r.i < |s| && length == 0)
      && vol.State() == (if ok then s[r.i := Hollow(s[r.i])] else s)
      && (Exact(s) ==> (Exact(vol.State()) <==> !(ok && !Bare(s[r.i]))))
  {
    hide Volume.Valid, Volume.State, Guarded, Where, Slots, Exact, Mounted, Bare;
    ghost var s := vol.State();
    ok := false;
    WhereZero(s, path);
    var r, k := Namei(vol, path, 0);
    if r.Missing? {
      return;
    }
    DropBack(s, r.i);
    if length == 0 {
      vol.Truncate(r.i);
      ok := true;
      HollowUp(s, r.i);
      DropHollow(s, r.i);
    }
    vol.Iput(r.i);
  }

  lemma DropHollow(s: seq<File>, i: nat)
    requires Pinned(s, i)
    ensures var t := Referenced(s, i, 1)[i := Hollow(Referenced(s, i, 1)[i])];
      && t[i].count > 0 && Dropped(t, i) == s[i := Hollow(s[i])]
      && t == Referenced(s[i := Hollow(s[i])], i, 1)
  {
  }

  /**
   open1 of inode i: refused for a directory to be written; otherwise no bytes if to be truncated, and one reference
   more, unless no descriptor is free.
   */
  ghost function Opened(s: seq<File>, i: nat, write: bool, trunc: bool, full: bool): (t: seq<File>)
    requires i < |s|
    ensures |t| == |s|
  {
    if write && IsDir(s[i].mode) then s
    else
      var t := if trunc then s[i := Hollow(s[i])] else s;
      if full then t else Referenced(t, i, 1)
  }

  lemma OpenedUp(s: seq<File>, i: nat, write: bool, trunc: bool, full: bool)
    requires Up(s) && i < |s| && s[i].mode != 0
    ensures Up(Opened(s, i, write, trunc, full))
    ensures Exact(s) ==> (Exact(Opened(s, i, write, trunc, full)) <==> !(trunc && !write && !Bare(s[i])))
  {
    hide Slots, Guarded, Exact, Bare, Hollow;
    HollowUp(s, i);
    HollowMode(s[i]);
    BareFile(s[i]);
    RecountGuarded(s, i, s[i].count + 1);
    var t := s[i := Hollow(s[i])];
    RecountGuarded(t, i, t[i].count + 1);
  }

  lemma HollowMode(f: File)
    ensures Hollow(f).mode == f.mode && Hollow(f).nlink == f.nlink && Hollow(f).count == f.count
  {
  }

  lemma BareFile(f: File)
    ensures !IsDir(f.mode) ==> Bare(f)
  {
  }

  /** open1, with the inode held; full says that falloc finds no descriptor or no file structure free. */
  method Open1(vol: Volume, ghost s: seq<File>, i: nat, write: bool, trunc: bool, full: bool) returns (ok: bool)
    requires vol.Valid() && Up(s) && |s| == |vol.itab| && Pinned(s, i) && ROOTINO <= i + 1 && vol.State() == Referenced(s, i, 1)
    modifies vol, vol.fs, vol.fs.bio, vol.itab
    ensures vol.Valid() && Up(vol.State()) && vol.State() == Opened(s, i, write, trunc, full)
    ensures (ok <==> !full && !(write && IsDir(s[i].mode))) && |old(vol.fs.stack)| <= |vol.fs.stack|
  {
    hide Volume.Valid, Volume.State, Guarded, Exact, Mounted;
    OpenedUp(s, i, write, trunc, full);
    DropBack(s, i);
    DropHollow(s, i);
    vol.StateAt(i);
    ok := !(write && IsDir(vol.itab[i].mode));
    if ok {
      if trunc {
        vol.Truncate(i);
      }
      ok := !full;
    }
    if !ok {
      vol.Iput(i);
    }
  }

  /** v7fs_open without O_CREAT. */
  method OpenCall(vol: Volume, path: seq<Byte>, write: bool, trunc: bool, full: bool) returns (ok: bool)
    requires vol.Valid() && Up(vol.State()) && 0 !in path
    modifies vol, vol.fs, vol.fs.bio, vol.itab
    ensures vol.Valid() && Up(vol.State())
    ensures var s, r := old(vol.State()), Where(old(vol.State()), path, 0);
      && (ok <==> r.Inode? && r.i < |s| && !full && !(write && IsDir(s[r.i].mode)))
      && vol.State() == (if r.Inode? && r.i < |s| then Opened(s, r.i, write, trunc, full) else s)
      && (ok ==> vol.State() == s[r.i := s[r.i].(count := s[r.i].count + 1, bytes := if trunc then [] else s[r.i].bytes, solid := trunc || s[r.i].solid)])
      && (write && r.Inode? && r.i < |s| && IsDir(s[r.i].mode) ==> vol.State() == s)
      && (Exact(s) ==> (Exact(vol.State()) <==> !(r.Inode? && r.i < |s| && trunc && !write && !Bare(s[r.i]))))
  {
    hide Volume.Valid, Volume.State, Guarded, Where, Slots, Exact, Mounted, Bare;
    ghost var s := vol.State();
    ok := false;
    WhereZero(s, path);
    var r, k := Namei(vol, path, 0);
    if r.Inode? {
      OpenedUp(s, r.i, write, trunc, full);
      BareFile(s[r.i]);
      ok := Open1(vol, s, r.i, write, trunc, full);
    }
  }

  /** Inode i, free before, is a file named in d which the caller holds, and nothing else changed. */
  ghost predicate Created(s: seq<File>, t: seq<File>, d: nat, name: Name, i: nat, mode: nat) {
    && |s| == |t| && i < |s| && i + 1 < INUMS && s[i].mode == 0 && Look(s, d, name) == 0 && d < |s| && IsDir(s[d].mode)
    && t == Made(s, d, Vacant(Slots(s[d].bytes)), i, name, mode)
  }

  /** No inode that ialloc could give. */
  ghost predicate NoInode(s: seq<File>) {
    forall j :: 0 <= j < |s| && j + 1 < INUMS ==> s[j].mode != 0
  }

  /** maknode in the directory namei left, unless it is at its size limit. */
  method MakeIn(vol: Volume, ghost s: seq<File>, d: nat, k: nat, name: Name, mode: nat) returns (ok: bool, i: nat)
    requires vol.Valid() && Up(s) && |s| == |vol.itab| && Pinned(s, d) && IsDir(s[d].mode) && mode != 0
    requires vol.State() == Referenced(s, d, 1) && Lands(s, Parent(d, name), 1, k)
    modifies vol, vol.fs, vol.fs.bio, vol.itab
    ensures vol.Valid() && Up(vol.State()) && |old(vol.fs.stack)| <= |vol.fs.stack| + 4
    ensures ok ==> ROOTINO <= i + 1 && Created(s, vol.State(), d, name, i, mode) && s[d].nlink > 0
    ensures !ok ==> vol.State() == s || (i < |s| && s[i].mode == 0 && vol.State() == s[i := File(0, 0, 0, [], true)])
    ensures Room(s, d, |old(vol.fs.stack)|) && !NoInode(s) ==> ok
    ensures Exact(vol.State()) <==> Exact(s)
  {
    hide Volume.Valid, Volume.State, Guarded, Slots, Find, Vacant, Look, Spelled, Exact, Made, DirOk, Mounted;
    ok, i := false, 0;
    DropBack(s, d);
    GuardedDir(s, d);
    vol.SizeAt(d);
    if vol.itab[d].size + DENT <= MAXSIZE {
      ok, i := Maknode(vol, s, d, k, name, mode);
      if ok {
        MadeMounted(s, d, k, i, name, mode);
      } else {
        FreeMounted(s, i);
      }
    } else {
      vol.Iput(d);
    }
  }

  lemma MadeMounted(s: seq<File>, d: nat, k: nat, i: nat, name: Name, mode: nat)
    requires Mounted(s) && d < |s| && i < |s| && i + 1 < INUMS && s[i].mode == 0
    ensures Mounted(Made(s, d, k, i, name, mode))
  {
    hide Splice, Dent;
  }

  lemma FreeMounted(s: seq<File>, i: nat)
    requires Mounted(s)
    ensures i < |s| && s[i].mode == 0 ==> Mounted(s[i := File(0, 0, 0, [], true)])
  {
  }

  /** The permissions of a new file: those asked for, without the sticky bit. */
  function NewMode(mode: nat): (m: nat)
    ensures m / 4096 == 8 && m % 512 == mode % 512 && m / 512 % 2 == 0 && m / 1024 % 4 == mode / 1024 % 4
  {
    32768 + mode / 1024 % 4 * 1024 + mode % 512
  }

  /** A new file as creat leaves it: held, unless no descriptor was free. */
  ghost predicate MadeFile(s: seq<File>, t: seq<File>, d: nat, name: Name, i: nat, mode: nat, full: bool) {
    if full then i < |t| && t[i].count == 0 && Created(s, t[i := t[i].(count := 1)], d, name, i, mode) else Created(s, t, d, name, i, mode)
  }

  lemma LetGo(s: seq<File>, u: seq<File>, d: nat, name: Name, i: nat, mode: nat)
    requires Up(u) && Created(s, u, d, name, i, mode) && ROOTINO <= i + 1 && mode != 0 && Up(s)
    ensures i < |u| == |s| && u[i].count == 1 && u[i].nlink == 1 && u[i].mode == mode && i != ROOTINO - 1 && i != d
    ensures Dropped(u, i) == u[i := u[i].(count := 0)] && Up(Dropped(u, i)) && (Exact(Dropped(u, i)) <==> Exact(u))
  {
    hide Guarded, Exact, Slots, Vacant, Splice, Dent, Look;
    RecountGuarded(u, i, 0);
  }

  /** v7fs_open with O_CREAT: an existing inode is opened, or refused for O_EXCL; a missing name is created. */
  method CreatCall(vol: Volume, path: seq<Byte>, mode: nat, excl: bool, write: bool, trunc: bool, full: bool) returns (ok: bool, i: nat)
    requires vol.Valid() && Up(vol.State()) && 0 !in path
    modifies vol, vol.fs, vol.fs.bio, vol.itab
    ensures vol.Valid() && Up(vol.State()) && |old(vol.fs.stack)| <= |vol.fs.stack| + 4
    ensures CreatDone(old(vol.State()), vol.State(), path, mode, excl, write, trunc, full, |old(vol.fs.stack)|, ok, i)
  {
    hide Volume.Valid, Volume.State, Guarded, Where, Slots, Find, Vacant, Look, Spelled, Exact, Made, DirOk, Mounted, Room, Created;
    ghost var s := vol.State();
    ok, i := false, 0;
    var r, k := Namei(vol, path, 1);
    match r {
      case Missing =>
      case Inode(j) =>
        DropBack(s, j);
        if excl {
          vol.Iput(j);
        } else {
          ok := Open1(vol, s, j, write, trunc, full);
          i := j;
        }
      case Parent(d, name) =>
        var made;
        made, i := MakeIn(vol, s, d, k, name, NewMode(mode));
        if made {
          ok := !full;
          ghost var u := vol.State();
          if full {
            LetGo(s, u, d, name, i, NewMode(mode));
            vol.Iput(i);
            assert vol.State()[i := vol.State()[i].(count := 1)] == u;
          }
          assert MadeFile(s, vol.State(), d, name, i, NewMode(mode), full);
        }
    }
  }

  /** What creat promises. */
  ghost predicate CreatDone(s: seq<File>, t: seq<File>, path: seq<Byte>, mode: nat, excl: bool, write: bool, trunc: bool, full: bool, free: nat, ok: bool, i: nat) {
    match Where(s, path, 1)
    case Missing => !ok && t == s
    case Inode(j) =>
      && j < |s| && (ok <==> !excl && !full && !(write && IsDir(s[j].mode))) && (ok ==> i == j)
      && t == if excl then s else Opened(s, j, write, trunc, full)
    case Parent(d, name) =>
      && (ok ==> !full)
      && (MadeFile(s, t, d, name, i, NewMode(mode), full)
          || (!ok && (t == s || (i < |s| && s[i].mode == 0 && t == s[i := File(0, 0, 0, [], true)]))))
      && (Room(s, d, free) && !NoInode(s) ==> MadeFile(s, t, d, name, i, NewMode(mode), full) && (ok <==> !full))
  }

  /** References that close may drop: not the two the mount holds on the root. */
  ghost predicate Closable(s: seq<File>, i: nat) {
    0 < i < |s| && s[i].count > if i == ROOTINO - 1 then MOUNTREFS else 0
  }

  lemma DroppedUp(s: seq<File>, i: nat)
    requires Up(s) && Closable(s, i) && s[i].mode != 0
    ensures Up(Dropped(s, i))
    ensures Exact(s) ==> (Exact(Dropped(s, i)) <==> !(s[i].count == 1 && s[i].nlink <= 0 && !Bare(s[i])))
  {
    hide Slots, Refs, Exact, DirOk, Covered, Bare;
    if s[i].count == 1 && s[i].nlink <= 0 {
      NoLinks(s, i);
      var f := File(0, s[i].nlink, 0, [], true);
      EmptyDirOk(f);
      Clearing(s, i, f);
    } else {
      RecountGuarded(s, i, s[i].count - 1);
    }
  }

  lemma NoLinks(s: seq<File>, i: nat)
    requires Guarded(s) && i < |s| && s[i].mode != 0
    ensures s[i].nlink >= 0
  {
    hide DirOk, Refs;
  }

  /** close of an open file: one reference less; the last one to an inode without links releases it. */
  method CloseCall(vol: Volume, i: nat) returns (ok: bool)
    requires vol.Valid() && Up(vol.State())
    modifies vol, vol.fs, vol.fs.bio, vol.itab
    ensures vol.Valid() && Up(vol.State())
    ensures var s := old(vol.State());
      && (ok <==> Closable(s, i))
      && vol.State() == (if ok then Dropped(s, i) else s)
      && (Exact(s) ==> (Exact(vol.State()) <==> !(ok && s[i].count == 1 && s[i].nlink <= 0 && !Bare(s[i]))))
  {
    hide Volume.Valid, Volume.State, Guarded, Exact, Mounted, Bare;
    ok := false;
    if 0 < i < |vol.itab| {
      vol.StateAt(i);
      ok := vol.itab[i].count > if i == ROOTINO - 1 then MOUNTREFS else 0;
      if ok {
        vol.CountAt(i);
        DroppedUp(vol.State(), i);
        vol.Iput(i);
      }
    }
  }

  /** A change of the bytes of a file that is no directory. */
  lemma EditedUp(s: seq<File>, i: nat, f: File)
    requires Up(s) && i < |s| && !IsDir(s[i].mode) && f.mode == s[i].mode && f.nlink == s[i].nlink && f.count == s[i].count
    ensures Up(s[i := f]) && (Exact(s[i := f]) <==> Exact(s)) && forall a: int, n: Name :: Look(s[i := f], a, n) == Look(s, a, n)
  {
    hide Slots, Refs, DirMap, CountIn, Unique, Look;
    var t := s[i := f];
    forall x: nat
      ensures Refs(t, x, |t|) == Refs(s, x, |s|)
    {
      RefsSame(s, t, x, |s|);
    }
    SameSlack(s, t);
    forall a: int, n: Name
      ensures Look(t, a, n) == Look(s, a, n)
    {
      LookSame(s, t, a, n);
    }
  }

  /** The bytes, or as many as there was room for, are in the open file, and nothing else changes. */
  method WriteCall(vol: Volume, i: nat, off: nat, src: seq<Byte>) returns (n: nat)
    requires vol.Valid() && Up(vol.State())
    modifies vol, vol.fs, vol.fs.bio, vol.itab
    ensures vol.Valid() && Up(vol.State()) && (Exact(vol.State()) <==> Exact(old(vol.State())))
    ensures var s, t := old(vol.State()), vol.State();
      if i < |s| && s[i].count > 0 && IsFile(s[i].mode) && off + |src| <= MAXSIZE
      then n <= |src| && (n < |src| ==> vol.fs.stack == []) && t == s[i := s[i].(bytes := Splice(s[i].bytes, off, src[..n]), solid := t[i].solid)]
      else n == 0 && t == s
  {
    hide Volume.Valid, Volume.State, Guarded, Exact, Mounted, Splice;
    n := 0;
    if i < |vol.itab| && off + |src| <= MAXSIZE {
      ghost var s := vol.State();
      vol.StateAt(i);
      if vol.itab[i].count > 0 && IsFile(vol.itab[i].mode) {
        n := vol.Write(i, off, src);
        EditedUp(s, i, vol.State()[i]);
      }
    }
  }

  /** The bytes of an open file or directory in the window asked for; nothing changes. */
  method ReadCall(vol: Volume, i: nat, off: nat, count: nat) returns (out: seq<Byte>)
    requires vol.Valid() && Up(vol.State())
    modifies vol, vol.fs, vol.fs.bio, vol.itab
    ensures vol.Valid() && vol.State() == old(vol.State()) && vol.fs.stack == old(vol.fs.stack)
    ensures var s := vol.State();
      out == if i < |s| && s[i].count > 0 && HasBlocks(s[i].mode) then Window(s[i].bytes, off, count) else []
  {
    hide Volume.Valid, Volume.State, Window, Guarded, Mounted;
    out := [];
    if i < |vol.itab| {
      vol.StateAt(i);
      if vol.itab[i].count > 0 && HasBlocks(vol.itab[i].mode) {
        out := vol.Read(i, off, count);
      }
    }
  }
}
