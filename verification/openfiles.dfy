/** Files made, written and read back by their calls. */
module OpenFiles {
  import opened Blocks
  import opened BlockMap
  import opened ByteFiles
  import opened Volumes
  import opened Directories
  import opened Links
  import opened Hierarchy
  import opened Paths
  import opened Calls
  import opened TreeCalls

  /** A path that leads somewhere for creation leads there for reading too. */
  lemma {:induction false} ResolvedEither(s: seq<File>, c: seq<Name>, d: int)
    ensures Resolved(s, c, 1, d).Inode? ==> Resolved(s, c, 0, d) == Resolved(s, c, 1, d)
    decreases |c|
  {
    hide Look;
    if c != [] && 0 <= d < |s| && IsDir(s[d].mode) {
      ResolvedEither(s, c[1..], Look(s, d, c[0]) - 1);
    }
  }

  lemma WhereEither(s: seq<File>, path: seq<Byte>)
    ensures Where(s, path, 1).Inode? ==> Where(s, path, 0) == Where(s, path, 1)
  {
    hide Look, Components;
    ResolvedEither(s, Components(path, 0), ROOTINO - 1);
  }

  lemma WhereKept(s: seq<File>, t: seq<File>, path: seq<Byte>)
    requires Extends(s, t) && Where(s, path, 0).Inode?
    ensures Where(t, path, 0) == Where(s, path, 0)
  {
    hide Look, Components, Extends;
    ResolvedKept(s, t, Components(path, 0), ROOTINO - 1);
  }

  /** The path of a file that creat made leads to it. */
  lemma CreatedLeads(s: seq<File>, t: seq<File>, path: seq<Byte>, d: nat, name: Name, i: nat, mode: nat)
    requires Guarded(s) && Where(s, path, 1) == Parent(d, name) && Created(s, t, d, name, i, mode) && ROOTINO <= i + 1 && mode != 0
    ensures Where(t, path, 0) == Inode(i) && i < |t| && t[i] == File(mode, 1, 1, [], true)
  {
    hide Look, Components, Made, Slots, Vacant, Guarded, Where;
    MadeLooks(s, d, i, name, mode);
    MadeExtends(s, t, d, name, i);
    LastComponent(s, path, 1);
    var c := Components(path, 0);
    var front := c[..|c| - 1];
    assert c == front + [name];
    ResolvedKept(s, t, front, ROOTINO - 1);
    ResolvedJoin(t, front, [name], 0, ROOTINO - 1);
    OneName(t, d, name, i);
    WhereIs(t, path, c);
  }

  lemma MadeExtends(s: seq<File>, t: seq<File>, d: nat, name: Name, i: nat)
    requires Rebound(s, t, d, name, i + 1) && SameInodes(s, t, i) && Look(s, d, name) == 0 && i < |s| && s[i].mode == 0
    ensures Extends(s, t)
  {
    hide Look;
    assert !IsDir(0);
  }

  lemma OneName(t: seq<File>, d: nat, name: Name, i: nat)
    requires d < |t| && IsDir(t[d].mode) && Look(t, d, name) == i + 1
    ensures Resolved(t, [name], 0, d) == Inode(i)
  {
    hide Look;
    assert [name][1..] == [];
  }

  lemma WhereIs(t: seq<File>, path: seq<Byte>, c: seq<Name>)
    requires c == Components(path, 0)
    ensures Where(t, path, 0) == Resolved(t, c, 0, ROOTINO - 1)
  {
    hide Components, Look;
  }

  /** A change of a file's bytes and references does not change where paths lead. */
  lemma EditedLeads(s: seq<File>, t: seq<File>, i: nat, path: seq<Byte>)
    requires i < |s| && !IsDir(s[i].mode) && |t| == |s| && t == s[i := t[i]] && t[i].mode == s[i].mode && Where(s, path, 0).Inode?
    ensures Where(t, path, 0) == Where(s, path, 0)
  {
    hide Look, Where;
    forall a: int, n: Name
      ensures Look(t, a, n) == Look(s, a, n)
    {
      EditedLook(s, t, i, a, n);
    }
    assert Extends(s, t);
    WhereKept(s, t, path);
  }

  lemma EditedLook(s: seq<File>, t: seq<File>, i: nat, a: int, n: Name)
    requires i < |s| && !IsDir(s[i].mode) && |t| == |s| && t == s[i := t[i]] && t[i].mode == s[i].mode
    ensures Look(t, a, n) == Look(s, a, n)
  {
    hide Slots, DirMap, Find;
  }

  /** The open file that a creat with truncation leaves: no bytes, a reference, and the path leads to it. */
  ghost predicate Blank(t: seq<File>, path: seq<Byte>, i: nat) {
    i < |t| && t[i].bytes == [] && t[i].count > 0 && IsFile(t[i].mode) && Where(t, path, 0) == Inode(i)
  }

  lemma CreatBlank(s: seq<File>, t: seq<File>, path: seq<Byte>, mode: nat, excl: bool, full: bool, free: nat, i: nat)
    requires Up(s) && CreatDone(s, t, path, mode, excl, true, true, full, free, true, i)
    requires var r := Where(s, path, 1); r.Parent? || (r.Inode? && r.i < |s| && IsFile(s[r.i].mode))
    ensures Blank(t, path, i)
  {
    hide Where, Guarded, Mounted, Look, Created, Room, NewMode, MadeFile;
    var r := Where(s, path, 1);
    if r.Inode? {
      FilesAreNotDirs(s[i].mode);
      WhereEither(s, path);
      EditedLeads(s, t, i, path);
    } else {
      HeldNew(s, t, r.d, r.name, i, NewMode(mode), full);
      NewIsFile(mode);
      CreatedLeads(s, t, path, r.d, r.name, i, NewMode(mode));
    }
  }

  lemma HeldNew(s: seq<File>, t: seq<File>, d: nat, name: Name, i: nat, mode: nat, full: bool)
    requires Guarded(s) && !full && MadeFile(s, t, d, name, i, mode, full)
    ensures Created(s, t, d, name, i, mode) && ROOTINO <= i + 1
  {
    hide Made, Look, Slots, Vacant;
  }

  lemma FilesAreNotDirs(mode: nat)
    requires IsFile(mode)
    ensures !IsDir(mode) && HasBlocks(mode) && mode != 0
  {
  }

  lemma NewIsFile(mode: nat)
    ensures IsFile(NewMode(mode)) && NewMode(mode) != 0
  {
  }

  lemma Whole(a: seq<Byte>, n: nat)
    requires |a| <= n
    ensures Splice([], 0, a) == a && Window(a, 0, n) == a
  {
  }

  /**
   creat with truncation, write and read: what was written is what is read back, and all of it unless the volume filled
   up; and the path leads to the file.
   */
  method Save(vol: Volume, path: seq<Byte>, mode: nat, excl: bool, full: bool, src: seq<Byte>) returns (ok: bool, i: nat, n: nat, out: seq<Byte>)
    requires vol.Valid() && Up(vol.State()) && 0 !in path && |src| <= MAXSIZE
    modifies vol, vol.fs, vol.fs.bio, vol.itab
    ensures vol.Valid() && Up(vol.State())
    ensures var s, r := old(vol.State()), Where(old(vol.State()), path, 1);
      && (r.Parent? && Room(s, r.d, |old(vol.fs.stack)|) && !NoInode(s) && !full ==> ok)
      && (r.Inode? && r.i < |s| && IsFile(s[r.i].mode) && !excl && !full ==> ok && i == r.i)
      && (ok && (r.Parent? || (r.Inode? && r.i < |s| && IsFile(s[r.i].mode))) ==>
            && n <= |src| && (n < |src| ==> vol.fs.stack == []) && out == src[..n]
            && i < |vol.State()| && vol.State()[i].bytes == src[..n] && Where(vol.State(), path, 0) == Inode(i))
  {
    hide Volume.Valid, Volume.State, Guarded, Mounted, Where, Look, Exact, CreatDone, Blank, Splice, Window, Room, IsFile;
    ghost var s := vol.State();
    n, out := 0, [];
    ok, i := CreatCall(vol, path, mode, excl, true, true, full);
    ghost var t := vol.State();
    CreatOutcome(s, t, path, mode, excl, full, |old(vol.fs.stack)|, ok, i);
    if ok {
      n := WriteCall(vol, i, 0, src);
      ghost var u := vol.State();
      out := ReadCall(vol, i, 0, |src|);
      if Blank(t, path, i) {
        BlankFacts(t, path, i);
        Whole(src[..n], |src|);
        EditedLeads(t, u, i, path);
      }
    }
  }

  lemma BlankFacts(t: seq<File>, path: seq<Byte>, i: nat)
    requires Blank(t, path, i)
    ensures i < |t| && t[i].bytes == [] && t[i].count > 0 && IsFile(t[i].mode) && Where(t, path, 0) == Inode(i)
    ensures !IsDir(t[i].mode) && HasBlocks(t[i].mode)
  {
    hide Where;
    FilesAreNotDirs(t[i].mode);
  }

  lemma CreatOutcome(s: seq<File>, t: seq<File>, path: seq<Byte>, mode: nat, excl: bool, full: bool, free: nat, ok: bool, i: nat)
    requires Up(s) && CreatDone(s, t, path, mode, excl, true, true, full, free, ok, i)
    ensures var r := Where(s, path, 1);
      && (r.Parent? && Room(s, r.d, free) && !NoInode(s) && !full ==> ok)
      && (r.Inode? && r.i < |s| && IsFile(s[r.i].mode) && !excl && !full ==> ok && i == r.i)
      && (ok && (r.Parent? || (r.Inode? && r.i < |s| && IsFile(s[r.i].mode))) ==> Blank(t, path, i))
  {
    hide Where, Guarded, Mounted, Look, Room, MadeFile, Blank;
    var r := Where(s, path, 1);
    if r.Inode? && r.i < |s| && IsFile(s[r.i].mode) {
      FilesAreNotDirs(s[r.i].mode);
    }
    if ok && (r.Parent? || (r.Inode? && r.i < |s| && IsFile(s[r.i].mode))) {
      CreatBlank(s, t, path, mode, excl, full, free, i);
    }
  }
}
