/** Whole runs of calls on a mounted volume: what every run keeps, and exactly which calls break the tree of directories. */
module Runs {
  import opened Blocks
  import opened BlockMap
  import opened ByteFiles
  import opened Ownership
  import opened Volumes
  import opened Directories
  import opened Links
  import opened Hierarchy
  import opened Paths
  import opened Calls
  import opened TreeCalls
  import opened MakeFs
  import opened NewVolumes

  /** A directory in use has its "." at least. */
  lemma LiveNotBare(s: seq<File>, i: nat)
    requires Sound(s) && Live(s, i)
    ensures !Bare(s[i])
  {
    hide Look, Guarded, Exact, Rooted, Slots, Dot;
    HomedAt(s, i);
    GuardedDir(s, i);
    BareLooks(s, i);
  }

  /** A directory without links has no names any more. */
  lemma DeadBare(s: seq<File>, i: nat)
    requires Sound(s) && i < |s| && !Live(s, i)
    ensures Bare(s[i]) && forall n: Name :: Look(s, i, n) == 0
  {
    hide Look, Guarded, Exact, Rooted, Slots, Bare;
    GuardedDir(s, i);
    forall n: Name
      ensures Look(s, i, n) == 0
    {
      RootedAt(s, i, n);
    }
    BareLooks(s, i);
  }

  /** Truncation keeps a sound volume sound if and only if it is not of a directory in use. */
  lemma HollowSound(s: seq<File>, i: nat)
    requires Sound(s) && Up(s) && i < |s| && s[i].mode != 0
    ensures Sound(s[i := Hollow(s[i])]) <==> !Live(s, i)
    ensures Bare(s[i]) <==> !Live(s, i)
  {
    hide Look, Guarded, Exact, Rooted, Slots, Bare, Hollow, Live;
    HollowUp(s, i);
    if Live(s, i) {
      LiveNotBare(s, i);
    } else {
      DeadBare(s, i);
      var t := s[i := Hollow(s[i])];
      forall a: int, n: Name
        ensures Look(t, a, n) == Look(s, a, n)
      {
        LookHollow(s, i, a, n);
      }
      LiveHollow(s, i);
      RootedSame(s, t);
    }
  }

  lemma LookHollow(s: seq<File>, i: nat, a: int, n: Name)
    requires i < |s| && Look(s, i, n) == 0
    ensures Look(s[i := Hollow(s[i])], a, n) == Look(s, a, n)
  {
    hide Find;
    assert NamesIn([]) == {};
    assert Slots([]) == [];
  }

  lemma LiveHollow(s: seq<File>, i: nat)
    requires i < |s|
    ensures forall j: int :: Live(s[i := Hollow(s[i])], j) <==> Live(s, j)
  {
  }

  lemma RecountedSound(s: seq<File>, i: nat, c: nat)
    requires Linked(s) && i < |s| && s[i].mode != 0 && (c > 0 || s[i].nlink > 0)
    ensures Sound(s[i := s[i].(count := c)]) <==> Sound(s)
  {
    hide Slots, Refs, Rooted, DirMap, CountIn, Guarded, Exact, Look;
    var t := s[i := s[i].(count := c)];
    RecountGuarded(s, i, c);
    forall a: int, n: Name
      ensures Look(t, a, n) == Look(s, a, n)
    {
      LookSame(s, t, a, n);
    }
    if Rooted(s) {
      RootedSame(s, t);
    }
    if Rooted(t) {
      RootedSame(t, s);
    }
  }

  /** open1 keeps a sound volume sound if and only if it does not truncate a directory in use. */
  lemma OpenedSound(s: seq<File>, i: nat, write: bool, trunc: bool, full: bool)
    requires Sound(s) && Up(s) && i < |s| && s[i].mode != 0
    ensures Sound(Opened(s, i, write, trunc, full)) <==> !(trunc && !write && Live(s, i))
  {
    hide Guarded, Exact, Rooted, Slots, Hollow, Bare;
    HollowMode(s[i]);
    HollowSound(s, i);
    OpenedUp(s, i, write, trunc, full);
    if trunc {
      var t := s[i := Hollow(s[i])];
      if Live(s, i) {
        assert !write ==> !Exact(Opened(s, i, write, trunc, full));
      } else {
        RecountedSound(t, i, t[i].count + 1);
      }
    } else {
      RecountedSound(s, i, s[i].count + 1);
    }
  }

  /** close keeps a sound volume sound: a directory without links has no entries left to lose. */
  lemma DroppedSound(s: seq<File>, i: nat)
    requires Sound(s) && Up(s) && Closable(s, i) && s[i].mode != 0
    ensures Sound(Dropped(s, i))
  {
    hide Guarded, Exact, Rooted, Slots, Bare, Look;
    DroppedUp(s, i);
    if s[i].count == 1 && s[i].nlink <= 0 {
      DeadBare(s, i);
      var t := Dropped(s, i);
      forall a: int, n: Name
        ensures Look(t, a, n) == Look(s, a, n)
      {
        LookElse(s, i, t[i], a, n);
      }
      RootedSame(s, t);
    } else {
      RecountedSound(s, i, s[i].count - 1);
    }
  }

  lemma CreatedSound(s: seq<File>, t: seq<File>, d: nat, name: Name, i: nat, mode: nat, full: bool)
    requires Sound(s) && Live(s, d) && ROOTINO <= i + 1 && MadeFile(s, t, d, name, i, mode, full) && Spelled(name) && mode != 0 && !IsDir(mode)
    ensures Sound(t)
  {
    hide Slots, Vacant, Look, Guarded, Exact, Rooted, Spelled, DirMap, Find, Made;
    LookIsFind(s, d, name);
    MadeGuarded(s, d, i, name, mode);
    MadeLooks(s, d, i, name, mode);
    var u := if full then t[i := t[i].(count := 1)] else t;
    RootedBind(s, u, d, name, i);
    if full {
      RecountedSound(u, i, 0);
      assert t == u[i := u[i].(count := 0)];
    }
  }

  /** A new name that can be counted keeps a sound volume sound if and only if it is not a directory's. */
  lemma BoundSound(s: seq<File>, d: nat, i: nat, name: Name)
    requires Sound(s) && Live(s, d) && ROOTINO <= i + 1 <= |s| && s[i].mode != 0 && 0 < s[i].nlink < MAXLINKS && Look(s, d, name) == 0 && Spelled(name)
    ensures i + 1 < INUMS && (Sound(Bound(s, d, Vacant(Slots(s[d].bytes)), i, name)) <==> !IsDir(s[i].mode))
  {
    hide Slots, Vacant, Look, Rooted, Spelled, DirMap, Find, Bound, Guarded, Exact;
    GuardedDir(s, i);
    LookIsFind(s, d, name);
    Linking(s, d, Vacant(Slots(s[d].bytes)), i, name);
    BoundIs(s, d, Vacant(Slots(s[d].bytes)), i, name);
    LinkedLooks(s, d, i, name);
    var t := Bound(s, d, Vacant(Slots(s[d].bytes)), i, name);
    if IsDir(s[i].mode) {
      SecondName(s, t, d, name, i);
    } else {
      RootedBind(s, t, d, name, i);
    }
  }

  /** A directory cannot have two names in a tree. */
  lemma SecondName(s: seq<File>, t: seq<File>, d: nat, name: Name, i: nat)
    requires Rooted(s) && Rebound(s, t, d, name, i + 1) && Live(s, d) && Live(s, i) && Live(t, i) && Look(s, d, name) == 0
    ensures !Rooted(t)
  {
    hide Look, Live, Dot, DotDot, Spelled, Plain, Homed, Rooted;
    NotPlain(s, d, name);
    if Rooted(t) {
      RootedAt(t, d, name);
      HomedAt(s, i);
      if i + 1 != ROOTINO {
        ParentKeeps(s, i);
      }
      assert false;
    }
  }

  /** Removing a name keeps a sound volume sound if and only if it is not a directory's. */
  lemma RemovedSound(s: seq<File>, path: seq<Byte>, su: bool)
    requires Sound(s) && Removable(s, path, su)
    ensures var q := Where(s, path, 2);
      Sound(RemovedBy(s, path, su)) <==> !IsDir(s[Look(s, q.d, q.name) - 1].mode)
  {
    hide Look, Guarded, Exact, Rooted, Where, RemovedBy, Called;
    var q := Where(s, path, 2);
    var i := Look(s, q.d, q.name) - 1;
    NamedInode(s, q.d, q.name);
    SuSame(s, path, su);
    if IsDir(s[i].mode) {
      RootedAt(s, q.d, q.name);
      DirNamedTwice(s, q.d, q.name, i);
      RemovedForgets(s, path, q.d, q.name);
      LostName(s, RemovedBy(s, path, true), q.d, q.name, i);
    } else {
      NoLooks(s, i);
      RemovedForgets(s, path, q.d, q.name);
      RootedForget(s, RemovedBy(s, path, true), q.d, q.name);
    }
  }

  lemma SuSame(s: seq<File>, path: seq<Byte>, su: bool)
    requires Guarded(s) && Removable(s, path, su)
    ensures Removable(s, path, true) && RemovedBy(s, path, true) == RemovedBy(s, path, su)
  {
    hide Guarded, Look, Where, Unlinked, Find, Slots;
  }

  lemma NoLooks(s: seq<File>, i: nat)
    requires i < |s| && !IsDir(s[i].mode)
    ensures forall n: Name :: Look(s, i, n) == 0
  {
    hide DirMap, Slots;
  }

  /** In a tree a directory has two names at least: one that leads to it, and its "." or the root's "..". */
  lemma DirNamedTwice(s: seq<File>, d: nat, name: Name, i: nat)
    requires Sound(s) && Live(s, i) && Live(s, d) && Look(s, d, name) == i + 1
    ensures s[i].nlink >= 2
  {
    hide Look, Guarded, Exact, Rooted, Plain, Spelled, Dot, DotDot;
    HomedAt(s, i);
    HomedAt(s, d);
    DotsSpelled();
    if d == i && name == Dot() {
      if i + 1 == ROOTINO {
        TwoNames(s, i, Dot(), i, DotDot());
      } else {
        ParentKeeps(s, i);
        var n: Name :| Plain(n) && Look(s, Look(s, i, DotDot()) - 1, n) == i + 1;
        PlainNotDot(n);
        TwoNames(s, i, Dot(), Look(s, i, DotDot()) - 1, n);
      }
    } else {
      TwoNames(s, i, Dot(), d, name);
    }
  }

  lemma PlainNotDot(n: Name)
    requires Plain(n)
    ensures n != Dot() && n != DotDot()
  {
  }

  /** A directory that has lost a name of its own, or its name in its parent, is no longer in the tree. */
  lemma LostName(s: seq<File>, t: seq<File>, d: nat, name: Name, i: nat)
    requires Sound(s) && Forgot(s, t, d, name) && Look(s, d, name) == i + 1 && Live(s, d) && Live(s, i) && s[i].nlink >= 2
    ensures !Rooted(t)
  {
    hide Look, Guarded, Exact, Rooted, Plain, Spelled, Dot, DotDot, Called, Homed;
    DotCases(name);
    DotsSpelled();
    assert Live(t, d) && Live(t, i);
    if Rooted(t) {
      if name == Dot() || name == DotDot() {
        HomedAt(t, d);
      } else {
        RootedAt(s, d, name);
        ParentKeeps(t, i);
      }
      assert false;
    }
  }

  /** In a tree every path leads to something with links. */
  lemma WhereLive(s: seq<File>, path: seq<Byte>, flag: nat)
    requires Sound(s)
    ensures Where(s, path, flag).Inode? ==> Where(s, path, flag).i < |s| && s[Where(s, path, flag).i].mode != 0 && s[Where(s, path, flag).i].nlink > 0
    ensures Where(s, path, flag).Parent? ==> Live(s, Where(s, path, flag).d)
  {
    hide Look, Components, Guarded, Exact, Rooted;
    RootedAt(s, 0, Dot());
    DirHasBlocks(s[ROOTINO - 1].mode);
    ResolvedLive(s, Components(path, 0), flag, ROOTINO - 1);
  }

  lemma {:induction false} ResolvedLive(s: seq<File>, c: seq<Name>, flag: nat, d: nat)
    requires Guarded(s) && d < |s| && s[d].mode != 0 && s[d].nlink > 0
    ensures var r := Resolved(s, c, flag, d);
      && (r.Inode? ==> r.i < |s| && s[r.i].mode != 0 && s[r.i].nlink > 0)
      && (r.Parent? ==> Live(s, r.d))
    decreases |c|
  {
    hide Look, Guarded;
    if c != [] && IsDir(s[d].mode) && Look(s, d, c[0]) > 0 {
      NamedInode(s, d, c[0]);
      ResolvedLive(s, c[1..], flag, Look(s, d, c[0]) - 1);
    }
  }

  /** The names on a path are zero-padded. */
  lemma WhereSpelled(s: seq<File>, path: seq<Byte>, flag: nat)
    requires 0 !in path && Where(s, path, flag).Parent?
    ensures Spelled(Where(s, path, flag).name)
  {
    hide Look, Components, Spelled, Where;
    LastComponent(s, path, flag);
    ComponentsSpelled(path, 0);
  }

  lemma {:induction false} ComponentsSpelled(path: seq<Byte>, k: nat)
    requires 0 !in path && k <= |path|
    ensures forall j :: 0 <= j < |Components(path, k)| ==> Spelled(Components(path, k)[j])
    decreases |path| - k
  {
    hide Spelled, NameOf;
    if k < |path| {
      if path[k] == SLASH {
        ComponentsSpelled(path, k + 1);
      } else {
        NameSpelled(path[k..End(path, k)]);
        ComponentsSpelled(path, End(path, k));
      }
    }
  }

  /**
   The calls.  An open file is named by its inode; su says whether link and unlink are the superuser's, and full that
   no descriptor is free.
   */
  datatype Call =
    | Open(path: seq<Byte>, write: bool, trunc: bool, full: bool)
    | Creat(path: seq<Byte>, mode: nat, excl: bool, write: bool, trunc: bool, full: bool)
    | Close(i: nat)
    | Write(i: nat, off: nat, src: seq<Byte>)
    | Read(i: nat, off: nat, count: nat)
    | Truncate(path: seq<Byte>, length: nat)
    | MakeLink(target: seq<Byte>, path: seq<Byte>, su: bool)
    | Remove(path: seq<Byte>, su: bool)
    | MakeDir(path: seq<Byte>)
    | RemoveDir(path: seq<Byte>, full: bool)

  /** A C string has no zero byte inside. */
  predicate Spoken(call: Call) {
    match call
    case Open(path, _, _, _) => 0 !in path
    case Creat(path, _, _, _, _, _) => 0 !in path
    case Truncate(path, _) => 0 !in path
    case MakeLink(target, path, _) => 0 !in target && 0 !in path
    case Remove(path, _) => 0 !in path
    case MakeDir(path) => 0 !in path
    case RemoveDir(path, _) => 0 !in path
    case _ => true
  }

  /** The first n bytes are in the file, where it can be written. */
  ghost predicate WroteSome(s: seq<File>, t: seq<File>, i: nat, off: nat, src: seq<Byte>, n: nat) {
    && i < |s| == |t| && n <= |src|
    && t == s[i := s[i].(bytes := Splice(s[i].bytes, off, src[..n]), solid := t[i].solid)]
  }

  /** What each call makes of the files, with so many blocks free before it and so many left. */
  ghost predicate Does(s: seq<File>, t: seq<File>, call: Call, free: nat, left: nat)
    requires Up(s)
  {
    if !Spoken(call) then t == s
    else match call
      case Open(path, write, trunc, full) =>
        var r := Where(s, path, 0);
        t == if r.Inode? && r.i < |s| then Opened(s, r.i, write, trunc, full) else s
      case Creat(path, mode, excl, write, trunc, full) =>
        exists ok: bool, i: nat :: CreatDone(s, t, path, mode, excl, write, trunc, full, free, ok, i)
      case Close(i) => t == if Closable(s, i) then Dropped(s, i) else s
      case Write(i, off, src) =>
        if i < |s| && s[i].count > 0 && IsFile(s[i].mode) && off + |src| <= MAXSIZE
        then exists n: nat :: WroteSome(s, t, i, off, src, n) && (n < |src| ==> left == 0)
        else t == s
      case Read(_, _, _) => t == s
      case Truncate(path, length) =>
        var r := Where(s, path, 0);
        t == if r.Inode? && r.i < |s| && length == 0 then s[r.i := Hollow(s[r.i])] else s
      case MakeLink(target, path, su) =>
        if Linkable(s, target, path, su)
        then t == LinkedBy(s, target, path, su) || (t == s && !Room(s, Where(s, path, 1).d, free))
        else t == s
      case Remove(path, su) => t == if Removable(s, path, su) then RemovedBy(s, path, su) else s
      case MakeDir(path) => Sound(s) ==> MkdirLost(s, t, path) || exists ok: bool, i: nat :: MkdirDone(s, t, path, free, ok, i)
      case RemoveDir(path, full) => Sound(s) ==> exists ok: bool :: RmdirDone(s, t, path, full, ok)
  }

  /** The inode a call with truncation would empty is a directory in use. */
  ghost predicate Guts(s: seq<File>, r: Target) {
    r.Inode? && Live(s, r.i)
  }

  /** Calls that keep the directories of a sound volume a tree, unless a link count wraps round. */
  ghost predicate Tame(s: seq<File>, call: Call) {
    match call
    case Open(path, write, trunc, _) => !(trunc && !write && Guts(s, Where(s, path, 0)))
    case Creat(path, _, excl, write, trunc, _) => !(trunc && !write && !excl && Guts(s, Where(s, path, 1)))
    case Truncate(path, length) => !(length == 0 && Guts(s, Where(s, path, 0)))
    case MakeLink(target, path, su) => !(Linkable(s, target, path, su) && IsDir(s[Where(s, target, 0).i].mode))
    case Remove(path, su) => !(Removable(s, path, su) && IsDir(s[Look(s, Where(s, path, 2).d, Where(s, path, 2).name) - 1].mode))
    case RemoveDir(path, full) => !(!full && RmdirTarget(s, path) && Loops(s, path))
    case _ => true
  }

  /** Calls that would give an inode one link more than it can count. */
  ghost predicate Overflows(s: seq<File>, call: Call) {
    match call
    case MakeLink(target, path, su) => Linkable(s, target, path, su) && Brimful(s, Where(s, target, 0))
    case MakeDir(path) => Where(s, path, 1).Parent? && Brimful(s, Where(s, Dirname(path), 0))
    case _ => false
  }

  /** The call failed before the count could wrap round, and left every name and link as it was. */
  ghost predicate Spared(s: seq<File>, t: seq<File>, call: Call) {
    if call.MakeDir? then Sound(s) ==> SameTree(s, t) else t == s
  }

  /**
   A call on a volume that is up leaves it up, unless it gave an inode one link more than it can count: then lost.  The
   directories stay a tree with exact counts exactly if the call was not lost, and was tame or changed nothing.
   */
  ghost predicate Follows(s: seq<File>, t: seq<File>, call: Call, free: nat, left: nat, lost: bool) {
    && Up(s) && Does(s, t, call, free, left)
    && (if lost then Overflows(s, call) && !Guarded(t) else Up(t) && (Overflows(s, call) ==> Spared(s, t, call)))
    && (Sound(s) ==> (Sound(t) <==> !lost && (Tame(s, call) || t == s)))
  }

  method StepOpen(vol: Volume, path: seq<Byte>, write: bool, trunc: bool, full: bool)
    requires vol.Valid() && Up(vol.State()) && 0 !in path
    modifies vol, vol.fs, vol.fs.bio, vol.itab
    ensures vol.Valid() && Follows(old(vol.State()), vol.State(), Open(path, write, trunc, full), |old(vol.fs.stack)|, |vol.fs.stack|, false)
  {
    hide Volume.Valid, Volume.State, Guarded, Mounted, Exact, Rooted, Where, Live, Opened;
    ghost var s := vol.State();
    var ok := OpenCall(vol, path, write, trunc, full);
    if Sound(s) {
      WhereLive(s, path, 0);
      OpenTame(s, Where(s, path, 0), write, trunc, full);
    }
  }

  lemma OpenTame(s: seq<File>, r: Target, write: bool, trunc: bool, full: bool)
    requires Sound(s) && Up(s) && (r.Inode? ==> r.i < |s| && s[r.i].mode != 0)
    ensures r.Inode? ==> (Sound(Opened(s, r.i, write, trunc, full)) <==> !(trunc && !write && Guts(s, r)))
  {
    hide Guarded, Exact, Rooted, Live, Opened;
    if r.Inode? {
      OpenedSound(s, r.i, write, trunc, full);
    }
  }

  method StepCreat(vol: Volume, path: seq<Byte>, mode: nat, excl: bool, write: bool, trunc: bool, full: bool)
    requires vol.Valid() && Up(vol.State()) && 0 !in path
    modifies vol, vol.fs, vol.fs.bio, vol.itab
    ensures vol.Valid() && Follows(old(vol.State()), vol.State(), Creat(path, mode, excl, write, trunc, full), |old(vol.fs.stack)|, |vol.fs.stack|, false)
  {
    hide Volume.Valid, Volume.State, Guarded, Mounted, Exact, Rooted, Where, Live, Room, CreatDone, Opened;
    ghost var s := vol.State();
    var ok, i := CreatCall(vol, path, mode, excl, write, trunc, full);
    if Sound(s) {
      CreatTame(s, vol.State(), path, mode, excl, write, trunc, full, |old(vol.fs.stack)|, ok, i);
    }
  }

  lemma CreatTame(s: seq<File>, t: seq<File>, path: seq<Byte>, mode: nat, excl: bool, write: bool, trunc: bool, full: bool, free: nat, ok: bool, i: nat)
    requires Sound(s) && Up(s) && Up(t) && 0 !in path && CreatDone(s, t, path, mode, excl, write, trunc, full, free, ok, i)
    ensures Sound(t) <==> Tame(s, Creat(path, mode, excl, write, trunc, full)) || t == s
  {
    hide Guarded, Mounted, Exact, Rooted, Where, Live, Room, Spelled, MadeFile, Opened, NewMode;
    var q := Where(s, path, 1);
    WhereLive(s, path, 1);
    OpenTame(s, q, write, trunc, full);
    if q.Parent? {
      if MadeFile(s, t, q.d, q.name, i, NewMode(mode), full) {
        WhereSpelled(s, path, 1);
        MadeNumber(s, t, q.d, q.name, i, NewMode(mode), full);
        NewModeFile(mode);
        CreatedSound(s, t, q.d, q.name, i, NewMode(mode), full);
      } else {
        FreedSound(s, t, i);
      }
    }
  }

  lemma NewModeFile(mode: nat)
    ensures NewMode(mode) != 0 && !IsDir(NewMode(mode))
  {
  }

  lemma MadeNumber(s: seq<File>, t: seq<File>, d: nat, name: Name, i: nat, mode: nat, full: bool)
    requires Guarded(s) && MadeFile(s, t, d, name, i, mode, full)
    ensures ROOTINO <= i + 1
  {
    hide Slots, Vacant, Look, Made;
  }

  lemma FreedSound(s: seq<File>, t: seq<File>, i: nat)
    requires Sound(s) && Guarded(t) && (t == s || (i < |s| && s[i].mode == 0 && t == s[i := File(0, 0, 0, [], true)]))
    ensures Sound(t)
  {
    hide Guarded, Exact, Look, Rooted;
    if t != s {
      FreedExact(s, i);
    }
    NoBud(s, t, i);
  }

  lemma FreedExact(s: seq<File>, i: nat)
    requires Guarded(s) && i < |s| && s[i].mode == 0
    ensures Exact(s[i := File(0, 0, 0, [], true)]) <==> Exact(s)
  {
    hide Exact, Covered, DirOk;
    NewInode(s, i, File(0, 0, 0, [], true));
  }

  method StepClose(vol: Volume, i: nat)
    requires vol.Valid() && Up(vol.State())
    modifies vol, vol.fs, vol.fs.bio, vol.itab
    ensures vol.Valid() && Follows(old(vol.State()), vol.State(), Close(i), |old(vol.fs.stack)|, |vol.fs.stack|, false)
  {
    hide Volume.Valid, Volume.State, Guarded, Mounted, Exact, Rooted, Bare, Dropped;
    ghost var s := vol.State();
    if i < |vol.itab| && vol.itab[i].count > 0 {
      vol.CountAt(i);
    }
    if i < |vol.itab| {
      vol.StateAt(i);
    }
    var ok := CloseCall(vol, i);
    if ok && Sound(s) {
      DroppedSound(s, i);
    }
  }

  method StepWrite(vol: Volume, i: nat, off: nat, src: seq<Byte>)
    requires vol.Valid() && Up(vol.State())
    modifies vol, vol.fs, vol.fs.bio, vol.itab
    ensures vol.Valid() && Follows(old(vol.State()), vol.State(), Write(i, off, src), |old(vol.fs.stack)|, |vol.fs.stack|, false)
  {
    hide Volume.Valid, Volume.State, Guarded, Mounted, Exact, Rooted, Look, Splice;
    ghost var s := vol.State();
    var n := WriteCall(vol, i, off, src);
    ghost var t := vol.State();
    if i < |s| && s[i].count > 0 && IsFile(s[i].mode) && off + |src| <= MAXSIZE {
      assert WroteSome(s, t, i, off, src, n);
      EditedUp(s, i, t[i]);
      if Sound(s) {
        RootedSame(s, t);
      }
    }
  }

  method StepTruncate(vol: Volume, path: seq<Byte>, length: nat)
    requires vol.Valid() && Up(vol.State()) && 0 !in path
    modifies vol, vol.fs, vol.fs.bio, vol.itab
    ensures vol.Valid() && Follows(old(vol.State()), vol.State(), Truncate(path, length), |old(vol.fs.stack)|, |vol.fs.stack|, false)
  {
    hide Volume.Valid, Volume.State, Guarded, Mounted, Exact, Rooted, Where, Live, Bare, Hollow;
    ghost var s := vol.State();
    var ok := TruncateCall(vol, path, length);
    if Sound(s) {
      WhereLive(s, path, 0);
      if ok {
        HollowSound(s, Where(s, path, 0).i);
      }
    }
  }

  method StepLink(vol: Volume, target: seq<Byte>, path: seq<Byte>, su: bool) returns (lost: bool)
    requires vol.Valid() && Up(vol.State()) && 0 !in target && 0 !in path
    modifies vol, vol.fs, vol.fs.bio, vol.itab
    ensures vol.Valid() && Follows(old(vol.State()), vol.State(), MakeLink(target, path, su), |old(vol.fs.stack)|, |vol.fs.stack|, lost)
  {
    hide Volume.Valid, Volume.State, Guarded, Mounted, Exact, Rooted, Where, Live, Bound, Room, Spelled, Slots, Vacant, Look, Overrun;
    ghost var s := vol.State();
    var ok;
    ok, lost := LinkCall(vol, target, path, su);
    if Sound(s) && ok && !lost {
      WhereLive(s, target, 0);
      WhereLive(s, path, 1);
      WhereSpelled(s, path, 1);
      NotThere(s, path);
      ghost var r, q := Where(s, target, 0), Where(s, path, 1);
      GuardedDir(s, r.i);
      BoundSound(s, q.d, r.i, q.name);
    }
  }

  /** Where a name can be entered it is missing. */
  lemma NotThere(s: seq<File>, path: seq<Byte>)
    requires Where(s, path, 1).Parent?
    ensures Look(s, Where(s, path, 1).d, Where(s, path, 1).name) == 0
  {
    hide Look, Components;
    ResolvedOne(s, Components(path, 0), ROOTINO - 1);
  }

  lemma {:induction false} ResolvedOne(s: seq<File>, c: seq<Name>, d: int)
    ensures Resolved(s, c, 1, d).Parent? ==> Look(s, Resolved(s, c, 1, d).d, Resolved(s, c, 1, d).name) == 0
    decreases |c|
  {
    hide Look;
    if c != [] && 0 <= d < |s| && IsDir(s[d].mode) {
      ResolvedOne(s, c[1..], Look(s, d, c[0]) - 1);
    }
  }

  method StepRemove(vol: Volume, path: seq<Byte>, su: bool)
    requires vol.Valid() && Up(vol.State()) && 0 !in path
    modifies vol, vol.fs, vol.fs.bio, vol.itab
    ensures vol.Valid() && Follows(old(vol.State()), vol.State(), Remove(path, su), |old(vol.fs.stack)|, |vol.fs.stack|, false)
  {
    hide Volume.Valid, Volume.State, Guarded, Mounted, Exact, Rooted, Where, RemovedBy, Look, Strands;
    ghost var s := vol.State();
    var ok := UnlinkCall(vol, path, su);
    if Sound(s) && ok {
      RemovedSound(s, path, su);
    }
  }

  method StepMkdir(vol: Volume, path: seq<Byte>) returns (lost: bool)
    requires vol.Valid() && Up(vol.State()) && 0 !in path
    modifies vol, vol.fs, vol.fs.bio, vol.itab
    ensures vol.Valid() && Follows(old(vol.State()), vol.State(), MakeDir(path), |old(vol.fs.stack)|, |vol.fs.stack|, lost)
  {
    hide Volume.Valid, Volume.State, Guarded, Mounted, Exact, Rooted, Where, Grew, SameTree, Room, Live, NoInode, Overrun, Dirname;
    ghost var s := vol.State();
    var ok, i;
    ok, i, lost := MkdirCall(vol, path);
    if Sound(s) && !lost && Overflows(s, MakeDir(path)) {
      BrimfulParent(s, path);
    }
  }

  /** In a tree, the inode that gets a link from mkdir is the parent. */
  lemma BrimfulParent(s: seq<File>, path: seq<Byte>)
    requires Sound(s) && Where(s, path, 1).Parent?
    ensures Where(s, Dirname(path), 0) == Inode(Where(s, path, 1).d)
  {
    hide Guarded, Exact, Rooted, Where, Dirname, Components, Look;
    LastComponent(s, path, 1);
    DirnameLeads(s, path, Where(s, path, 1).d);
  }

  method StepRmdir(vol: Volume, path: seq<Byte>, full: bool)
    requires vol.Valid() && Up(vol.State()) && 0 !in path
    modifies vol, vol.fs, vol.fs.bio, vol.itab
    ensures vol.Valid() && Follows(old(vol.State()), vol.State(), RemoveDir(path, full), |old(vol.fs.stack)|, |vol.fs.stack|, false)
  {
    hide Volume.Valid, Volume.State, Guarded, Mounted, Exact, Rooted, Where, RmdirTarget, Live, Pruned, Forgot;
    var ok := RmdirCall(vol, path, full);
  }

  /** One call.  A call that cannot be done, or that runs out of space, inodes or descriptors, is an ordinary case. */
  method Step(vol: Volume, call: Call) returns (lost: bool)
    requires vol.Valid() && Up(vol.State())
    modifies vol, vol.fs, vol.fs.bio, vol.itab
    ensures vol.Valid() && Follows(old(vol.State()), vol.State(), call, |old(vol.fs.stack)|, |vol.fs.stack|, lost)
  {
    hide Volume.Valid, Volume.State, Up, Sound, Where, Follows;
    lost := false;
    if !Spoken(call) {
      Unspoken(vol.State(), call, |vol.fs.stack|, |vol.fs.stack|);
      return;
    }
    match call {
      case Open(path, write, trunc, full) => StepOpen(vol, path, write, trunc, full);
      case Creat(path, mode, excl, write, trunc, full) => StepCreat(vol, path, mode, excl, write, trunc, full);
      case Close(i) => StepClose(vol, i);
      case Write(i, off, src) => StepWrite(vol, i, off, src);
      case Read(i, off, count) =>
        ghost var s, free := vol.State(), |vol.fs.stack|;
        var out := ReadCall(vol, i, off, count);
        JustRead(s, i, off, count, free, |vol.fs.stack|);
      case Truncate(path, length) => StepTruncate(vol, path, length);
      case MakeLink(target, path, su) => lost := StepLink(vol, target, path, su);
      case Remove(path, su) => StepRemove(vol, path, su);
      case MakeDir(path) => lost := StepMkdir(vol, path);
      case RemoveDir(path, full) => StepRmdir(vol, path, full);
    }
  }

  lemma Unspoken(s: seq<File>, call: Call, free: nat, left: nat)
    requires Up(s) && !Spoken(call)
    ensures Follows(s, s, call, free, left, false)
  {
    hide Up, Sound, Where, Linkable, Removable, Look;
  }

  lemma JustRead(s: seq<File>, i: nat, off: nat, count: nat, free: nat, left: nat)
    requires Up(s)
    ensures Follows(s, s, Read(i, off, count), free, left, false)
  {
    hide Up, Sound, Where;
  }

  /** Every block in circulation is free once, or at one place in one file's tree: never both, never neither, never twice. */
  ghost predicate EachOnce(vol: Volume)
    reads vol, vol.fs, vol.fs.bio, vol.itab
    requires vol.Valid()
  {
    Accounted(vol.fs.bio.view, vol.fs.stack, vol.Vals(), vol.circ)
  }

  ghost predicate Accounted(v: seq<Block>, st: seq<nat>, fv: seq<FileVal>, circ: multiset<nat>)
    requires Shaped(fv)
  {
    forall b: nat :: b in circ <==>
      (multiset(st)[b] == 1 && NoOwner(v, fv, b)) || (b !in st && OneOwner(v, fv, b))
  }

  ghost predicate NoOwner(v: seq<Block>, fv: seq<FileVal>, b: nat)
    requires Shaped(fv)
  {
    forall i :: 0 <= i < |fv| ==> b !in Own(v, fv[i])
  }

  ghost predicate OneOwner(v: seq<Block>, fv: seq<FileVal>, b: nat)
    requires Shaped(fv)
  {
    exists i :: 0 <= i < |fv| && Own(v, fv[i])[b] == 1 && forall j :: 0 <= j < |fv| && j != i ==> b !in Own(v, fv[j])
  }

  lemma BalancedAccounts(v: seq<Block>, st: seq<nat>, fv: seq<FileVal>, circ: multiset<nat>)
    requires Balanced(v, st, fv, circ)
    ensures Accounted(v, st, fv, circ)
  {
    hide Own, Total;
    forall b: nat
      ensures b in circ <==> (multiset(st)[b] == 1 && NoOwner(v, fv, b)) || (b !in st && OneOwner(v, fv, b))
    {
      EachBlockOnce(v, st, fv, circ, b);
    }
  }

  /** The files between two calls, and the number of free blocks. */
  datatype Moment = Moment(files: seq<File>, free: nat)

  /** What a run of calls goes through: each moment follows from the one before by its call; only the last call may be lost. */
  ghost predicate Trace(ms: seq<Moment>, calls: seq<Call>, lost: bool) {
    && |ms| == |calls| + 1 && (lost ==> calls != []) && (!lost ==> Up(ms[|calls|].files))
    && forall k :: 0 <= k < |calls| ==> Follows(ms[k].files, ms[k + 1].files, calls[k], ms[k].free, ms[k + 1].free, lost && k == |calls| - 1)
  }

  /**
   Over every run of calls, each block in circulation keeps exactly one owner; and up to the first call that gives an
   inode one link more than it can count, no entry names a free inode, no inode has fewer links than entries, inodes
   without links or references are free, and each call does what it should to the files, and keeps the directories a
   tree with exact link counts if and only if it is tame or changes nothing.  The run ends with such a call, lost.
   */
  method Run(vol: Volume, calls: seq<Call>) returns (n: nat, lost: bool, ghost ms: seq<Moment>)
    requires vol.Valid() && Up(vol.State())
    modifies vol, vol.fs, vol.fs.bio, vol.itab
    ensures vol.Valid() && EachOnce(vol) && n <= |calls| && (!lost ==> n == |calls|) && Trace(ms, calls[..n], lost)
    ensures ms[0].files == old(vol.State()) && ms[n].files == vol.State()
  {
    n, lost, ms := RunSteps(vol, calls);
    BalancedAccounts(vol.fs.bio.view, vol.fs.stack, vol.Vals(), vol.circ);
  }

  method RunSteps(vol: Volume, calls: seq<Call>) returns (n: nat, lost: bool, ghost ms: seq<Moment>)
    requires vol.Valid() && Up(vol.State())
    modifies vol, vol.fs, vol.fs.bio, vol.itab
    ensures vol.Valid() && n <= |calls| && (!lost ==> n == |calls|) && Trace(ms, calls[..n], lost)
    ensures ms[0].files == old(vol.State()) && ms[n].files == vol.State()
  {
    hide Volume.Valid, Volume.State, Up, Follows;
    ms := [Moment(vol.State(), |vol.fs.stack|)];
    n, lost := 0, false;
    while n < |calls| && !lost
      invariant vol.Valid() && n <= |calls| && Trace(ms, calls[..n], lost)
      invariant ms[0].files == old(vol.State()) && ms[n] == Moment(vol.State(), |vol.fs.stack|)
      decreases |calls| - n
    {
      ghost var before := ms;
      lost := Step(vol, calls[n]);
      ms := ms + [Moment(vol.State(), |vol.fs.stack|)];
      assert calls[..n + 1] == calls[..n] + [calls[n]];
      StillUp(before[n].files, vol.State(), calls[n], before[n].free, |vol.fs.stack|, lost);
      n := n + 1;
    }
  }

  lemma StillUp(s: seq<File>, t: seq<File>, call: Call, free: nat, left: nat, lost: bool)
    requires Follows(s, t, call, free, left, lost)
    ensures !lost ==> Up(t)
  {
  }

  /** A run of tame calls that overflow no count, on a sound volume, is not lost and leaves it sound. */
  lemma {:induction false} TameRun(ms: seq<Moment>, calls: seq<Call>, lost: bool, n: nat)
    requires Trace(ms, calls, lost) && Sound(ms[0].files) && n <= |calls|
    requires forall k :: 0 <= k < n ==> Tame(ms[k].files, calls[k]) && !Overflows(ms[k].files, calls[k])
    ensures Sound(ms[n].files) && (n == |calls| ==> !lost)
  {
    hide Up, Sound, Tame, Overflows, Does;
    if n > 0 {
      TameRun(ms, calls, lost, n - 1);
      var k := n - 1;
      assert Follows(ms[k].files, ms[k + 1].files, calls[k], ms[k].free, ms[k + 1].free, lost && k == |calls| - 1);
    }
  }

  /** v7fs_init: two references to the root. */
  method Mount(vol: Volume)
    requires vol.Valid() && Sound(vol.State())
    modifies vol.itab
    ensures vol.Valid() && Sound(vol.State()) && Up(vol.State())
    ensures vol.State() == old(vol.State())[ROOTINO - 1 := old(vol.State())[ROOTINO - 1].(count := old(vol.State())[ROOTINO - 1].count + MOUNTREFS)]
  {
    hide Volume.Valid, Volume.State, Guarded, Exact, Rooted;
    ghost var s := vol.State();
    RootedAt(s, 0, Dot());
    GuardedDir(s, ROOTINO - 1);
    DirHasBlocks(s[ROOTINO - 1].mode);
    RecountedSound(s, ROOTINO - 1, s[ROOTINO - 1].count + MOUNTREFS);
    vol.Iget(ROOTINO - 1);
    vol.Iget(ROOTINO - 1);
    assert vol.State() == s[ROOTINO - 1 := s[ROOTINO - 1].(count := s[ROOTINO - 1].count + MOUNTREFS)];
  }

  /** Truncating any directory in use loses count: its "." is gone, and its link stays. */
  lemma TruncateLosesCount(s: seq<File>, path: seq<Byte>)
    requires Sound(s) && Up(s) && Guts(s, Where(s, path, 0))
    ensures !Exact(s[Where(s, path, 0).i := Hollow(s[Where(s, path, 0).i])])
  {
    hide Guarded, Exact, Rooted, Where, Live, Bare, Hollow;
    WhereLive(s, path, 0);
    HollowUp(s, Where(s, path, 0).i);
    HollowSound(s, Where(s, path, 0).i);
  }

  /** Unlinking a new directory's "." and then its name releases it with its ".." live, and its parent keeps a link too many. */
  lemma UnlinkLosesCount(s: seq<File>, t: seq<File>, path: seq<Byte>, p: nat, name: Name, i: nat)
    requires Sound(t) && Where(s, path, 1) == Parent(p, name) && Grew(s, t, p, name, i)
    ensures Removable(t, WithDot(path), true)
    ensures var u := RemovedBy(t, WithDot(path), true);
      && Linked(u) && Removable(u, path, true) && Strands(u, path, true) && !Exact(RemovedBy(u, path, true))
  {
    hide Guarded, Exact, Rooted, Where, Look, Dot, DotDot, RemovedBy, Components, Called, Removable, Strands;
    BuddingReached(s, t, path, p, name, i, i + 1, p + 1);
    ReachedPaths(t, path, p, name, i);
    RemovedForgets(t, WithDot(path), i, Dot());
    DotsSpelled();
    var u := RemovedBy(t, WithDot(path), true);
    BuddingOnce(s, t, path, p, name, i);
    StillReached(t, u, path, p, name, i);
    ReachedPaths(u, path, p, name, i);
    Stranded(u, path, p, name, i);
  }

  /** The path of a new directory did not lead through it before it was made, and does not now. */
  lemma BuddingOnce(s: seq<File>, t: seq<File>, path: seq<Byte>, p: nat, name: Name, i: nat)
    requires Where(s, path, 1) == Parent(p, name) && Budding(s, t, p, name, i, i + 1, p + 1)
    ensures !Through(t, Components(path, 0), ROOTINO - 1, i)
  {
    hide Look, Components, Where, Dot, DotDot, Budding;
    LastComponent(s, path, 1);
    BuddingExtends(s, t, p, name, i, i + 1, p + 1);
    BuddingNew(s, t, p, name, i);
    var c := Components(path, 0);
    NotThrough(s, t, c[..|c| - 1], name, ROOTINO - 1, p, i);
    assert c == c[..|c| - 1] + [name];
  }

  lemma BuddingNew(s: seq<File>, t: seq<File>, p: nat, name: Name, i: nat)
    requires Budding(s, t, p, name, i, i + 1, p + 1)
    ensures |s| == |t| && i < |s| && p < |s| && i != p && !IsDir(s[i].mode)
  {
    hide Look;
  }

  lemma {:induction false} NotThrough(s: seq<File>, t: seq<File>, c: seq<Name>, last: Name, d: int, p: nat, i: nat)
    requires Extends(s, t) && Resolved(s, c, 0, d) == Inode(p) && p < |s| && IsDir(s[p].mode) && i < |s| && !IsDir(s[i].mode)
    ensures !Through(t, c + [last], d, i)
    decreases |c|
  {
    hide Look;
    assert (c + [last])[0] == if c == [] then last else c[0];
    if c == [] {
      assert (c + [last])[1..] == [];
    } else {
      assert (c + [last])[1..] == c[1..] + [last];
      NotNegative(s, c[1..], Look(s, d, c[0]) - 1);
      NotThrough(s, t, c[1..], last, Look(s, d, c[0]) - 1, p, i);
    }
  }

  lemma Stranded(u: seq<File>, path: seq<Byte>, p: nat, name: Name, i: nat)
    requires Linked(u) && Where(u, path, 2) == Parent(p, name) && p < |u| && IsDir(u[p].mode) && Look(u, p, name) == i + 1 && i != p
    requires i < |u| && IsDir(u[i].mode) && u[i].nlink == 1 && u[i].count == 0 && Look(u, i, DotDot()) > 0
    ensures Removable(u, path, true) && Strands(u, path, true) && !Exact(RemovedBy(u, path, true))
  {
    hide Exact, Where, Look, DotDot, Slots, Find, DirMap, Splice, Dent, Unique, Covered;
    LookIsFind(u, p, name);
    var k := Find(Slots(u[p].bytes), name);
    UnlinkExact(u, p, k);
    LookIsFind(u, i, DotDot());
  }

  /** The path "/d", as bytes. */
  const D: seq<Byte> := [47, 100]

  lemma PathD()
    ensures Components(D, 0) == [NameOf([100])] && Plain(NameOf([100]))
  {
    ComponentsJoin([], [100], 0);
    assert [] + [SLASH] + [100] == D;
    OneComponent([100]);
    assert NameOf([100])[0] == 100 && Dot()[0] == 46 && DotDot()[0] == 46;
  }

  /** In a new volume "/d" is a missing name in the root. */
  lemma FreshD(s: seq<File>)
    requires Sound(s) && forall n: Name :: Plain(n) ==> Look(s, ROOTINO - 1, n) == 0
    ensures Where(s, D, 1) == Parent(ROOTINO - 1, NameOf([100])) && Live(s, ROOTINO - 1)
  {
    hide Look, Components, Guarded, Exact, Rooted, NameOf, Plain;
    PathD();
    RootedAt(s, 0, Dot());
    ResolvedStep(s, [NameOf([100])], 1, ROOTINO - 1, NameOf([100]), []);
  }

  /** A new volume with a directory "/d". */
  method WithDirectory(image: seq<Block>) returns (vol: Volume, ghost s: seq<File>, i: nat)
    requires |image| >= 100
    ensures fresh(vol) && fresh(vol.fs) && fresh(vol.fs.bio) && (forall j :: 0 <= j < |vol.itab| ==> fresh(vol.itab[j]))
    ensures vol.Valid() && Up(vol.State()) && Sound(vol.State()) && Sound(s)
    ensures Where(s, D, 1) == Parent(ROOTINO - 1, NameOf([100])) && Grew(s, vol.State(), ROOTINO - 1, NameOf([100]), i) && Live(vol.State(), i)
  {
    hide Volume.Valid, Volume.State, Guarded, Exact, Rooted, Where, Look, Grew, Circulates, Live, NameOf, SameTree, Mounted;
    var v, _ := Mkfs(image, 100, 1, 0, 0);
    vol := v;
    ghost var s0 := vol.State();
    FreshFacts(s0);
    Mount(vol);
    s := vol.State();
    MountedFacts(s0, s);
    FreshD(s);
    RoomD(s, |vol.fs.stack|);
    DNotNul();
    var ok;
    var lost;
    ok, i, lost := MkdirCall(vol, D);
  }

  lemma FreshFacts(s: seq<File>)
    requires Fresh(s)
    ensures forall n: Name :: Plain(n) ==> Look(s, ROOTINO - 1, n) == 0
    ensures |s| >= ROOTINO && s[ROOTINO - 1].nlink == 2 && |s[ROOTINO - 1].bytes| == 2 * DENT && (|s| > ROOTINO ==> s[ROOTINO].mode == 0)
  {
    hide Look, Plain;
    forall n: Name | Plain(n)
      ensures Look(s, ROOTINO - 1, n) == 0
    {
      FreshLook(s, ROOTINO - 1, n);
    }
  }

  lemma MountedFacts(s: seq<File>, t: seq<File>)
    requires ROOTINO <= |s| && t == s[ROOTINO - 1 := s[ROOTINO - 1].(count := s[ROOTINO - 1].count + MOUNTREFS)]
    ensures forall a: int, n: Name :: Look(t, a, n) == Look(s, a, n)
  {
    hide DirMap, Slots;
  }

  lemma RoomD(s: seq<File>, free: nat)
    requires ROOTINO < |s| <= INUMS && s[ROOTINO - 1].nlink == 2 && |s[ROOTINO - 1].bytes| == 2 * DENT && s[ROOTINO].mode == 0 && free > 12
    ensures Room(s, ROOTINO - 1, free) && !NoInode(s)
  {
  }

  /** From mkfs, by mkdir "/d" and the superuser's unlink of "/d/." and "/d": a volume whose root has a link too many. */
  method UnlinkWitness(image: seq<Block>) returns (vol: Volume)
    requires |image| >= 100
    ensures vol.Valid() && Up(vol.State()) && !Exact(vol.State())
  {
    hide Volume.Valid, Volume.State, Guarded, Exact, Rooted, Where, Look, Grew, Live, NameOf, Mounted, RemovedBy, Removable, Strands;
    ghost var s;
    var i;
    vol, s, i := WithDirectory(image);
    DNotNul();
    UnlinkLosesCount(s, vol.State(), D, ROOTINO - 1, NameOf([100]), i);
    var ok := UnlinkCall(vol, WithDot(D), true);
    ok := UnlinkCall(vol, D, true);
  }

  lemma DNotNul()
    ensures 0 !in D && 0 !in WithDot(D)
  {
  }

  /** From mkfs, by v7fs_truncate of "/": a volume whose root has two links and no entry. */
  method TruncateWitness(image: seq<Block>) returns (vol: Volume)
    requires |image| >= 100
    ensures vol.Valid() && Up(vol.State()) && !Exact(vol.State())
  {
    hide Volume.Valid, Volume.State, Guarded, Exact, Rooted, Where, Look, Live, Mounted, Circulates, Hollow, Bare;
    var v, _ := Mkfs(image, 100, 1, 0, 0);
    vol := v;
    Mount(vol);
    ghost var s := vol.State();
    RootPath(s);
    TruncateLosesCount(s, [SLASH]);
    var ok := TruncateCall(vol, [SLASH], 0);
  }

  lemma RootPath(s: seq<File>)
    requires Sound(s)
    ensures Where(s, [SLASH], 0) == Inode(ROOTINO - 1) && Live(s, ROOTINO - 1) && ROOTINO <= |s|
  {
    hide Guarded, Exact, Rooted, Look, Components;
    NoComponents();
    ResolvedNone(s, 0);
    RootedAt(s, 0, Dot());
  }

  /** The path "/d/../d". */
  const DUPD: seq<Byte> := [47, 100, 47, 46, 46, 47, 100]

  lemma PathDupD()
    ensures Components(DUPD, 0) == [NameOf([100]), DotDot(), NameOf([100])] && 0 !in DUPD
  {
    PathD();
    DotComponents(D);
    ComponentsJoin(WithDots(D), [100], 0);
    OneComponent([100]);
    assert WithDots(D) + [SLASH] + [100] == DUPD;
  }

  /** A new directory "/d" is what rmdir of "/d/../d" asks for, by a path that comes through it. */
  lemma LoopsD(s: seq<File>, t: seq<File>, i: nat)
    requires Sound(s) && Sound(t) && Grew(s, t, ROOTINO - 1, NameOf([100]), i) && Live(t, i) && ROOTINO <= i + 1
    ensures RmdirTarget(t, DUPD) && Loops(t, DUPD)
  {
    hide Look, Guarded, Exact, Rooted, Components, NameOf, Dot, DotDot, Plain, Budding, Live, Empty;
    PathDupD();
    PathD();
    var root, d, dd := ROOTINO - 1, NameOf([100]), DotDot();
    BuddingLooks(s, t, root, d, i, i + 1, root + 1);
    BuddingNew(s, t, root, d, i);
    GrewEmpty(s, t, root, d, i);
    LiveDir(t, i);
    RootedAt(t, 0, Dot());
    LiveDir(t, root);
    ResolvedStep(t, [d, dd, d], 2, root, d, [dd, d]);
    ResolvedStep(t, [dd, d], 2, i, dd, [d]);
    ResolvedStep(t, [d], 2, root, d, []);
    assert [d, dd, d][1..] == [dd, d];
    assert Through(t, [dd, d], i, i);
  }

  lemma LiveDir(s: seq<File>, i: nat)
    requires Live(s, i)
    ensures i < |s| && IsDir(s[i].mode)
  {
  }

  lemma GrewEmpty(s: seq<File>, t: seq<File>, p: nat, name: Name, i: nat)
    requires Budding(s, t, p, name, i, i + 1, p + 1)
    ensures Empty(t, i)
  {
    hide Look, Dot, DotDot;
  }

  /** From mkfs, by mkdir "/d" and rmdir "/d/../d": a directory that stays without its "..". */
  method RmdirWitness(image: seq<Block>) returns (vol: Volume)
    requires |image| >= 100
    ensures vol.Valid() && Up(vol.State()) && Linked(vol.State()) && !Rooted(vol.State())
  {
    hide Volume.Valid, Volume.State, Guarded, Exact, Rooted, Where, Look, Grew, Live, NameOf, Mounted, RmdirTarget, Loops, Pruned, Forgot;
    ghost var s;
    var i;
    vol, s, i := WithDirectory(image);
    PathDupD();
    GrewNumber(s, vol.State(), i);
    LoopsD(s, vol.State(), i);
    var ok := RmdirCall(vol, DUPD, false);
  }

  lemma GrewNumber(s: seq<File>, t: seq<File>, i: nat)
    requires Sound(s) && Grew(s, t, ROOTINO - 1, NameOf([100]), i)
    ensures ROOTINO <= i + 1
  {
    hide Look, Rooted, Exact, Covered, NameOf;
  }
}
