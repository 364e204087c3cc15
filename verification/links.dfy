/** link, unlink, maknode, mkdir and rmdir: every inode's link count is the number of directory entries that name it. */
module Links {
  import opened Blocks
  import opened BlockMap
  import opened ByteFiles
  import opened Volumes
  import opened Directories

  const IFDIR := 16384
  /** The most links i_nlink can count. */
  const MAXLINKS := 32767

  /** What i_nlink holds of a number, in sixteen bits with a sign. */
  function Short(n: int): (r: int)
    ensures -32768 <= r <= MAXLINKS && (-32768 <= n <= MAXLINKS ==> r == n)
  {
    (n + 32768) % 65536 - 32768
  }

  ghost function CountIn(s: seq<Slot>, ino: nat): nat {
    if s == [] then 0 else CountIn(s[..|s| - 1], ino) + if s[|s| - 1].ino == ino then 1 else 0
  }

  lemma {:induction false} CountPut(s: seq<Slot>, k: nat, x: Slot, ino: nat)
    requires k <= |s|
    ensures CountIn(Put(s, k, x), ino) + (if k < |s| && s[k].ino == ino then 1 else 0) == CountIn(s, ino) + if x.ino == ino then 1 else 0
  {
    var t := Put(s, k, x);
    if k == |s| {
      assert t[..|t| - 1] == s;
    } else if k == |s| - 1 {
      assert t[..|t| - 1] == s[..|s| - 1];
    } else {
      assert t[..|t| - 1] == Put(s[..|s| - 1], k, x);
      CountPut(s[..|s| - 1], k, x, ino);
    }
  }

  /** An entry is one of those counted. */
  lemma {:induction false} CountSome(s: seq<Slot>, k: nat)
    requires k < |s|
    ensures CountIn(s, s[k].ino) > 0
  {
    if k < |s| - 1 {
      CountSome(s[..|s| - 1], k);
    }
  }

  ghost function EntriesOf(f: File): seq<Slot> {
    if IsDir(f.mode) then Slots(f.bytes) else []
  }

  /** The entries of the first n inodes' directories that name inode number ino. */
  ghost function Refs(s: seq<File>, ino: nat, n: nat): nat
    requires n <= |s|
  {
    if n == 0 then 0 else Refs(s, ino, n - 1) + CountIn(EntriesOf(s[n - 1]), ino)
  }

  lemma {:induction false} RefsUpdate(s: seq<File>, d: nat, f: File, ino: nat, n: nat)
    requires d < |s| && n <= |s|
    ensures d < n ==> Refs(s[d := f], ino, n) + CountIn(EntriesOf(s[d]), ino) == Refs(s, ino, n) + CountIn(EntriesOf(f), ino)
    ensures d >= n ==> Refs(s[d := f], ino, n) == Refs(s, ino, n)
  {
    hide EntriesOf, CountIn;
    if n > 0 {
      RefsUpdate(s, d, f, ino, n - 1);
    }
  }

  lemma {:induction false} RefsAtLeast(s: seq<File>, ino: nat, n: nat, d: nat)
    requires d < n <= |s|
    ensures Refs(s, ino, n) >= CountIn(EntriesOf(s[d]), ino)
  {
    hide EntriesOf, CountIn;
    if d < n - 1 {
      RefsAtLeast(s, ino, n - 1, d);
    }
  }

  /** A directory is a whole number of entries without holes, with different names. */
  ghost predicate DirOk(f: File) {
    IsDir(f.mode) ==> |f.bytes| % DENT == 0 && f.solid && Unique(Slots(f.bytes))
  }

  /** Every link count is the number of entries that name the inode. */
  ghost predicate Exact(s: seq<File>) {
    forall i :: 0 <= i < |s| && s[i].mode != 0 ==> s[i].nlink == Refs(s, i + 1, |s|)
  }

  /**
   What every call keeps, even one that loses count: no entry names a free inode, no inode has fewer links than
   entries that name it, one without links is held open, and directories are whole entries with different names.
   */
  ghost predicate Guarded(s: seq<File>) {
    && ROOTINO <= |s| <= INUMS
    && s[0].mode != 0 && !IsDir(s[0].mode) && s[0].nlink == 0
    && (forall d :: 0 <= d < |s| ==> DirOk(s[d]))
    && Covered(s)
    && (forall i :: 0 <= i < |s| && s[i].mode != 0 ==> i + 1 < INUMS && s[i].nlink <= MAXLINKS)
    && (forall i :: ROOTINO <= i + 1 <= |s| && s[i].mode != 0 && s[i].count == 0 ==> s[i].nlink > 0)
  }

  ghost predicate Covered(s: seq<File>) {
    && (forall i :: 0 <= i < |s| && s[i].mode != 0 ==> Refs(s, i + 1, |s|) <= s[i].nlink)
    && (forall ino: nat :: ino > 0 && Refs(s, ino, |s|) > 0 ==> ino <= |s| && s[ino - 1].mode != 0)
  }

  ghost predicate Linked(s: seq<File>) {
    Guarded(s) && Exact(s)
  }

  /** A live entry names an allocated inode with links. */
  lemma EntryNames(s: seq<File>, d: nat, k: nat)
    requires Guarded(s) && d < |s| && IsDir(s[d].mode) && k < |Slots(s[d].bytes)| && Slots(s[d].bytes)[k].ino != 0
    ensures var ino := Slots(s[d].bytes)[k].ino; ROOTINO <= ino <= |s| && s[ino - 1].mode != 0 && s[ino - 1].nlink > 0
  {
    hide CountIn, Slots;
    var ino := Slots(s[d].bytes)[k].ino;
    CountSome(Slots(s[d].bytes), k);
    RefsAtLeast(s, ino, |s|, d);
  }

  /** The entry at slot k of directory d set to (ino, name). */
  ghost function Entered(s: seq<File>, d: nat, k: nat, ino: nat, name: Name): (t: seq<File>)
    requires d < |s| && ino < INUMS
    ensures |t| == |s|
  {
    s[d := s[d].(bytes := Splice(s[d].bytes, DENT * k, Dent(ino, name)))]
  }

  ghost function AddLinks(s: seq<File>, i: nat, n: int): (t: seq<File>)
    requires i < |s|
    ensures |t| == |s|
  {
    s[i := s[i].(nlink := Short(s[i].nlink + n))]
  }

  /** Setting an entry changes the count of the inode it named and of the one it names. */
  lemma RefsEntered(s: seq<File>, d: nat, k: nat, ino: nat, name: Name, x: nat)
    requires d < |s| && IsDir(s[d].mode) && DirOk(s[d]) && k <= |Slots(s[d].bytes)| && ino < INUMS
    ensures var t := Entered(s, d, k, ino, name);
      && Slots(t[d].bytes) == Put(Slots(s[d].bytes), k, Slot(ino, name)) && |t[d].bytes| % DENT == 0
      && Refs(t, x, |t|) + (if k < |Slots(s[d].bytes)| && Slots(s[d].bytes)[k].ino == x then 1 else 0)
         == Refs(s, x, |s|) + if ino == x then 1 else 0
  {
    hide CountIn, Slots, Splice, Refs, Unique, Dent;
    var t := Entered(s, d, k, ino, name);
    DentWritten(s[d].bytes, k, ino, name);
    RefsUpdate(s, d, t[d], x, |s|);
    CountPut(Slots(s[d].bytes), k, Slot(ino, name), x);
  }

  lemma {:induction false} RefsSame(s: seq<File>, t: seq<File>, x: nat, n: nat)
    requires |s| == |t| && n <= |s| && forall j :: 0 <= j < |s| ==> EntriesOf(t[j]) == EntriesOf(s[j])
    ensures Refs(t, x, n) == Refs(s, x, n)
  {
    hide EntriesOf, CountIn;
    if n > 0 {
      RefsSame(s, t, x, n - 1);
    }
  }

  /** How many links inode i has beyond the entries that name it; a free inode has none. */
  ghost function Slack(s: seq<File>, i: nat): int
    requires i < |s|
  {
    if s[i].mode == 0 then 0 else s[i].nlink - Refs(s, i + 1, |s|)
  }

  lemma SameSlack(s: seq<File>, t: seq<File>)
    requires |s| == |t| && forall i :: 0 <= i < |s| ==> Slack(t, i) == Slack(s, i)
    ensures Exact(t) <==> Exact(s)
  {
    hide Refs;
    assert forall i :: 0 <= i < |s| ==> (Slack(s, i) == 0 <==> (s[i].mode != 0 ==> s[i].nlink == Refs(s, i + 1, |s|)));
    assert forall i :: 0 <= i < |s| ==> (Slack(t, i) == 0 <==> (t[i].mode != 0 ==> t[i].nlink == Refs(t, i + 1, |t|)));
  }

  lemma EnteredMap(s: seq<File>, d: nat, k: nat, ino: nat, name: Name)
    requires Guarded(s) && d < |s| && IsDir(s[d].mode) && 0 < ino < INUMS
    requires Find(Slots(s[d].bytes), name) == |Slots(s[d].bytes)| && k == Vacant(Slots(s[d].bytes))
    ensures DirMap(Slots(Entered(s, d, k, ino, name)[d].bytes)) == DirMap(Slots(s[d].bytes))[name := ino]
  {
    hide CountIn, Slots, Splice, Refs, Dent, Find, Vacant, DirMap, Put, Covered;
    MapAdd(Slots(s[d].bytes), k, ino, name);
    RefsEntered(s, d, k, ino, name, 1);
  }

  /** A new entry together with one more link, for an inode that can have one more. */
  lemma Linking(s: seq<File>, d: nat, k: nat, i: nat, name: Name)
    requires Guarded(s) && d < |s| && ROOTINO <= i + 1 <= |s| && IsDir(s[d].mode) && s[i].mode != 0 && s[i].nlink < MAXLINKS
    requires Find(Slots(s[d].bytes), name) == |Slots(s[d].bytes)| && k == Vacant(Slots(s[d].bytes))
    ensures i + 1 < INUMS && Guarded(AddLinks(Entered(s, d, k, i + 1, name), i, 1))
    ensures Exact(AddLinks(Entered(s, d, k, i + 1, name), i, 1)) <==> Exact(s)
    ensures DirMap(Slots(AddLinks(Entered(s, d, k, i + 1, name), i, 1)[d].bytes)) == DirMap(Slots(s[d].bytes))[name := i + 1]
  {
    hide CountIn, Slots, Splice, Refs, Dent, Find, Vacant, DirMap, Put, Unique;
    var t := Entered(s, d, k, i + 1, name);
    var u := AddLinks(t, i, 1);
    MapAdd(Slots(s[d].bytes), k, i + 1, name);
    RefsEntered(s, d, k, i + 1, name, 1);
    forall x: nat | x > 0
      ensures Refs(u, x, |u|) == Refs(s, x, |s|) + if x == i + 1 then 1 else 0
    {
      RefsEntered(s, d, k, i + 1, name, x);
      RefsSame(t, u, x, |u|);
    }
    SameSlack(s, u);
  }

  /** A cleared entry together with one link less; an inode may be left without links. */
  lemma Unlinking(s: seq<File>, d: nat, k: nat)
    requires Guarded(s) && d < |s| && IsDir(s[d].mode) && k < |Slots(s[d].bytes)| && Slots(s[d].bytes)[k].ino != 0
    ensures var e := Slots(s[d].bytes)[k];
      var i := e.ino - 1;
      && 0 <= i < |s|
      && var u := AddLinks(Entered(s, d, k, 0, e.name), i, -1);
      && Covered(u) && (forall j :: 0 <= j < |u| ==> DirOk(u[j])) && u[i].nlink >= 0 && (Exact(u) <==> Exact(s))
      && DirMap(Slots(u[d].bytes)) == DirMap(Slots(s[d].bytes)) - {e.name}
  {
    hide CountIn, Slots, Splice, Refs, Dent, DirMap;
    var e := Slots(s[d].bytes)[k];
    var i := e.ino - 1;
    EntryNames(s, d, k);
    var t := Entered(s, d, k, 0, e.name);
    var u := AddLinks(t, i, -1);
    MapRemove(Slots(s[d].bytes), k);
    RefsEntered(s, d, k, 0, e.name, 1);
    forall x: nat | x > 0
      ensures Refs(u, x, |u|) + (if x == e.ino then 1 else 0) == Refs(s, x, |s|)
    {
      RefsEntered(s, d, k, 0, e.name, x);
      RefsSame(t, u, x, |u|);
    }
    SameSlack(s, u);
  }

  /** No live entries. */
  ghost predicate Bare(f: File) {
    IsDir(f.mode) ==> forall k :: 0 <= k < |Slots(f.bytes)| ==> Slots(f.bytes)[k].ino == 0
  }

  lemma {:induction false} BareCounts(e: seq<Slot>, x: nat)
    requires x > 0 && forall k :: 0 <= k < |e| ==> e[k].ino == 0
    ensures CountIn(e, x) == 0
  {
    if e != [] {
      BareCounts(e[..|e| - 1], x);
    }
  }

  /** Inode i loses its entries, and is freed too if it has no links. */
  ghost predicate Cleared(f: File, g: File) {
    && EntriesOf(g) == [] && g.nlink == f.nlink
    && (g.mode == f.mode || (g.mode == 0 && f.nlink == 0))
  }

  /**
   Emptying a directory, by releasing it or by truncating it, keeps the entries covered; it keeps exact link
   counts exact if and only if it had no live entries: otherwise the inodes they name are left with too high a count.
   */
  lemma Clearing(s: seq<File>, i: nat, f: File)
    requires Covered(s) && i < |s| && s[i].mode != 0 && Cleared(s[i], f)
    ensures Covered(s[i := f])
    ensures Exact(s) ==> (Exact(s[i := f]) <==> Bare(s[i]))
  {
    hide CountIn, Slots;
    var u := s[i := f];
    forall x: nat | x > 0
      ensures Refs(u, x, |u|) + CountIn(EntriesOf(s[i]), x) == Refs(s, x, |s|)
    {
      RefsUpdate(s, i, f, x, |s|);
      BareCounts([], x);
    }
    if Exact(s) {
      ClearingExact(s, i, f);
    }
  }

  lemma ClearingExact(s: seq<File>, i: nat, f: File)
    requires Covered(s) && Exact(s) && i < |s| && s[i].mode != 0 && Cleared(s[i], f)
    requires forall x: nat :: x > 0 ==> Refs(s[i := f], x, |s|) + CountIn(EntriesOf(s[i]), x) == Refs(s, x, |s|)
    ensures Exact(s[i := f]) <==> Bare(s[i])
  {
    hide CountIn, Slots, Refs;
    var u := s[i := f];
    if Bare(s[i]) {
      forall x: nat | x > 0
        ensures Refs(u, x, |u|) == Refs(s, x, |s|)
      {
        BareCounts(EntriesOf(s[i]), x);
      }
    } else {
      var k :| 0 <= k < |Slots(s[i].bytes)| && Slots(s[i].bytes)[k].ino != 0;
      var x := Slots(s[i].bytes)[k].ino;
      CountSome(Slots(s[i].bytes), k);
      assert Refs(u, x, |u|) < Refs(s, x, |s|);
      assert f.mode == 0 ==> x != i + 1;
      assert u[x - 1].mode != 0 && u[x - 1].nlink == Refs(s, x, |s|);
    }
  }

  lemma GuardedDir(s: seq<File>, d: nat)
    requires Guarded(s) && d < |s|
    ensures DirOk(s[d]) && ROOTINO <= |s| <= INUMS && (IsDir(s[d].mode) ==> ROOTINO <= d + 1) && (s[d].mode != 0 ==> d + 1 < INUMS)
    ensures s[d].mode != 0 && (s[d].nlink > 0 || s[d].count == 0) ==> d == 0 || s[d].nlink > 0
    ensures s[d].nlink > 0 && s[d].mode != 0 ==> ROOTINO <= d + 1
    ensures s[d].mode != 0 ==> 0 <= s[d].nlink <= MAXLINKS
  {
  }

  lemma DirHasBlocks(mode: nat)
    requires IsDir(mode)
    ensures HasBlocks(mode) && mode != 0
  {
  }

  /** namei's copy of the entry at slot k into u_dent, or the end of the directory. */
  method ReadEntry(vol: Volume, d: nat, k: nat) returns (end: bool, x: Slot)
    requires vol.Valid() && d < |vol.itab| && IsDir(vol.State()[d].mode) && DirOk(vol.State()[d])
    modifies vol, vol.fs, vol.fs.bio, vol.itab
    ensures vol.Valid() && vol.State() == old(vol.State()) && vol.fs.stack == old(vol.fs.stack)
    ensures end <==> k >= |Slots(vol.State()[d].bytes)|
    ensures !end ==> x == Slots(vol.State()[d].bytes)[k]
  {
    hide Volume.Valid, Volume.State, Unique;
    DirHasBlocks(vol.State()[d].mode);
    var dent := vol.Read(d, DENT * k, DENT);
    end := |dent| < DENT;
    x := if end then Slot(0, seq(14, i => 0)) else Entry(dent);
  }

  /** What namei knows when it comes to slot k. */
  ghost predicate Passed(all: seq<Slot>, name: Name, k: nat, vacant: bool, e: nat) {
    && k <= |all|
    && (forall j :: 0 <= j < k ==> all[j].ino == 0 || all[j].name != name)
    && (vacant ==> e < k && all[e].ino == 0 && forall j :: 0 <= j < e ==> all[j].ino != 0)
    && (!vacant ==> forall j :: 0 <= j < k ==> all[j].ino != 0)
  }

  /** namei's search of one directory: the live entry called name, and the first empty slot if there is none. */
  method Search(vol: Volume, d: nat, name: Name) returns (found: bool, k: nat, e: nat)
    requires vol.Valid() && d < |vol.itab| && IsDir(vol.State()[d].mode) && DirOk(vol.State()[d])
    modifies vol, vol.fs, vol.fs.bio, vol.itab
    ensures vol.Valid() && vol.State() == old(vol.State()) && vol.fs.stack == old(vol.fs.stack)
    ensures k == Find(Slots(vol.State()[d].bytes), name) && (found <==> k < |Slots(vol.State()[d].bytes)|)
    ensures k == |Slots(vol.State()[d].bytes)| ==> e == Vacant(Slots(vol.State()[d].bytes))
  {
    hide Volume.Valid, Volume.State, Find, Vacant, Unique, Slots, DirOk;
    ghost var all := Slots(vol.State()[d].bytes);
    found, k, e := false, 0, 0;
    var vacant := false;
    while true
      invariant vol.Valid() && vol.State() == old(vol.State()) && vol.fs.stack == old(vol.fs.stack) && Passed(all, name, k, vacant, e)
      decreases |all| - k
    {
      var end, x := ReadEntry(vol, d, k);
      if end {
        if !vacant {
          e := k;
        }
        FindIs(all, name, k);
        VacantIs(all, e);
        return;
      }
      if x.ino == 0 {
        if !vacant {
          vacant, e := true, k;
        }
      } else if x.name == name {
        FindIs(all, name, k);
        found := true;
        return;
      }
      k := k + 1;
    }
  }

  lemma FindIs(s: seq<Slot>, name: Name, k: nat)
    requires k <= |s| && (k < |s| ==> s[k].ino != 0 && s[k].name == name)
    requires forall j :: 0 <= j < k ==> s[j].ino == 0 || s[j].name != name
    ensures Find(s, name) == k
  {
    hide Find;
    var f := Find(s, name);
  }

  lemma VacantIs(s: seq<Slot>, k: nat)
    requires k <= |s| && (k < |s| ==> s[k].ino == 0) && forall j :: 0 <= j < k ==> s[j].ino != 0
    ensures Vacant(s) == k
  {
    hide Vacant;
    var f := Vacant(s);
  }

  /** wdir's and unlink's write of one entry: all of it, or nothing when the volume is full. */
  method WriteEntry(vol: Volume, d: nat, k: nat, ino: nat, name: Name) returns (ok: bool)
    requires vol.Valid() && d < |vol.itab| && IsDir(vol.State()[d].mode) && DirOk(vol.State()[d]) && ino < INUMS
    requires k <= |Slots(vol.State()[d].bytes)| && DENT * k + DENT <= MAXSIZE
    modifies vol, vol.fs, vol.fs.bio, vol.itab
    ensures vol.Valid()
    ensures vol.State() == if ok then Entered(old(vol.State()), d, k, ino, name) else old(vol.State())
    ensures k < |Slots(old(vol.State())[d].bytes)| ==> ok
    ensures (!ok ==> vol.fs.stack == []) && |old(vol.fs.stack)| <= |vol.fs.stack| + 4
  {
    hide Volume.Valid, Volume.State, Splice, Dent, Unique;
    DirHasBlocks(vol.State()[d].mode);
    ghost var s := vol.State();
    var dent := Dent(ino, name);
    var n := vol.Write(d, DENT * k, dent);
    AllOrNothing(DENT * k, n);
    OneBlock(DENT * k);
    ok := n == DENT;
    if ok {
      assert dent[..n] == dent;
    } else {
      assert dent[..n] == [];
      SpliceNothing(s[d].bytes, DENT * k);
    }
    assert vol.State() == if ok then Entered(s, d, k, ino, name) else s;
  }

  lemma OneBlock(off: nat)
    requires off % DENT == 0
    ensures off % 512 + DENT <= 512
  {
  }

  lemma AllOrNothing(off: nat, n: nat)
    requires off % DENT == 0 && n <= DENT && (n < DENT ==> n == 0 || (off + n) % 512 == 0)
    ensures n == 0 || n == DENT
  {
  }

  ghost function Referenced(s: seq<File>, i: nat, n: int): (t: seq<File>)
    requires i < |s| && s[i].count + n >= 0
    ensures |t| == |s|
  {
    s[i := s[i].(count := s[i].count + n)]
  }

  lemma ReferencedFacts(s: seq<File>, i: nat, d: nat)
    requires i < |s| && d < |s|
    ensures var f := Referenced(s, i, 1)[d];
      f.bytes == s[d].bytes && f.mode == s[d].mode && f.nlink == s[d].nlink && (DirOk(s[d]) ==> DirOk(f))
  {
    hide Slots, Unique;
  }

  /** iput's effect. */
  ghost function Dropped(s: seq<File>, i: nat): (t: seq<File>)
    requires i < |s| && s[i].count > 0
    ensures |t| == |s|
  {
    var f := s[i];
    s[i := if f.count == 1 && f.nlink <= 0 then File(0, f.nlink, 0, [], true) else f.(count := f.count - 1)]
  }

  /** An inode that a reference can come and go from without releasing it. */
  ghost predicate Pinned(s: seq<File>, i: nat) {
    i < |s| && s[i].mode != 0 && (s[i].nlink > 0 || s[i].count > 0)
  }

  lemma DropBack(s: seq<File>, i: nat)
    requires Pinned(s, i)
    ensures Dropped(Referenced(s, i, 1), i) == s && Referenced(s, i, 1)[i].count > 0
  {
  }

  /** What link leaves when it succeeds: the entry and one more link.  A count that wraps round has iput release the inode. */
  ghost function Bound(s: seq<File>, d: nat, k: nat, i: nat, name: Name): (t: seq<File>)
    requires d < |s| && i < |s| && i + 1 < INUMS
    ensures |t| == |s|
  {
    var u := AddLinks(Entered(s, d, k, i + 1, name), i, 1);
    if u[i].nlink <= 0 && s[i].count == 0 then u[i := File(0, u[i].nlink, 0, [], true)] else u
  }

  lemma BoundIs(s: seq<File>, d: nat, k: nat, i: nat, name: Name)
    requires d < |s| && i < |s| && i + 1 < INUMS && 0 <= s[i].nlink < MAXLINKS
    ensures Bound(s, d, k, i, name) == AddLinks(Entered(s, d, k, i + 1, name), i, 1)
  {
    hide Splice, Dent;
  }

  /** Inode i has been given a link it cannot count: it is free, or its count is negative, while an entry names it. */
  ghost predicate Overrun(t: seq<File>, i: nat) {
    i < |t| && Refs(t, i + 1, |t|) > 0 && (t[i].mode == 0 || t[i].nlink < 0)
  }

  lemma OverrunUnguarded(t: seq<File>, i: nat)
    requires Overrun(t, i)
    ensures !Guarded(t)
  {
    hide Refs, DirOk;
  }

  /** Some directory other than i itself has an entry for i. */
  ghost predicate Elsewhere(s: seq<File>, i: nat) {
    exists a :: 0 <= a < |s| && a != i && CountIn(EntriesOf(s[a]), i + 1) > 0
  }

  /** The link to an inode that has as many as it can count leaves an entry for a free inode, or for one with no links. */
  lemma LinkOverruns(s: seq<File>, d: nat, k: nat, i: nat, name: Name)
    requires Guarded(s) && d < |s| && ROOTINO <= i + 1 <= |s| && IsDir(s[d].mode) && s[i].mode != 0 && s[i].nlink == MAXLINKS
    requires (d != i || s[i].count > 0 || Elsewhere(s, i)) && k == Vacant(Slots(s[d].bytes))
    ensures i + 1 < INUMS && Overrun(Bound(s, d, k, i, name), i)
    ensures Bound(s, d, k, i, name)[i].mode == (if s[i].count == 0 then 0 else s[i].mode) && Bound(s, d, k, i, name)[i].nlink == -32768
  {
    hide CountIn, Slots, Splice, Refs, Dent, Vacant, Unique;
    var t := Entered(s, d, k, i + 1, name);
    RefsEntered(s, d, k, i + 1, name, i + 1);
    var u := Bound(s, d, k, i, name);
    if d != i || s[i].count > 0 {
      EnteredCounts(s, d, k, i, name);
      RefsAtLeast(u, i + 1, |u|, d);
    } else {
      var a :| 0 <= a < |s| && a != i && CountIn(EntriesOf(s[a]), i + 1) > 0;
      RefsAtLeast(u, i + 1, |u|, a);
    }
  }

  lemma EnteredCounts(s: seq<File>, d: nat, k: nat, i: nat, name: Name)
    requires Guarded(s) && d < |s| && IsDir(s[d].mode) && k <= |Slots(s[d].bytes)| && i < |s| && i + 1 < INUMS && (d != i || s[i].count > 0)
    ensures CountIn(EntriesOf(Bound(s, d, k, i, name)[d]), i + 1) > 0
  {
    hide CountIn, Slots, Splice, Refs, Dent, Unique, Covered;
    RefsEntered(s, d, k, i + 1, name, i + 1);
    CountSome(Slots(Entered(s, d, k, i + 1, name)[d].bytes), k);
  }

  /** link's references to the inode and the directory come and go. */
  lemma LinkNet(s: seq<File>, d: nat, k: nat, i: nat, name: Name)
    requires Pinned(s, d) && Pinned(s, i) && i + 1 < INUMS
    ensures var t := Entered(Referenced(Referenced(s, i, 1), d, 1), d, k, i + 1, name);
      && t[d].count > 0 && Dropped(t, d)[i].count > 0 && Dropped(t, d)[i].mode != 0 && Dropped(t, d)[i].nlink == s[i].nlink
      && AddLinks(Dropped(t, d), i, 1)[i].count > 0
      && Dropped(AddLinks(Dropped(t, d), i, 1), i) == Bound(s, d, k, i, name)
    ensures var t := Referenced(Referenced(s, i, 1), d, 1);
      t[d].count > 0 && Dropped(t, d)[i].count > 0 && Dropped(Dropped(t, d), i) == s
  {
    hide Splice, Dent;
    var t := Entered(Referenced(Referenced(s, i, 1), d, 1), d, k, i + 1, name);
    var a, b := Dropped(AddLinks(Dropped(t, d), i, 1), i), Bound(s, d, k, i, name);
    assert a[d] == b[d];
    assert a[i] == b[i];
    assert forall j :: 0 <= j < |s| ==> a[j] == b[j];
    var u := Referenced(Referenced(s, i, 1), d, 1);
    assert forall j :: 0 <= j < |s| ==> Dropped(Dropped(u, d), i)[j] == s[j];
  }

  /** wdir: the entry goes in at slot k unless the directory has been removed or the volume is full; the reference to the directory goes. */
  method Wdir(vol: Volume, ino: nat, d: nat, k: nat, name: Name) returns (ok: bool)
    requires vol.Valid() && d < |vol.itab| && IsDir(vol.State()[d].mode) && DirOk(vol.State()[d]) && ino < INUMS && vol.State()[d].count > 0
    requires k <= |Slots(vol.State()[d].bytes)| && DENT * k + DENT <= MAXSIZE && ROOTINO <= d + 1
    modifies vol, vol.fs, vol.fs.bio, vol.itab
    ensures vol.Valid()
    ensures var s := old(vol.State());
      vol.State() == Dropped(if ok then Entered(s, d, k, ino, name) else s, d)
    ensures ok ==> old(vol.State())[d].nlink > 0
    ensures !ok ==> old(vol.State())[d].nlink <= 0 || |old(vol.fs.stack)| <= 4
    ensures old(vol.State())[d].count > 1 || old(vol.State())[d].nlink > 0 ==> |old(vol.fs.stack)| <= |vol.fs.stack| + 4
  {
    hide Volume.Valid, Volume.State, Slots, Splice, Dent, Unique;
    vol.StateAt(d);
    ok := false;
    ghost var s := vol.State();
    EnteredFacts(s, d, k, ino, name);
    if vol.itab[d].nlink > 0 {
      ok := WriteEntry(vol, d, k, ino, name);
    }
    vol.Iput(d);
  }

  /**
   link, when namei has left it inode i and the place k for a new name in directory d: the name is bound to the
   inode with one more link, or nothing changes (the directory has been removed, or the volume is full).  lost says
   that the link count wrapped round.
   */
  method Link(vol: Volume, ghost s: seq<File>, i: nat, d: nat, k: nat, name: Name) returns (ok: bool, lost: bool)
    requires vol.Valid() && Guarded(s) && |s| == |vol.itab| && Pinned(s, i) && Pinned(s, d) && ROOTINO <= i + 1 && IsDir(s[d].mode)
    requires vol.State() == Referenced(Referenced(s, i, 1), d, 1)
    requires Find(Slots(s[d].bytes), name) == |Slots(s[d].bytes)| && k == Vacant(Slots(s[d].bytes)) && |s[d].bytes| + DENT <= MAXSIZE
    modifies vol, vol.fs, vol.fs.bio, vol.itab
    ensures vol.Valid() && i + 1 < INUMS && vol.State() == (if ok then Bound(s, d, k, i, name) else s)
    ensures lost <==> ok && s[i].nlink == MAXLINKS
    ensures !lost ==> Guarded(vol.State()) && (Exact(vol.State()) <==> Exact(s))
    ensures !ok ==> s[d].nlink <= 0 || |old(vol.fs.stack)| <= 4
    ensures |old(vol.fs.stack)| <= |vol.fs.stack| + 4
  {
    hide Volume.Valid, Volume.State, Find, Vacant, Slots, DirMap, Splice, Dent, Guarded, Entered, DirOk, Exact, Bound, Short;
    lost := false;
    GuardedDir(s, d);
    GuardedDir(s, i);
    SizeOfSlots(s[d].bytes);
    ReferencedFacts(s, i, d);
    ReferencedFacts(Referenced(s, i, 1), d, d);
    LinkNet(s, d, k, i, name);
    ok := Wdir(vol, i + 1, d, k, name);
    if ok {
      vol.StateAt(i);
      lost := vol.itab[i].nlink == MAXLINKS;
      vol.Recount(i, Short(vol.itab[i].nlink + 1), vol.itab[i].count);
      if !lost {
        BoundIs(s, d, k, i, name);
        Linking(s, d, k, i, name);
      }
    }
    vol.Iput(i);
  }

  lemma SizeOfSlots(c: seq<Byte>)
    ensures |Slots(c)| == |c| / DENT
  {
  }

  /** What unlink leaves: the entry cleared and one link less; the inode released if that was its last link and nobody has it open. */
  ghost function Unlinked(s: seq<File>, d: nat, k: nat): (t: seq<File>)
    requires Guarded(s) && d < |s| && IsDir(s[d].mode) && k < |Slots(s[d].bytes)| && Slots(s[d].bytes)[k].ino != 0
    ensures |t| == |s|
  {
    EntryNames(s, d, k);
    var e := Slots(s[d].bytes)[k];
    var u := AddLinks(Entered(s, d, k, 0, e.name), e.ino - 1, -1);
    if Orphaned(s, d, k) then u[e.ino - 1 := File(0, 0, 0, [], true)] else u
  }

  /** The entry at slot k is the last link to an inode that is not open. */
  ghost predicate Orphaned(s: seq<File>, d: nat, k: nat)
    requires Guarded(s) && d < |s| && IsDir(s[d].mode) && k < |Slots(s[d].bytes)| && Slots(s[d].bytes)[k].ino != 0
  {
    EntryNames(s, d, k);
    var f := s[Slots(s[d].bytes)[k].ino - 1];
    f.nlink == 1 && f.count == 0
  }

  /** The inode at slot k has no live entries once the one at slot k is cleared. */
  ghost predicate Emptied(s: seq<File>, d: nat, k: nat)
    requires Guarded(s) && d < |s| && IsDir(s[d].mode) && k < |Slots(s[d].bytes)| && Slots(s[d].bytes)[k].ino != 0
  {
    EntryNames(s, d, k);
    var e := Slots(s[d].bytes)[k];
    Bare(Entered(s, d, k, 0, e.name)[e.ino - 1])
  }

  /**
   unlink keeps every link count exact if and only if it does not release a directory that still has
   live entries.
   */
  lemma UnlinkExact(s: seq<File>, d: nat, k: nat)
    requires Guarded(s) && d < |s| && IsDir(s[d].mode) && k < |Slots(s[d].bytes)| && Slots(s[d].bytes)[k].ino != 0
    ensures Guarded(Unlinked(s, d, k))
    ensures Exact(s) ==> (Exact(Unlinked(s, d, k)) <==> (Orphaned(s, d, k) ==> Emptied(s, d, k)))
    ensures !Orphaned(s, d, k) || Slots(s[d].bytes)[k].ino != d + 1 ==>
              DirMap(Slots(Unlinked(s, d, k)[d].bytes)) == DirMap(Slots(s[d].bytes)) - {Slots(s[d].bytes)[k].name}
  {
    hide CountIn, Slots, Splice, Refs, Dent, DirMap, Exact, Entered, Covered, Unique;
    EntryNames(s, d, k);
    Unlinking(s, d, k);
    var e := Slots(s[d].bytes)[k];
    var i := e.ino - 1;
    var u := AddLinks(Entered(s, d, k, 0, e.name), i, -1);
    EnteredFacts(s, d, k, 0, e.name);
    if Orphaned(s, d, k) {
      Clearing(u, i, File(0, 0, 0, [], true));
    }
  }

  lemma EnteredFacts(s: seq<File>, d: nat, k: nat, ino: nat, name: Name)
    requires d < |s| && ino < INUMS
    ensures var t := Entered(s, d, k, ino, name);
      forall j :: 0 <= j < |s| ==> t[j].mode == s[j].mode && t[j].nlink == s[j].nlink && t[j].count == s[j].count && t[j].solid == s[j].solid
  {
  }

  /** unlink's references to the directory and the inode come and go; only the last one out can release the inode. */
  lemma UnlinkNet(s: seq<File>, d: nat, k: nat)
    requires Guarded(s) && d < |s| && IsDir(s[d].mode) && k < |Slots(s[d].bytes)| && Slots(s[d].bytes)[k].ino != 0 && Pinned(s, d)
    ensures ROOTINO <= Slots(s[d].bytes)[k].ino <= |s| && ROOTINO <= d + 1 && s[Slots(s[d].bytes)[k].ino - 1].mode != 0
    ensures var e := Slots(s[d].bytes)[k];
      var i := e.ino - 1;
      var t := AddLinks(Entered(Referenced(Referenced(s, d, 1), i, 1), d, k, 0, e.name), i, -1);
      && t[i].count > 0 && Dropped(t, i)[d].count > 0 && Dropped(Dropped(t, i), d) == Unlinked(s, d, k)
  {
    hide Splice, Dent, Slots, Covered;
    EntryNames(s, d, k);
    var e := Slots(s[d].bytes)[k];
    var i := e.ino - 1;
    var t := AddLinks(Entered(Referenced(Referenced(s, d, 1), i, 1), d, k, 0, e.name), i, -1);
    assert Dropped(Dropped(t, i), d)[d] == Unlinked(s, d, k)[d];
    assert Dropped(Dropped(t, i), d)[i] == Unlinked(s, d, k)[i];
  }

  /** unlink, when namei has left it live slot k of directory d. */
  method Unlink(vol: Volume, ghost s: seq<File>, d: nat, k: nat)
    requires vol.Valid() && Guarded(s) && |s| == |vol.itab| && Pinned(s, d) && IsDir(s[d].mode) && vol.State() == Referenced(s, d, 1)
    requires k < |Slots(s[d].bytes)| && Slots(s[d].bytes)[k].ino != 0
    modifies vol, vol.fs, vol.fs.bio, vol.itab
    ensures vol.Valid() && Guarded(vol.State()) && vol.State() == Unlinked(s, d, k)
    ensures Exact(s) ==> (Exact(vol.State()) <==> (Orphaned(s, d, k) ==> Emptied(s, d, k)))
  {
    hide Volume.Valid, Volume.State, Slots, Splice, Dent, Guarded, Emptied, Orphaned, Unlinked, DirMap, AddLinks, Entered, DirOk, Exact;
    GuardedDir(s, d);
    UnlinkNet(s, d, k);
    UnlinkExact(s, d, k);
    SizeOfSlots(s[d].bytes);
    ReferencedFacts(s, d, d);
    vol.Bounded(d);
    ghost var s1 := vol.State();
    var end, e := ReadEntry(vol, d, k);
    var i := e.ino - 1;
    ReferencedFacts(s1, i, d);
    vol.Iget(i);
    ghost var s2 := vol.State();
    assert s2 == Referenced(s1, i, 1);
    var ok := SetEntry(vol, i, d, k, 0, e.name, -1);
    ghost var t := vol.State();
    vol.Iput(i);
    assert vol.State() == Dropped(t, i);
    vol.Iput(d);
  }

  /** The write of an entry and the change of link count that goes with it. */
  method SetEntry(vol: Volume, i: nat, d: nat, k: nat, ino: nat, name: Name, n: int) returns (ok: bool)
    requires vol.Valid() && d < |vol.itab| && i < |vol.itab| && ino < INUMS && vol.State()[i].mode != 0
    requires IsDir(vol.State()[d].mode) && DirOk(vol.State()[d])
    requires k <= |Slots(vol.State()[d].bytes)| && DENT * k + DENT <= MAXSIZE
    modifies vol, vol.fs, vol.fs.bio, vol.itab
    ensures vol.Valid()
    ensures vol.State() == if ok then AddLinks(Entered(old(vol.State()), d, k, ino, name), i, n) else old(vol.State())
    ensures k < |Slots(old(vol.State())[d].bytes)| ==> ok
  {
    hide Volume.Valid, Volume.State, Unique, Slots, Splice, Dent;
    ok := WriteEntry(vol, d, k, ino, name);
    if ok {
      vol.StateAt(i);
      vol.Recount(i, Short(vol.itab[i].nlink + n), vol.itab[i].count);
    }
  }

  lemma EmptyDirOk(f: File)
    requires f.bytes == [] && f.solid
    ensures DirOk(f)
  {
  }

  /** A free inode is named nowhere; allocated without links but held open, it keeps the counts as they are. */
  lemma NewInode(s: seq<File>, i: nat, f: File)
    requires Guarded(s) && ROOTINO <= i + 1 <= |s| && s[i].mode == 0
    requires f.bytes == [] && f.solid && f.nlink == 0 && (f.mode == 0 || (f.count > 0 && i + 1 < INUMS))
    ensures Guarded(s[i := f]) && (Exact(s[i := f]) <==> Exact(s)) && EntriesOf(f) == [] && Refs(s, i + 1, |s|) == 0
  {
    hide CountIn, Refs, DirOk;
    var u := s[i := f];
    EmptyDirOk(f);
    forall x: nat
      ensures Refs(u, x, |u|) == Refs(s, x, |s|)
    {
      RefsSame(s, u, x, |s|);
    }
    SameSlack(s, u);
  }

  /** References may change as long as an inode without links keeps one. */
  lemma RecountGuarded(s: seq<File>, i: nat, c: nat)
    requires Guarded(s) && i < |s| && s[i].mode != 0 && (c > 0 || s[i].nlink > 0 || i == 0)
    ensures Guarded(s[i := s[i].(count := c)]) && (Exact(s[i := s[i].(count := c)]) <==> Exact(s))
  {
    hide CountIn, Refs, Slots, Unique;
    var u := s[i := s[i].(count := c)];
    forall x: nat
      ensures Refs(u, x, |u|) == Refs(s, x, |s|)
    {
      RefsSame(s, u, x, |s|);
    }
    SameSlack(s, u);
  }

  /** What maknode leaves when it succeeds: a new inode with one link and one reference, entered in directory d. */
  ghost function Made(s: seq<File>, d: nat, k: nat, i: nat, name: Name, mode: nat): (t: seq<File>)
    requires d < |s| && i < |s| && i + 1 < INUMS
    ensures |t| == |s|
  {
    Entered(s[i := File(mode, 1, 1, [], true)], d, k, i + 1, name)
  }

  lemma MadeGuarded(s: seq<File>, d: nat, i: nat, name: Name, mode: nat)
    requires Guarded(s) && d < |s| && IsDir(s[d].mode) && ROOTINO <= i + 1 <= |s| && i + 1 < INUMS && s[i].mode == 0 && mode != 0
    requires Find(Slots(s[d].bytes), name) == |Slots(s[d].bytes)|
    ensures var v := Vacant(Slots(s[d].bytes));
      && Guarded(Made(s, d, v, i, name, mode)) && (Exact(Made(s, d, v, i, name, mode)) <==> Exact(s))
      && DirMap(Slots(Made(s, d, v, i, name, mode)[d].bytes)) == DirMap(Slots(s[d].bytes))[name := i + 1]
  {
    hide CountIn, Refs, Slots, Find, Vacant, DirMap, Splice, Dent, Unique, Exact, Covered;
    var v := Vacant(Slots(s[d].bytes));
    var t := s[i := File(mode, 0, 1, [], true)];
    NewInode(s, i, File(mode, 0, 1, [], true));
    Linking(t, d, v, i, name);
    var u := AddLinks(Entered(t, d, v, i + 1, name), i, 1);
    var w := Made(s, d, v, i, name, mode);
    assert forall j :: 0 <= j < |s| ==> w[j] == u[j];
    assert w == u;
  }

  /**
   maknode, when namei has left it the place k for a new name in directory d: a new inode under that name, which
   the caller holds, or nothing.
   */
  method Maknode(vol: Volume, ghost s: seq<File>, d: nat, k: nat, name: Name, mode: nat) returns (ok: bool, i: nat)
    requires vol.Valid() && Guarded(s) && |s| == |vol.itab| && Pinned(s, d) && IsDir(s[d].mode) && vol.State() == Referenced(s, d, 1) && mode != 0
    requires Find(Slots(s[d].bytes), name) == |Slots(s[d].bytes)| && k == Vacant(Slots(s[d].bytes)) && |s[d].bytes| + DENT <= MAXSIZE
    modifies vol, vol.fs, vol.fs.bio, vol.itab
    ensures vol.Valid() && Guarded(vol.State())
    ensures ok ==> ROOTINO <= i + 1 <= |s| && i + 1 < INUMS && s[i].mode == 0 && s[d].nlink > 0 && vol.State() == Made(s, d, k, i, name, mode)
    ensures !ok ==> vol.State() == s || (i < |s| && s[i].mode == 0 && vol.State() == s[i := File(0, 0, 0, [], true)])
    ensures !ok && s[d].nlink > 0 ==> |old(vol.fs.stack)| <= 4 || forall j :: 0 <= j < |s| && j + 1 < INUMS ==> s[j].mode != 0
    ensures Exact(vol.State()) <==> Exact(s)
    ensures |old(vol.fs.stack)| <= |vol.fs.stack| + 4
  {
    hide Volume.Valid, Volume.State, Find, Vacant, Unique, Slots, DirMap, Splice, Dent, Exact, Entered, Guarded, DirOk;
    GuardedDir(s, d);
    SizeOfSlots(s[d].bytes);
    ReferencedFacts(s, d, d);
    DropBack(s, d);
    ok, i := vol.Create(mode);
    if !ok {
      vol.Iput(d);
      return;
    }
    ok := Enroll(vol, s, d, k, i, name, mode);
    if ok {
      MadeGuarded(s, d, i, name, mode);
    } else {
      NewInode(s, i, File(0, 0, 0, [], true));
    }
  }

  /** wdir for a new inode, and maknode's way back when the entry could not be written. */
  method Enroll(vol: Volume, ghost s: seq<File>, d: nat, v: nat, i: nat, name: Name, mode: nat) returns (ok: bool)
    requires vol.Valid() && |s| == |vol.itab| && Pinned(s, d) && ROOTINO <= i + 1 <= |s| <= INUMS && i + 1 < INUMS && i != d && mode != 0 && ROOTINO <= d + 1
    requires IsDir(s[d].mode) && DirOk(s[d]) && v <= |Slots(s[d].bytes)| && DENT * v + DENT <= MAXSIZE
    requires vol.State() == Referenced(s, d, 1)[i := File(mode, 1, 1, [], true)]
    modifies vol, vol.fs, vol.fs.bio, vol.itab
    ensures vol.Valid()
    ensures ok ==> s[d].nlink > 0 && vol.State() == Made(s, d, v, i, name, mode)
    ensures !ok ==> vol.State() == s[i := File(0, 0, 0, [], true)] && (s[d].nlink <= 0 || |old(vol.fs.stack)| <= 4)
    ensures |old(vol.fs.stack)| <= |vol.fs.stack| + 4
  {
    hide Volume.Valid, Volume.State, Unique, Slots, Splice, Dent, Entered, DirOk;
    ReferencedFacts(s, d, d);
    EnrollNet(s, d, v, i, name, mode);
    ok := Wdir(vol, i + 1, d, v, name);
    if !ok {
      vol.StateAt(i);
      vol.Recount(i, 0, vol.itab[i].count);
      vol.Iput(i);
      assert vol.State() == s[i := File(0, 0, 0, [], true)];
    }
  }

  lemma EnrollNet(s: seq<File>, d: nat, k: nat, i: nat, name: Name, mode: nat)
    requires Pinned(s, d) && i < |s| && i != d && i + 1 < INUMS
    ensures var t := Referenced(s, d, 1)[i := File(mode, 1, 1, [], true)];
      && t[d].count > 0 && Dropped(t, d) == s[i := File(mode, 1, 1, [], true)]
      && Entered(t, d, k, i + 1, name)[d].count > 0 && Dropped(Entered(t, d, k, i + 1, name), d) == Made(s, d, k, i, name, mode)
  {
    hide Splice, Dent;
    var t := Referenced(s, d, 1)[i := File(mode, 1, 1, [], true)];
    var u, w := Dropped(Entered(t, d, k, i + 1, name), d), Made(s, d, k, i, name, mode);
    assert forall j :: 0 <= j < |s| ==> u[j] == w[j];
    assert forall j :: 0 <= j < |s| ==> Dropped(t, d)[j] == s[i := File(mode, 1, 1, [], true)][j];
  }

  function Dot(): (n: Name)
    ensures n[1] == 0
  {
    [46] + seq(13, i => 0)
  }

  function DotDot(): (n: Name)
    ensures n[1] == 46
  {
    [46, 46] + seq(12, i => 0)
  }

  lemma CountTwo(a: Slot, b: Slot, x: nat)
    ensures CountIn([a], x) == if a.ino == x then 1 else 0
    ensures CountIn([a, b], x) == CountIn([a], x) + if b.ino == x then 1 else 0
  {
    assert [a, b][..1] == [a] && [a][..0] == [];
  }
}
