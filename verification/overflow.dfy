/** How a link count comes to wrap round: a new volume, one file, and 32767 more names for it. */
module Overflow {
  import opened Blocks
  import opened BlockMap
  import opened ByteFiles
  import opened Volumes
  import opened Directories
  import opened Links
  import opened Hierarchy
  import opened Paths
  import opened Calls
  import opened TreeCalls
  import opened MakeFs
  import opened NewVolumes
  import opened Runs

  /** "f". */
  const F: seq<Byte> := [102]

  /** The k-th other name. */
  function Nth(k: nat): (n: seq<Byte>)
    requires k < 32768
    ensures |n| == 4 && 0 !in n && SLASH !in n && n[0] == 110
  {
    [110, 100 + k / 1024, 100 + k / 32 % 32, 100 + k % 32]
  }

  lemma Digits(k: nat)
    requires k < 32768
    ensures k == 1024 * (k / 1024) + 32 * (k / 32 % 32) + k % 32
  {
    assert k / 1024 == k / 32 / 32;
  }

  lemma NthDiffer(j: nat, k: nat)
    requires j < 32768 && k < 32768 && NameOf(Nth(j)) == NameOf(Nth(k))
    ensures j == k
  {
    hide NameOf;
    NameStarts(Nth(j));
    NameStarts(Nth(k));
    Digits(j);
    Digits(k);
  }

  lemma NameStarts(n: seq<Byte>)
    requires |n| == 4
    ensures NameOf(n)[0] == n[0] && NameOf(n)[1] == n[1] && NameOf(n)[2] == n[2] && NameOf(n)[3] == n[3]
  {
  }

  lemma NamesDiffer(k: nat)
    requires k < 32768
    ensures NameOf(Nth(k)) != NameOf(F) && Plain(NameOf(Nth(k))) && Spelled(NameOf(Nth(k))) && Plain(NameOf(F)) && Spelled(NameOf(F))
  {
    NameSpelled(Nth(k));
    NameSpelled(F);
    assert NameOf(Nth(k))[0] == 110 && NameOf(F)[0] == 102 && Dot()[0] == 46 && DotDot()[0] == 46;
  }

  /** A name in the root as a path. */
  function InRoot(n: seq<Byte>): seq<Byte> {
    [SLASH] + n
  }

  lemma InRootLeads(s: seq<File>, n: seq<Byte>)
    requires Sound(s) && n != [] && 0 !in n && SLASH !in n
    ensures 0 !in InRoot(n) && Live(s, ROOTINO - 1)
    ensures Look(s, ROOTINO - 1, NameOf(n)) == 0 ==> Where(s, InRoot(n), 1) == Parent(ROOTINO - 1, NameOf(n))
    ensures Look(s, ROOTINO - 1, NameOf(n)) > 0 ==> Where(s, InRoot(n), 0) == Inode(Look(s, ROOTINO - 1, NameOf(n)) - 1)
  {
    hide Look, Guarded, Exact, Rooted, NameOf;
    ComponentsJoin([], n, 0);
    NoComponents();
    OneComponent(n);
    assert [] + [SLASH] + n == InRoot(n);
    RootedAt(s, 0, Dot());
    ResolvedStep(s, [NameOf(n)], 1, ROOTINO - 1, NameOf(n), []);
    OneStep(s, NameOf(n), ROOTINO - 1);
  }

  /** A volume whose root names file i, which is not open, "f" and by k - 1 of the other names. */
  ghost predicate Crowded(s: seq<File>, i: nat, k: nat) {
    && Sound(s) && Up(s) && ROOTINO < i + 1 <= |s| && s[i].mode != 0 && !IsDir(s[i].mode) && s[i].nlink == k && s[i].count == 0
    && Look(s, ROOTINO - 1, NameOf(F)) == i + 1 && |s[ROOTINO - 1].bytes| <= DENT * (k + 2)
    && forall j :: k <= j < 32768 ==> Look(s, ROOTINO - 1, NameOf(Nth(j))) == 0
  }

  /** One entry makes a directory longer by one entry at most. */
  lemma EnteredSize(s: seq<File>, d: nat, k: nat, ino: nat, name: Name)
    requires d < |s| && ino < INUMS && k <= |Slots(s[d].bytes)|
    ensures |Entered(s, d, k, ino, name)[d].bytes| <= |s[d].bytes| + DENT
  {
    hide Dent;
    SizeOfSlots(s[d].bytes);
  }

  /** The next link can be made, there being room, and leads on. */
  lemma NextName(s: seq<File>, i: nat, k: nat, free: nat)
    requires Crowded(s, i, k) && 1 <= k <= MAXLINKS && free > 4
    ensures 0 !in InRoot(F) && 0 !in InRoot(Nth(k)) && Where(s, InRoot(F), 0) == Inode(i)
    ensures Linkable(s, InRoot(F), InRoot(Nth(k)), false) && Room(s, Where(s, InRoot(Nth(k)), 1).d, free)
    ensures k < MAXLINKS ==> Crowded(LinkedBy(s, InRoot(F), InRoot(Nth(k)), false), i, k + 1)
  {
    hide Look, Guarded, Exact, Rooted, NameOf, Nth, Where, Bound, Slots, Vacant, Plain, Spelled, InRoot, Mounted;
    InRootLeads(s, F);
    InRootLeads(s, Nth(k));
    GuardedDir(s, i);
    if k < MAXLINKS {
      NextCrowded(s, i, k);
    }
  }

  lemma NextCrowded(s: seq<File>, i: nat, k: nat)
    requires Crowded(s, i, k) && 1 <= k < MAXLINKS && Live(s, ROOTINO - 1) && i + 1 < INUMS
    ensures Crowded(Bound(s, ROOTINO - 1, Vacant(Slots(s[ROOTINO - 1].bytes)), i, NameOf(Nth(k))), i, k + 1)
  {
    hide Look, Guarded, Exact, Rooted, NameOf, Nth, Bound, Slots, Vacant, Plain, Spelled, Mounted;
    var root, n := ROOTINO - 1, NameOf(Nth(k));
    var v := Vacant(Slots(s[root].bytes));
    var t := Bound(s, root, v, i, n);
    NamesDiffer(k);
    BoundSound(s, root, i, n);
    LinkedLooks(s, root, i, n);
    BoundIs(s, root, v, i, n);
    BoundUp(s, root, v, i, n);
    VacantFits(Slots(s[root].bytes));
    EnteredSize(s, root, v, i + 1, n);
    forall j | k + 1 <= j < 32768
      ensures Look(t, root, NameOf(Nth(j))) == 0
    {
      if NameOf(Nth(j)) == n {
        NthDiffer(j, k);
      }
    }
    assert t[root].bytes == Entered(s, root, v, i + 1, n)[root].bytes;
  }

  lemma VacantFits(e: seq<Slot>)
    ensures Vacant(e) <= |e|
  {
  }

  /** The file just made. */
  lemma FirstName(s: seq<File>, t: seq<File>, i: nat, mode: nat)
    requires Sound(s) && Up(t) && Live(s, ROOTINO - 1) && |s[ROOTINO - 1].bytes| == 2 * DENT && mode != 0 && !IsDir(mode)
    requires forall n: Name :: Plain(n) ==> Look(s, ROOTINO - 1, n) == 0
    requires MadeFile(s, t, ROOTINO - 1, NameOf(F), i, mode, true)
    ensures Crowded(t, i, 1)
  {
    hide Look, Guarded, Exact, Rooted, NameOf, Nth, Slots, Vacant, Plain, Spelled, Mounted;
    var root := ROOTINO - 1;
    NamesDiffer(0);
    MadeNumber(s, t, root, NameOf(F), i, mode, true);
    CreatedSound(s, t, root, NameOf(F), i, mode, true);
    var u := t[i := t[i].(count := 1)];
    MadeLooks(s, root, i, NameOf(F), mode);
    VacantFits(Slots(s[root].bytes));
    EnteredSize(s[i := File(mode, 1, 1, [], true)], root, Vacant(Slots(s[root].bytes)), i + 1, NameOf(F));
    assert forall j :: 0 <= j < |t| ==> EntriesOf(t[j]) == EntriesOf(u[j]);
    LookSame(u, t, root, NameOf(F));
    forall j | 1 <= j < 32768
      ensures Look(t, root, NameOf(Nth(j))) == 0
    {
      NamesDiffer(j);
      LookSame(u, t, root, NameOf(Nth(j)));
    }
  }

  /** From mkfs, by one creat and 32767 links: the last of them leaves 32768 entries that name a free inode. */
  method OverflowWitness(image: seq<Block>) returns (vol: Volume, i: nat, lost: bool)
    requires |image| >= 140000
    ensures vol.Valid() && lost && Overrun(vol.State(), i) && vol.State()[i].mode == 0 && !Guarded(vol.State())
  {
    hide Volume.Valid, Volume.State, Guarded, Exact, Rooted, Where, Look, Live, NameOf, Mounted, Circulates, Nth, InRoot, Crowded, Overrun,
         LinkedBy, Linkable, MadeFile, NewMode, Room;
    vol, i := OneFile(image);
    lost := false;
    for k := 1 to MAXLINKS
      invariant vol.Valid() && Crowded(vol.State(), i, k) && |vol.fs.stack| >= 139000 - 4 * k
      invariant fresh(vol) && fresh(vol.fs) && fresh(vol.fs.bio) && (forall j :: 0 <= j < |vol.itab| ==> fresh(vol.itab[j]))
    {
      NextName(vol.State(), i, k, |vol.fs.stack|);
      CrowdedFacts(vol.State(), i, k);
      var ok;
      ok, lost := LinkCall(vol, InRoot(F), InRoot(Nth(k)), false);
    }
    ghost var s := vol.State();
    NextName(s, i, MAXLINKS, |vol.fs.stack|);
    CrowdedFacts(s, i, MAXLINKS);
    var ok;
    ok, lost := LinkCall(vol, InRoot(F), InRoot(Nth(MAXLINKS)), false);
    LastName(s, i);
  }

  lemma CrowdedFacts(s: seq<File>, i: nat, k: nat)
    requires Crowded(s, i, k)
    ensures Up(s) && i < |s| && (Where(s, InRoot(F), 0) == Inode(i) ==> (Brimful(s, Where(s, InRoot(F), 0)) <==> k == MAXLINKS))
  {
    hide Look, Guarded, Exact, Rooted, Where;
  }

  lemma LastName(s: seq<File>, i: nat)
    requires Crowded(s, i, MAXLINKS) && Where(s, InRoot(F), 0) == Inode(i) && Linkable(s, InRoot(F), InRoot(Nth(MAXLINKS)), false)
    ensures i < |s| && LinkedBy(s, InRoot(F), InRoot(Nth(MAXLINKS)), false)[i].mode == 0
  {
    hide Look, Guarded, Exact, Rooted, Where, Slots, Vacant, NameOf, Splice, Dent;
  }

  /** A new volume with one file, "/f", closed. */
  method OneFile(image: seq<Block>) returns (vol: Volume, i: nat)
    requires |image| >= 140000
    ensures fresh(vol) && fresh(vol.fs) && fresh(vol.fs.bio) && (forall j :: 0 <= j < |vol.itab| ==> fresh(vol.itab[j]))
    ensures vol.Valid() && Crowded(vol.State(), i, 1) && |vol.fs.stack| >= 139900
  {
    hide Volume.Valid, Volume.State, Guarded, Exact, Rooted, Where, Look, Live, NameOf, Mounted, Circulates, InRoot, Crowded,
         MadeFile, NewMode, Room, NoInode;
    var v, _ := Mkfs(image, 140000, 1, 0, 0);
    vol := v;
    ghost var s0 := vol.State();
    FreshFacts(s0);
    Mount(vol);
    ghost var s := vol.State();
    MountedFacts(s0, s);
    InRootLeads(s, F);
    NamesDiffer(0);
    RoomD(s, |vol.fs.stack|);
    var ok;
    ok, i := CreatCall(vol, InRoot(F), 420, true, true, false, true);
    NewModeFile(420);
    FirstName(s, vol.State(), i, NewMode(420));
  }
}
