/** Directories: files of 16-byte entries, an inode number and a 14-byte name; inode number zero is an empty slot. */
module Directories {
  import opened Blocks
  import opened ByteFiles
  import opened Volumes

  const DIRSIZ := 14
  const SLASH: Byte := 47
  const DENT := 16

  type Name = s: seq<Byte> | |s| == 14 witness seq(14, i => 0)

  datatype Slot = Slot(ino: nat, name: Name)

  predicate IsDir(mode: nat) {
    mode / 4096 % 16 == 4
  }

  function Dent(ino: nat, name: Name): (s: seq<Byte>)
    requires ino < 65536
    ensures |s| == DENT
  {
    [ino / 256, ino % 256] + name
  }

  function Entry(e: seq<Byte>): Slot
    requires |e| == DENT
  {
    Slot(e[0] as int * 256 + e[1] as int, e[2..])
  }

  lemma EntryOfDent(ino: nat, name: Name)
    requires ino < 65536
    ensures Entry(Dent(ino, name)) == Slot(ino, name)
  {
    assert Dent(ino, name)[2..] == name;
  }

  /** An entry's bytes: the inode number in two, high byte first, then the name. */
  lemma DentLayout(ino: nat, name: Name)
    requires ino < 65536
    ensures var e := Dent(ino, name);
      e[0] == ino / 256 && e[1] == ino % 256 && forall i :: 0 <= i < DIRSIZ ==> e[2 + i] == name[i]
  {
  }

  /** Slot k of a directory is its bytes from 16 k on. */
  lemma SlotLayout(c: seq<Byte>, k: nat)
    requires DENT * k + DENT <= |c|
    ensures k < |Slots(c)| && Slots(c)[k].ino == c[16 * k] as int * 256 + c[16 * k + 1] as int
    ensures forall i :: 0 <= i < DIRSIZ ==> Slots(c)[k].name[i] == c[16 * k + 2 + i]
  {
    var e := c[DENT * k..DENT * k + DENT];
    assert forall i :: 0 <= i < DENT ==> e[i] == c[DENT * k + i];
    assert forall i :: 0 <= i < DIRSIZ ==> e[2..][i] == e[2 + i];
    assert Slots(c)[k] == SlotAt(c, k);
  }

  function SlotAt(c: seq<Byte>, k: nat): Slot
    requires DENT * k + DENT <= |c|
  {
    Entry(c[DENT * k..DENT * k + DENT])
  }

  function Slots(c: seq<Byte>): (s: seq<Slot>)
    ensures |s| == |c| / DENT
  {
    seq(|c| / DENT, k requires 0 <= k < |c| / DENT => SlotAt(c, k))
  }

  /** Writing an entry at slot k sets that slot, or appends one at the end. */
  lemma DentWritten(c: seq<Byte>, k: nat, ino: nat, name: Name)
    requires |c| % DENT == 0 && k <= |c| / DENT && ino < 65536
    ensures var c' := Splice(c, DENT * k, Dent(ino, name));
      && |c'| % DENT == 0
      && Slots(c') == (if k < |c| / DENT then Slots(c)[k := Slot(ino, name)] else Slots(c) + [Slot(ino, name)])
  {
    var e := Dent(ino, name);
    var c' := Splice(c, DENT * k, e);
    SpliceByte(c, DENT * k, e, 0);
    var r := if k < |c| / DENT then Slots(c)[k := Slot(ino, name)] else Slots(c) + [Slot(ino, name)];
    forall m | 0 <= m < |c'| / DENT
      ensures Slots(c')[m] == r[m]
    {
      DentSlot(c, k, ino, name, m);
    }
  }

  lemma DentSlot(c: seq<Byte>, k: nat, ino: nat, name: Name, m: nat)
    requires |c| % DENT == 0 && k <= |c| / DENT && ino < 65536
    requires DENT * m + DENT <= |Splice(c, DENT * k, Dent(ino, name))|
    ensures m != k ==> DENT * m + DENT <= |c|
    ensures SlotAt(Splice(c, DENT * k, Dent(ino, name)), m) == if m == k then Slot(ino, name) else SlotAt(c, m)
  {
    hide Splice;
    var e := Dent(ino, name);
    var c' := Splice(c, DENT * k, e);
    SpliceByte(c, DENT * k, e, 0);
    var x, y := c'[DENT * m..DENT * m + DENT], if m == k then e else c[DENT * m..DENT * m + DENT];
    forall j | 0 <= j < DENT
      ensures x[j] == y[j]
    {
      SpliceByte(c, DENT * k, e, DENT * m + j);
    }
    assert x == y;
    EntryOfDent(ino, name);
  }

  /** Live entries carry different names. */
  ghost predicate Unique(s: seq<Slot>) {
    forall j, k :: 0 <= j < k < |s| && s[j].ino != 0 && s[k].ino != 0 ==> s[j].name != s[k].name
  }

  /** The first live entry called name, or |s|. */
  function Find(s: seq<Slot>, name: Name): (k: nat)
    ensures k <= |s|
    ensures k < |s| ==> s[k].ino != 0 && s[k].name == name
    ensures forall j :: 0 <= j < k ==> s[j].ino == 0 || s[j].name != name
  {
    if s == [] then 0
    else if s[|s| - 1].ino != 0 && s[|s| - 1].name == name && Find(s[..|s| - 1], name) == |s| - 1 then |s| - 1
    else if Find(s[..|s| - 1], name) == |s| - 1 then |s|
    else Find(s[..|s| - 1], name)
  }

  /** The first empty slot, or |s|: where namei leaves the offset for a new name. */
  function Vacant(s: seq<Slot>): (k: nat)
    ensures k <= |s|
    ensures k < |s| ==> s[k].ino == 0
    ensures forall j :: 0 <= j < k ==> s[j].ino != 0
  {
    if s == [] then 0
    else if Vacant(s[..|s| - 1]) < |s| - 1 then Vacant(s[..|s| - 1])
    else if s[|s| - 1].ino == 0 then |s| - 1 else |s|
  }

  /** A directory as a map from names to inode numbers. */
  ghost function DirMap(s: seq<Slot>): map<Name, nat> {
    map n: Name | n in NamesIn(s) && Find(s, n) < |s| :: s[Find(s, n)].ino
  }

  ghost function NamesIn(s: seq<Slot>): set<Name> {
    set k | 0 <= k < |s| :: s[k].name
  }

  function Put(s: seq<Slot>, k: nat, x: Slot): seq<Slot>
    requires k <= |s|
  {
    if k < |s| then s[k := x] else s + [x]
  }

  lemma FindUnique(s: seq<Slot>, name: Name, k: nat)
    requires Unique(s) && k < |s| && s[k].ino != 0 && s[k].name == name
    ensures Find(s, name) == k
  {
  }

  /** The map knows a name exactly when the search finds it, and gives the inode number found. */
  lemma MapIsFind(s: seq<Slot>, name: Name)
    ensures name in DirMap(s) <==> Find(s, name) < |s|
    ensures name in DirMap(s) ==> DirMap(s)[name] == s[Find(s, name)].ino
  {
    if Find(s, name) < |s| {
      assert s[Find(s, name)].name in NamesIn(s);
    }
  }

  /** A name's binding is decided by its live entry. */
  lemma MapSame(s: seq<Slot>, t: seq<Slot>, n: Name)
    requires Unique(s) && Unique(t)
    requires forall k :: 0 <= k < |s| && s[k].ino != 0 && s[k].name == n ==> k < |t| && t[k] == s[k]
    requires forall k :: 0 <= k < |t| && t[k].ino != 0 && t[k].name == n ==> k < |s| && s[k] == t[k]
    ensures n in DirMap(t) <==> n in DirMap(s)
    ensures n in DirMap(s) ==> DirMap(t)[n] == DirMap(s)[n]
  {
    hide Find, DirMap;
    MapIsFind(t, n);
    MapIsFind(s, n);
    var f, g := Find(s, n), Find(t, n);
    if f < |s| {
      FindUnique(t, n, f);
    }
  }

  /** Entering a name that is not there adds exactly that binding. */
  lemma MapAdd(s: seq<Slot>, k: nat, ino: nat, name: Name)
    requires Unique(s) && k <= |s| && (k < |s| ==> s[k].ino == 0) && ino != 0 && Find(s, name) == |s|
    ensures Unique(Put(s, k, Slot(ino, name))) && DirMap(Put(s, k, Slot(ino, name))) == DirMap(s)[name := ino]
  {
    hide Find, DirMap;
    var t := Put(s, k, Slot(ino, name));
    FindUnique(t, name, k);
    MapIsFind(t, name);
    forall n: Name | n != name
      ensures n in DirMap(t) <==> n in DirMap(s)
      ensures n in DirMap(s) ==> DirMap(t)[n] == DirMap(s)[n]
    {
      MapSame(s, t, n);
    }
  }

  /** Clearing a live entry removes exactly its binding. */
  lemma MapRemove(s: seq<Slot>, k: nat)
    requires Unique(s) && k < |s| && s[k].ino != 0
    ensures Unique(s[k := s[k].(ino := 0)]) && DirMap(s[k := s[k].(ino := 0)]) == DirMap(s) - {s[k].name}
  {
    hide Find, DirMap;
    var t, name := s[k := s[k].(ino := 0)], s[k].name;
    forall n: Name | n != name
      ensures n in DirMap(t) <==> n in DirMap(s)
      ensures n in DirMap(s) ==> DirMap(t)[n] == DirMap(s)[n]
    {
      MapSame(s, t, n);
    }
    MapIsFind(t, name);
  }
}
