/**
 * The layout of directory entries and on-disk inodes, and what a
 * directory file means (filesys/directory.h, filesys/inode.h).
 */
module Directory {
  import opened Bytes

  const NAME_MAX: nat := 14
  const ENTRY_SIZE: nat := 20
  const ROOT_ENTRIES: nat := 16

  type Name = seq<byte>

  /** A string that strlcpy can store in a directory entry and that dir_add accepts. */
  predicate ValidName(name: Name) {
    0 < |name| <= NAME_MAX
  }

  /** `struct dir_entry`: 4 bytes of inode sector, 15 of name, 1 of in_use. */
  datatype Slot = Slot(inUse: bool, name: Name, sector: nat)

  function SlotOf(e: seq<byte>): (s: Slot)
    requires |e| == ENTRY_SIZE
  {
    Slot(e[19] != 0, CStr(e[4..19]), FromLE32(e[..4]))
  }

  /** The entry buffer after `in_use`, `name` and `inode_sector` were assigned. */
  function FilledEntry(e: seq<byte>, name: Name, sector: nat): (r: seq<byte>)
    requires |e| == ENTRY_SIZE && ValidName(name) && sector < TWO32
    ensures |r| == ENTRY_SIZE
  {
    LE32(sector) + (name + [0] + e[5 + |name|..19]) + [1]
  }

  function ErasedEntry(e: seq<byte>): (r: seq<byte>)
    requires |e| == ENTRY_SIZE
    ensures |r| == ENTRY_SIZE
  {
    e[..19] + [0]
  }

  lemma FilledSlot(e: seq<byte>, name: Name, sector: nat)
    requires |e| == ENTRY_SIZE && ValidName(name) && 0 !in name && sector < TWO32
    ensures SlotOf(FilledEntry(e, name, sector)) == Slot(true, name, sector)
  {
    var r := FilledEntry(e, name, sector);
    LE32RoundTrip(sector);
    CStrTerminated(name, e[5 + |name|..19]);
    assert r[..4] == LE32(sector) && r[4..19] == name + [0] + e[5 + |name|..19];
  }

  lemma ErasedSlot(e: seq<byte>)
    requires |e| == ENTRY_SIZE
    ensures SlotOf(ErasedEntry(e)) == SlotOf(e).(inUse := false)
  {
    var r := ErasedEntry(e);
    assert r[..4] == e[..4] && r[4..19] == e[4..19];
  }

  function EntryAt(c: seq<byte>, i: nat): (e: seq<byte>)
    requires ENTRY_SIZE * (i + 1) <= |c|
    ensures |e| == ENTRY_SIZE
  {
    c[ENTRY_SIZE * i..ENTRY_SIZE * (i + 1)]
  }

  /** The slots of a directory file. */
  ghost function Slots(c: seq<byte>): (s: seq<Slot>)
    ensures |s| == |c| / ENTRY_SIZE
  {
    if |c| < ENTRY_SIZE then [] else [SlotOf(c[..ENTRY_SIZE])] + Slots(c[ENTRY_SIZE..])
  }

  lemma {:induction false} SlotsAt(c: seq<byte>, i: nat)
    requires i < |c| / ENTRY_SIZE
    ensures Slots(c)[i] == SlotOf(EntryAt(c, i))
  {
    if i == 0 {
      assert EntryAt(c, 0) == c[..ENTRY_SIZE];
    } else {
      var rest := c[ENTRY_SIZE..];
      SlotsAt(rest, i - 1);
      assert rest[ENTRY_SIZE * (i - 1)..ENTRY_SIZE * i] == c[ENTRY_SIZE * i..ENTRY_SIZE * (i + 1)];
    }
  }

  /** Rewriting one entry rewrites one slot. */
  lemma EntryWritten(c: seq<byte>, c': seq<byte>, i: nat, e: seq<byte>)
    requires |e| == ENTRY_SIZE && i < |c| / ENTRY_SIZE && |c'| == |c|
    requires c' == c[..ENTRY_SIZE * i] + e + c[ENTRY_SIZE * (i + 1)..]
    ensures Slots(c') == Slots(c)[i := SlotOf(e)]
  {
    var s, s' := Slots(c)[i := SlotOf(e)], Slots(c');
    forall k | 0 <= k < |s| ensures s'[k] == s[k] {
      SlotsAt(c, k);
      SlotsAt(c', k);
      EntryKept(c, c', i, e, k);
    }
  }

  lemma EntryKept(c: seq<byte>, c': seq<byte>, i: nat, e: seq<byte>, k: nat)
    requires |e| == ENTRY_SIZE && i < |c| / ENTRY_SIZE && |c'| == |c| && k < |c| / ENTRY_SIZE
    requires c' == c[..ENTRY_SIZE * i] + e + c[ENTRY_SIZE * (i + 1)..]
    ensures EntryAt(c', k) == if k == i then e else EntryAt(c, k)
  {}

  /** Slot k holds the name. */
  predicate Holds(slots: seq<Slot>, k: int, name: Name) {
    0 <= k < |slots| && slots[k].inUse && slots[k].name == name
  }

  /** No name is in use twice. */
  ghost predicate NamesUnique(slots: seq<Slot>) {
    forall i, j :: 0 <= i < j < |slots| && slots[i].inUse && slots[j].inUse ==> slots[i].name != slots[j].name
  }

  ghost function UsedNames(slots: seq<Slot>): set<Name> {
    set i | 0 <= i < |slots| && slots[i].inUse :: slots[i].name
  }

  /** The first slot at or after `from` that holds the name, or the number of slots. */
  ghost function Find(slots: seq<Slot>, name: Name, from: nat := 0): (k: nat)
    requires from <= |slots|
    ensures from <= k <= |slots| && (k < |slots| ==> Holds(slots, k, name))
    ensures forall i :: from <= i < k ==> !Holds(slots, i, name)
    decreases |slots| - from
  {
    if from == |slots| || Holds(slots, from, name) then from else Find(slots, name, from + 1)
  }

  lemma FindUsed(slots: seq<Slot>, name: Name)
    ensures name in UsedNames(slots) <==> Find(slots, name) < |slots|
  {
    if name in UsedNames(slots) {
      var i :| 0 <= i < |slots| && slots[i].inUse && slots[i].name == name;
      assert Holds(slots, i, name);
    }
  }

  /** The directory as a map from names to inode sectors. */
  ghost function Names(slots: seq<Slot>): (m: map<Name, nat>)
    ensures m.Keys == UsedNames(slots)
  {
    map name | name in UsedNames(slots) :: (FindUsed(slots, name); slots[Find(slots, name)].sector)
  }

  ghost function UsedSectors(slots: seq<Slot>): set<nat> {
    set i | 0 <= i < |slots| && slots[i].inUse :: slots[i].sector
  }

  lemma NameAt(slots: seq<Slot>, k: nat, name: Name)
    requires NamesUnique(slots) && Holds(slots, k, name)
    ensures name in Names(slots) && Names(slots)[name] == slots[k].sector && Find(slots, name) == k
  {
    assert name in UsedNames(slots);
    FindUsed(slots, name);
    var j := Find(slots, name);
    assert Holds(slots, j, name);
  }

  /** The sectors that the directory's names lead to are those of its slots in use. */
  lemma NamesValues(slots: seq<Slot>)
    requires NamesUnique(slots)
    ensures Names(slots).Values == UsedSectors(slots)
  {
    forall s | s in UsedSectors(slots) ensures s in Names(slots).Values {
      var i :| 0 <= i < |slots| && slots[i].inUse && slots[i].sector == s;
      assert Holds(slots, i, slots[i].name);
      NameAt(slots, i, slots[i].name);
    }
    forall s | s in Names(slots).Values ensures s in UsedSectors(slots) {
      var n :| n in Names(slots) && Names(slots)[n] == s;
      FindUsed(slots, n);
      assert slots[Find(slots, n)].sector == s;
    }
  }

  lemma FilledUnique(slots: seq<Slot>, i: nat, name: Name, sector: nat)
    requires NamesUnique(slots) && i < |slots| && !slots[i].inUse && name !in UsedNames(slots)
    ensures NamesUnique(slots[i := Slot(true, name, sector)])
  {
    var s' := slots[i := Slot(true, name, sector)];
    forall a, b | 0 <= a < b < |s'| && s'[a].inUse && s'[b].inUse ensures s'[a].name != s'[b].name {
      if a == i { assert slots[b].name in UsedNames(slots); }
      if b == i { assert slots[a].name in UsedNames(slots); }
    }
  }

  lemma FilledNames(slots: seq<Slot>, i: nat, name: Name, sector: nat)
    requires i < |slots| && !slots[i].inUse
    ensures UsedNames(slots[i := Slot(true, name, sector)]) == UsedNames(slots) + {name}
  {
    var s' := slots[i := Slot(true, name, sector)];
    forall n | n in UsedNames(slots) ensures n in UsedNames(s') {
      var k :| 0 <= k < |slots| && slots[k].inUse && slots[k].name == n;
      assert s'[k].name == n;
    }
    assert s'[i].name == name;
  }

  /** Filling a free slot with a new name adds one binding. */
  lemma SlotFilled(slots: seq<Slot>, i: nat, name: Name, sector: nat)
    requires NamesUnique(slots) && i < |slots| && !slots[i].inUse && name !in UsedNames(slots)
    ensures NamesUnique(slots[i := Slot(true, name, sector)])
    ensures Names(slots[i := Slot(true, name, sector)]) == Names(slots)[name := sector]
    ensures UsedSectors(slots[i := Slot(true, name, sector)]) == UsedSectors(slots) + {sector}
  {
    var s' := slots[i := Slot(true, name, sector)];
    FilledUnique(slots, i, name, sector);
    FilledNames(slots, i, name, sector);
    assert Names(s') == Names(slots)[name := sector] by {
      hide UsedSectors, NamesUnique;
      assert Names(s').Keys == Names(slots).Keys + {name};
      assert Names(s')[name] == sector by { NameAt(s', i, name); }
      forall n | n in UsedNames(slots) ensures n in Names(s') && Names(s')[n] == Names(slots)[n] {
        KeptName(slots, s', i, n);
      }
    }
    assert UsedSectors(s') == UsedSectors(slots) + {sector} by {
      hide Names, NamesUnique, UsedNames;
      SectorsKept(slots, s', i);
      SectorsKept(s', slots, i);
      assert s'[i].sector == sector;
    }
  }

  /** Clearing in_use of a slot removes exactly its name. */
  lemma SlotErased(slots: seq<Slot>, i: nat)
    requires NamesUnique(slots) && i < |slots| && slots[i].inUse
    requires forall k :: 0 <= k < |slots| && k != i && slots[k].inUse ==> slots[k].sector != slots[i].sector
    ensures NamesUnique(slots[i := slots[i].(inUse := false)])
    ensures Names(slots[i := slots[i].(inUse := false)]) == Names(slots) - {slots[i].name}
    ensures UsedSectors(slots[i := slots[i].(inUse := false)]) == UsedSectors(slots) - {slots[i].sector}
  {
    var s' := slots[i := slots[i].(inUse := false)];
    ErasedNames(slots, i);
    assert Names(s') == Names(slots) - {slots[i].name} by {
      forall n | n in UsedNames(slots) && n != slots[i].name ensures n in Names(s') && Names(s')[n] == Names(slots)[n] {
        KeptName(slots, s', i, n);
      }
    }
    assert UsedSectors(s') == UsedSectors(slots) - {slots[i].sector} by {
      SectorsKept(slots, s', i);
      SectorsKept(s', slots, i);
    }
  }

  lemma ErasedNames(slots: seq<Slot>, i: nat)
    requires NamesUnique(slots) && i < |slots| && slots[i].inUse
    ensures NamesUnique(slots[i := slots[i].(inUse := false)])
    ensures UsedNames(slots[i := slots[i].(inUse := false)]) == UsedNames(slots) - {slots[i].name}
  {
    var s' := slots[i := slots[i].(inUse := false)];
    forall n | n in UsedNames(slots) && n != slots[i].name ensures n in UsedNames(s') {
      var k :| 0 <= k < |slots| && slots[k].inUse && slots[k].name == n;
      assert s'[k].name == n;
    }
  }

  /** A name held by a slot that did not change keeps its sector. */
  lemma KeptName(slots: seq<Slot>, s': seq<Slot>, i: nat, n: Name)
    requires NamesUnique(slots) && NamesUnique(s') && |s'| == |slots|
    requires forall k :: 0 <= k < |slots| && k != i ==> s'[k] == slots[k]
    requires n in UsedNames(slots) && !Holds(slots, i, n)
    ensures n in Names(s') && Names(s')[n] == Names(slots)[n]
  {
    FindUsed(slots, n);
    var k := Find(slots, n);
    assert Holds(s', k, n);
    NameAt(slots, k, n);
    NameAt(s', k, n);
  }

  lemma SectorsKept(slots: seq<Slot>, s': seq<Slot>, i: nat)
    requires |s'| == |slots| && i < |slots|
    requires forall k :: 0 <= k < |slots| && k != i ==> s'[k] == slots[k]
    ensures forall s :: s in UsedSectors(slots) && !(slots[i].inUse && s == slots[i].sector) ==> s in UsedSectors(s')
  {
    forall s | s in UsedSectors(slots) && !(slots[i].inUse && s == slots[i].sector) ensures s in UsedSectors(s') {
      var k :| 0 <= k < |slots| && slots[k].inUse && slots[k].sector == s;
      assert s'[k].sector == s;
    }
  }
}
