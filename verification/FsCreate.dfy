/** Making a file: sectors are allocated, an inode is written and a directory entry is added. */
module FsCreate {
  import opened Bytes
  import opened Disk
  import opened Directory
  import opened Bitmaps
  import opened Layout
  import opened InodeTable
  import opened World
  import Spec = FsSpec

  /** w' is w after the free map, now with the given bits, was stored in its file. */
  ghost predicate StoredMap(w: World, w': World) {
    && w' == w.(disk := w'.disk, bits := w'.bits) && |w'.bits| == |w.bits|
    && Fits(w.disk, w.mapFile.inode.data) && ChangedOnlyIn(w.disk, w'.disk, w.mapFile.inode.data)
    && Decodes(Content(w'.disk, w.mapFile.inode.data), w'.bits)
  }

  ghost function Owned(w: World): set<nat>
    requires StateOk(w)
  {
    OwnedBy(w.disk, Held(w.tab))
  }

  /** Sector s belongs to no inode. */
  ghost predicate Unowned(w: World, s: nat)
    requires StateOk(w)
  {
    forall g :: g in Owned(w) ==> Placed(w.disk, g) && !Owns(w.disk, g, s)
  }

  /** A stored map that still marks every owned sector changes no file. */
  lemma MapStored(w: World, w': World)
    requires StateOk(w) && StoredMap(w, w')
    requires forall s :: 0 <= s < |w.bits| && w.bits[s] && !w'.bits[s] ==> Unowned(w, s)
    ensures StateOk(w') && Abs(w') == Abs(w) && Owned(w') == Owned(w) && RootSlots(w'.disk) == RootSlots(w.disk)
    ensures forall s :: 0 <= s < |w.bits| && Unowned(w, s) ==> Unowned(w', s)
  {
    MapInode(w);
    MapStoredDisk(w, w');
    MapMoved(w, w');
  }

  lemma MapStoredDisk(w: World, w': World)
    requires StateOk(w) && StoredMap(w, w')
    requires Placed(w.disk, FREE_MAP_SECTOR) && w.mapFile.inode.data == InodeAt(w.disk, FREE_MAP_SECTOR)
    requires forall s :: 0 <= s < |w.bits| && w.bits[s] && !w'.bits[s] ==> Unowned(w, s)
    ensures DiskOk(w'.disk, w'.bits, Held(w.tab)) && RootSlots(w'.disk) == RootSlots(w.disk)
    ensures OwnedBy(w'.disk, Held(w.tab)) == Owned(w) && SameFiles(w.disk, w'.disk, Owned(w), FREE_MAP_SECTOR)
    ensures forall s :: 0 <= s < |w.bits| && Unowned(w, s) ==> forall g :: g in Owned(w) ==> Placed(w'.disk, g) && !Owns(w'.disk, g, s)
  {
    hide TableOk, HandlesOk, Bound;
    assert Marked(w.disk, w'.bits, Owned(w)) by {
      forall h, s | h in Owned(w) && Owns(w.disk, h, s) ensures w'.bits[s] { assert !Unowned(w, s); }
    }
    FreeMapStored(w.disk, w'.disk, w'.bits, Held(w.tab));
  }

  /** A free sector is owned by nobody. */
  lemma FreeUnowned(w: World, s: nat)
    requires StateOk(w) && s < |w.bits| && !w.bits[s]
    ensures Unowned(w, s) && s > ROOT_DIR_SECTOR
  {
    hide TableOk, HandlesOk, Bound;
    assert FREE_MAP_SECTOR in Owned(w) && ROOT_DIR_SECTOR in Owned(w);
    assert Owns(w.disk, FREE_MAP_SECTOR, FREE_MAP_SECTOR) && Owns(w.disk, ROOT_DIR_SECTOR, ROOT_DIR_SECTOR);
  }

  /** w' is w after a new inode was written at sector s, with zeroed data in free sectors e. */
  ghost predicate MadeInode(w: World, w': World, s: nat, e: Extent) {
    && w' == w.(disk := w'.disk, bits := w'.bits) && |w'.disk| == |w.disk| == |w.bits| && WellFormed(w'.disk)
    && s < |w.disk| && w.bits[s] && e.length + SECTOR_SIZE - 1 <= INT_MAX
    && IsRun(w.bits, e.start, SectorCount(e.length), false)
    && w'.bits == SetRange(w.bits, e.start, SectorCount(e.length), true)
    && e.start < TWO32 && w'.disk[s] == InodeBytes(e)
    && (forall x :: InExtent(e, x) ==> w'.disk[x] == Zeros(SECTOR_SIZE))
    && (forall x :: 0 <= x < |w.disk| && x != s && !InExtent(e, x) && !InExtent(w.mapFile.inode.data, x) ==> w'.disk[x] == w.disk[x])
    && Fits(w'.disk, w.mapFile.inode.data) && Decodes(Content(w'.disk, w.mapFile.inode.data), w'.bits)
  }

  /** The device as it would be had only the free map been stored. */
  ghost function MapOnly(w: World, w': World, s: nat, e: Extent): World
    requires |w'.disk| == |w.disk|
  {
    w'.(disk := seq(|w.disk|, x requires 0 <= x < |w.disk| => if x == s || InExtent(e, x) then w.disk[x] else w'.disk[x]))
  }

  lemma MapOnlyStored(w: World, w': World, s: nat, e: Extent)
    requires StateOk(w) && MadeInode(w, w', s, e) && Unowned(w, s)
    ensures StoredMap(w, MapOnly(w, w', s, e))
  {
    hide StateOk, Layout.Placed;
    MapInode(w);
    var m := MapOnly(w, w', s, e);
    SystemOwned(w);
    assert WellFormed(m.disk);
    forall x | InExtent(w.mapFile.inode.data, x) ensures m.disk[x] == w'.disk[x] {
      assert Owns(w.disk, FREE_MAP_SECTOR, x);
      OwnedBit(w, FREE_MAP_SECTOR, x);
    }
    ContentFrame(w'.disk, m.disk, w.mapFile.inode.data);
  }

  lemma SystemOwned(w: World)
    requires StateOk(w)
    ensures FREE_MAP_SECTOR in Owned(w) && ROOT_DIR_SECTOR in Owned(w) && WellFormed(w.disk)
    ensures Placed(w.disk, FREE_MAP_SECTOR) && Placed(w.disk, ROOT_DIR_SECTOR)
  {}

  lemma MapFits(w: World)
    requires StateOk(w)
    ensures Fits(w.disk, w.mapFile.inode.data) && |w.disk| <= MAX_SECTORS
    ensures forall s :: InExtent(w.mapFile.inode.data, s) ==> w.bits[s]
    ensures forall s :: 0 <= s < |w.disk| && Unowned(w, s) ==> !InExtent(w.mapFile.inode.data, s)
  {
    MapInode(w);
    SystemOwned(w);
    hide TableOk, HandlesOk, Bound;
    forall s | InExtent(w.mapFile.inode.data, s) ensures w.bits[s] {
      assert Owns(w.disk, FREE_MAP_SECTOR, s);
    }
  }

  lemma OwnedBit(w: World, g: nat, x: nat)
    requires StateOk(w) && g in Owned(w) && Placed(w.disk, g) && Owns(w.disk, g, x)
    ensures x < |w.bits| && w.bits[x]
  {}

  lemma ZeroContent(d: Sectors, e: Extent)
    requires Fits(d, e) && forall x :: InExtent(e, x) ==> d[x] == Zeros(SECTOR_SIZE)
    ensures Content(d, e) == Zeros(e.length)
  {
    forall k | 0 <= k < e.length ensures Content(d, e)[k] == 0 { ContentAt(d, e, k); }
  }

  /** The new inode is in place, empty, and belongs to nobody; no file changed. */
  lemma InodeMade(w: World, w': World, s: nat, e: Extent)
    requires StateOk(w) && MadeInode(w, w', s, e) && Unowned(w, s) && s > ROOT_DIR_SECTOR
    ensures StateOk(w') && Abs(w') == Abs(w) && Owned(w') == Owned(w) && RootSlots(w'.disk) == RootSlots(w.disk)
    ensures Disjoint(w'.disk, Owned(w')) && Loose(w'.disk, w'.bits, Owned(w'), s)
    ensures Placed(w'.disk, s) && FileBytes(w'.disk, s) == Zeros(e.length)
  {
    hide StateOk, Abs, Owned;
    var m := MapOnly(w, w', s, e);
    MapOnlyStored(w, w', s, e);
    MapStored(w, m);
    forall x | InExtent(e, x) ensures Unowned(m, x) { FreeUnowned(w, x); }
    NewSectorsWritten(m, w', s, e);
    LooseInode(w, w', s, e);
  }

  lemma LooseInode(w: World, w': World, s: nat, e: Extent)
    requires MadeInode(w, w', s, e) && StateOk(w') && Unowned(w', s) && forall x :: InExtent(e, x) ==> Unowned(w', x)
    ensures Disjoint(w'.disk, Owned(w')) && Loose(w'.disk, w'.bits, Owned(w'), s) && FileBytes(w'.disk, s) == Zeros(e.length)
  {
    hide StateOk, Owned, InodeOf, InodeBytes, Decodes, Content, Zeros;
    OwnedDisjoint(w');
    assert InodeAt(w'.disk, s) == e by { InodeRoundTrip(e); }
    assert Fits(w'.disk, e) && !InExtent(e, s);
    ZeroContent(w'.disk, e);
  }

  lemma OwnedDisjoint(w: World)
    requires StateOk(w)
    ensures Disjoint(w.disk, Owned(w))
  {}

  /** Writing sectors that nobody owns moves nothing. */
  lemma NewSectorsWritten(m: World, w': World, s: nat, e: Extent)
    requires StateOk(m) && w' == m.(disk := w'.disk) && |w'.disk| == |m.disk| && WellFormed(w'.disk)
    requires Unowned(m, s) && forall x :: InExtent(e, x) ==> Unowned(m, x)
    requires forall x :: 0 <= x < |m.disk| && x != s && !InExtent(e, x) ==> w'.disk[x] == m.disk[x]
    ensures StateOk(w') && Abs(w') == Abs(m) && Owned(w') == Owned(m) && RootSlots(w'.disk) == RootSlots(m.disk)
    ensures Unowned(w', s) && forall x :: InExtent(e, x) ==> Unowned(w', x)
  {
    hide TableOk;
    assert |m.bits| == |m.disk|;
    forall g, x | g in Owned(m) && Owns(m.disk, g, x) ensures w'.disk[x] == m.disk[x] {
      assert !Unowned(m, x);
    }
    FreshWritten(m.disk, w'.disk, m.bits, Held(m.tab));
    MapMoved(m, w');
  }

  /** Room for an inode of this length: the sector count does not overflow and a free group exists. */
  ghost predicate HasRoom(bits: seq<bool>, length: nat) {
    length + SECTOR_SIZE - 1 <= INT_MAX && exists i :: IsRun(bits, i, SectorCount(length), false)
  }

  /** A free sector for the header and, once it is taken, room for the data. */
  ghost predicate Allocatable(bits: seq<bool>, length: nat) {
    exists h :: IsFirstRun(bits, 0, 1, false, Found(h)) && HasRoom(SetRange(bits, h, 1, true), length)
  }

  /** The first group of cnt free sectors at or after start. */
  ghost function FirstFree(bits: seq<bool>, start: nat, cnt: nat): (r: nat)
    requires exists i :: start <= i && IsRun(bits, i, cnt, false)
    ensures IsFirstRun(bits, start, cnt, false, Found(r))
    decreases |bits| - start
  {
    if IsRun(bits, start, cnt, false) then start else FirstFree(bits, start + 1, cnt)
  }

  lemma FirstFreeIs(bits: seq<bool>, cnt: nat, i: nat)
    requires IsFirstRun(bits, 0, cnt, false, Found(i))
    ensures (exists k :: 0 <= k && IsRun(bits, k, cnt, false)) && FirstFree(bits, 0, cnt) == i
  {
    assert IsRun(bits, i, cnt, false);
    var r := FirstFree(bits, 0, cnt);
    assert IsRun(bits, r, cnt, false);
  }

  /** bits' is the map after a file of this length was made: its header in the first free sector, its data in the first free group. */
  ghost predicate Took(bits: seq<bool>, bits': seq<bool>, length: nat) {
    exists h, start ::
      && IsFirstRun(bits, 0, 1, false, Found(h))
      && IsFirstRun(SetRange(bits, h, 1, true), 0, SectorCount(length), false, Found(start))
      && bits' == SetRange(SetRange(bits, h, 1, true), start, SectorCount(length), true)
  }

  ghost function Taken(bits: seq<bool>, length: nat): seq<bool>
    requires Allocatable(bits, length)
  {
    HeaderFirst(bits, length);
    var b1 := SetRange(bits, FirstFree(bits, 0, 1), 1, true);
    SetRange(b1, FirstFree(b1, 0, SectorCount(length)), SectorCount(length), true)
  }

  lemma HeaderFirst(bits: seq<bool>, length: nat)
    requires Allocatable(bits, length)
    ensures exists i :: 0 <= i && IsRun(bits, i, 1, false)
    ensures exists i :: 0 <= i && IsRun(SetRange(bits, FirstFree(bits, 0, 1), 1, true), i, SectorCount(length), false)
  {
    var h :| IsFirstRun(bits, 0, 1, false, Found(h)) && HasRoom(SetRange(bits, h, 1, true), length);
    FirstFreeIs(bits, 1, h);
  }

  /** There is one such map. */
  lemma TookIs(bits: seq<bool>, bits': seq<bool>, length: nat)
    requires Took(bits, bits', length) && Allocatable(bits, length)
    ensures bits' == Taken(bits, length)
  {
    var h, i :| IsFirstRun(bits, 0, 1, false, Found(h)) && IsFirstRun(SetRange(bits, h, 1, true), 0, SectorCount(length), false, Found(i))
      && bits' == SetRange(SetRange(bits, h, 1, true), i, SectorCount(length), true);
    FirstFreeIs(bits, 1, h);
    FirstFreeIs(SetRange(bits, h, 1, true), SectorCount(length), i);
  }

  /** The data was allocated for an inode whose header already was. */
  ghost predicate Extended(bits: seq<bool>, bits': seq<bool>, length: nat) {
    exists start :: IsFirstRun(bits, 0, SectorCount(length), false, Found(start)) && bits' == SetRange(bits, start, SectorCount(length), true)
  }

  lemma TookBoth(bits: seq<bool>, h: nat, bits': seq<bool>, length: nat)
    requires IsFirstRun(bits, 0, 1, false, Found(h)) && Extended(SetRange(bits, h, 1, true), bits', length)
    ensures Took(bits, bits', length)
  {}

  /** What a create depends on: the name, the names there are, a slot, and room on the device. */
  ghost predicate Creatable(cap: Capacity, names: set<Name>, name: Name, length: nat) {
    ValidName(name) && name !in names && |names| < cap.slots && Allocatable(cap.bits, length)
  }

  /** A directory has a free slot just when it has fewer names than slots. */
  lemma FreeSlots(slots: seq<Slot>)
    requires NamesUnique(slots)
    ensures HasFreeSlot(slots) <==> |UsedNames(slots)| < |slots|
  {
    UsedCount(slots, |slots|);
    assert UsedNames(slots) == UsedBefore(slots, |slots|);
  }

  ghost function UsedBefore(slots: seq<Slot>, n: nat): set<Name>
    requires n <= |slots|
  {
    set i | 0 <= i < n && slots[i].inUse :: slots[i].name
  }

  lemma {:induction false} UsedCount(slots: seq<Slot>, n: nat)
    requires NamesUnique(slots) && n <= |slots|
    ensures |UsedBefore(slots, n)| <= n
    ensures |UsedBefore(slots, n)| < n <==> exists i :: 0 <= i < n && !slots[i].inUse
  {
    if n > 0 {
      UsedCount(slots, n - 1);
      var s := slots[n - 1];
      assert UsedBefore(slots, n) == UsedBefore(slots, n - 1) + (if s.inUse then {s.name} else {});
      assert s.inUse ==> s.name !in UsedBefore(slots, n - 1);
      hide UsedBefore;
    }
  }

  /** What a failed create leaves in the map: the data sectors, if it got so far as to allocate them. */
  ghost predicate Leaked(bits: seq<bool>, bits': seq<bool>, length: nat) {
    if Allocatable(bits, length) then Abandoned(bits, bits', length) else bits' == bits
  }

  ghost predicate Abandoned(bits: seq<bool>, bits': seq<bool>, length: nat) {
    exists h, start ::
      && IsFirstRun(bits, 0, 1, false, Found(h))
      && IsFirstRun(SetRange(bits, h, 1, true), 0, SectorCount(length), false, Found(start))
      && bits' == SetRange(bits, start, SectorCount(length), true)
  }

  lemma LooseUnowned(w: World, h: nat)
    requires StateOk(w) && Disjoint(w.disk, Owned(w)) && Loose(w.disk, w.bits, Owned(w), h)
    ensures Unowned(w, h) && h < |w.bits| && w.bits[h]
  {
    assert Owns(w.disk, h, h);
  }

  /** Giving the header back leaves the data sectors marked. */
  lemma HeaderGivenBack(bits: seq<bool>, h: nat, bits': seq<bool>, length: nat)
    requires IsFirstRun(bits, 0, 1, false, Found(h))
    requires var bits1 := SetRange(bits, h, 1, true);
      if HasRoom(bits1, length) then Extended(bits1, bits', length) else bits' == bits1
    ensures h < |bits'| && Leaked(bits, SetRange(bits', h, 1, false), length)
  {
    var bits1, cnt := SetRange(bits, h, 1, true), SectorCount(length);
    HeaderFound(bits, Found(h), length);
    if HasRoom(bits1, length) {
      var start :| IsFirstRun(bits1, 0, cnt, false, Found(start)) && bits' == SetRange(bits1, start, cnt, true);
      assert IsRun(bits1, start, cnt, false) && !bits[h];
      assert SetRange(bits', h, 1, false) == SetRange(bits, start, cnt, true);
      assert Abandoned(bits, SetRange(bits', h, 1, false), length);
    } else {
      assert SetRange(bits', h, 1, false) == bits;
    }
  }

  /** The header is the first free sector, if there is one. */
  lemma HeaderFound(bits: seq<bool>, r: ScanResult, length: nat)
    requires IsFirstRun(bits, 0, 1, false, r)
    ensures Allocatable(bits, length) <==> r.Found? && HasRoom(SetRange(bits, r.idx, 1, true), length)
    ensures r.BitmapError? ==> Leaked(bits, bits, length)
  {}

  predicate HasFreeSlot(slots: seq<Slot>) {
    exists i :: 0 <= i < |slots| && !slots[i].inUse
  }

  lemma RootNames(w: World)
    requires StateOk(w)
    ensures Placed(w.disk, ROOT_DIR_SECTOR) && Abs(w).names.Keys == UsedNames(RootSlots(w.disk))
  {}

  lemma FreeSlot(w: World)
    requires StateOk(w)
    ensures Placed(w.disk, ROOT_DIR_SECTOR) && (HasFreeSlot(RootSlots(w.disk)) <==> |Abs(w).names.Keys| < Cap(w).slots)
  {
    RootNames(w);
    FreeSlots(RootSlots(w.disk));
  }

  /** w' is w after slot k of the root directory was filled with the new inode. */
  ghost predicate FilledRoot(w: World, w': World, name: Name, h: nat, k: nat) {
    && w' == w.(disk := w'.disk)
    && Placed(w.disk, ROOT_DIR_SECTOR) && ChangedOnlyIn(w.disk, w'.disk, InodeAt(w.disk, ROOT_DIR_SECTOR))
    && k < |RootSlots(w.disk)| && !RootSlots(w.disk)[k].inUse && ValidName(name) && name !in UsedNames(RootSlots(w.disk))
    && Slots(Content(w'.disk, InodeAt(w.disk, ROOT_DIR_SECTOR))) == RootSlots(w.disk)[k := Slot(true, name, h)]
  }

  /** Entering a loose inode creates the file, with the contents the inode has. */
  lemma Entered(w: World, w': World, name: Name, h: nat, k: nat)
    requires StateOk(w) && FilledRoot(w, w', name, h, k) && h > ROOT_DIR_SECTOR
    requires Disjoint(w.disk, Owned(w)) && Loose(w.disk, w.bits, Owned(w), h)
    ensures StateOk(w') && h !in Abs(w).files && name !in Abs(w).names
    ensures Abs(w') == Abs(w).(names := Abs(w).names[name := h], files := Abs(w).files[h := FileBytes(w.disk, h)])
    ensures |RootSlots(w'.disk)| == |RootSlots(w.disk)|
  {
    hide TableOk, DiskOk, SameFiles, OwnedBy, UsedSectors, UsedNames, Loose, Bound, Files, Disjoint, FileBytes;
    var d, d', held := w.disk, w'.disk, Held(w.tab);
    EntryAdded(d, d', w.bits, held, h, k, name);
    AllPlaced(d, w.bits, held);
    AllPlaced(d', w.bits, held);
    RootsOk(d, w.bits, held);
    RootsOk(d', w.bits, held);
    FilesEntered(d, d', held, h);
    BoundEntered(w, w', h);
  }

  lemma RootsOk(d: Sectors, bits: seq<bool>, held: set<nat>)
    requires DiskOk(d, bits, held)
    ensures RootOk(d, held) && Placed(d, ROOT_DIR_SECTOR)
  {}

  lemma FilesEntered(d: Sectors, d': Sectors, held: set<nat>, h: nat)
    requires RootOk(d, held) && RootOk(d', held) && h > ROOT_DIR_SECTOR && h !in OwnedBy(d, held) && Placed(d, h)
    requires forall g :: g in OwnedBy(d, held) ==> Placed(d, g)
    requires forall g :: g in OwnedBy(d', held) ==> Placed(d', g)
    requires UsedSectors(RootSlots(d')) == UsedSectors(RootSlots(d)) + {h}
    requires SameFiles(d, d', OwnedBy(d', held), ROOT_DIR_SECTOR)
    ensures Files(d', held) == Files(d, held)[h := FileBytes(d, h)] && h !in Files(d, held)
  {
    hide DirOk, FileBytes, RootSlots, UsedSectors, Placed;
    LinkedOrdinary(d, held);
    LinkedOrdinary(d', held);
  }

  lemma BoundEntered(w: World, w': World, h: nat)
    requires StateOk(w) && w'.tab == w.tab && Placed(w'.disk, ROOT_DIR_SECTOR)
    requires OwnedBy(w'.disk, Held(w.tab)) == OwnedBy(w.disk, Held(w.tab)) + {h}
    requires SameFiles(w.disk, w'.disk, OwnedBy(w'.disk, Held(w.tab)), ROOT_DIR_SECTOR)
    ensures Bound(w'.disk, w'.tab)
  {
    hide TableOk, DirOk, Disjoint, Marked, Synced;
  }

  /** Slot k holds the name and leads to the file that the name means. */
  ghost predicate NamedBy(w: World, name: Name, k: nat)
    requires StateOk(w)
  {
    var slots := RootSlots(w.disk);
    && k < |slots| && slots[k].inUse && slots[k].name == name
    && name in Abs(w).names && Abs(w).names[name] == slots[k].sector && slots[k].sector > ROOT_DIR_SECTOR
    && slots[k].sector in Owned(w) && slots[k].sector < |w.disk|
  }

  /** A name leads to the inode of the first slot that holds it. */
  lemma NamedInode(w: World, name: Name)
    requires StateOk(w) && name in UsedNames(RootSlots(w.disk))
    ensures NamedBy(w, name, Find(RootSlots(w.disk), name))
  {
    hide TableOk, HandlesOk, Bound;
    var slots := RootSlots(w.disk);
    FindUsed(slots, name);
    var k := Find(slots, name);
    assert slots[k].sector in UsedSectors(slots);
    assert Placed(w.disk, slots[k].sector);
  }

  /** w' is w after slot k of the root directory was erased and its inode marked removed. */
  ghost predicate ErasedRoot(w: World, w': World, i: Inode, k: nat) {
    && Placed(w.disk, ROOT_DIR_SECTOR) && i in w.tab.inodes
    && w' == w.(disk := w'.disk, tab := MarkedRemoved(w.tab, i))
    && ChangedOnlyIn(w.disk, w'.disk, InodeAt(w.disk, ROOT_DIR_SECTOR))
    && k < |RootSlots(w.disk)| && RootSlots(w.disk)[k].inUse && RootSlots(w.disk)[k].sector == i.sector
    && Slots(Content(w'.disk, InodeAt(w.disk, ROOT_DIR_SECTOR))) == RootSlots(w.disk)[k := RootSlots(w.disk)[k].(inUse := false)]
  }

  /** The name is gone; the file stays with those who have it open. */
  lemma Erased(w: World, w': World, i: Inode, name: Name, k: nat)
    requires StateOk(w) && ErasedRoot(w, w', i, k) && RootSlots(w.disk)[k].name == name
    ensures StateOk(w') && Abs(w') == Abs(w).(names := Abs(w).names - {name}) && |RootSlots(w'.disk)| == |RootSlots(w.disk)|
  {
    hide TableOk, DiskOk, SameFiles, OwnedBy, UsedSectors, Bound, Files;
    var d, d', held := w.disk, w'.disk, Held(w.tab);
    EntryErased(d, d', w.bits, held, k);
    MarkedRemovedOk(w.tab, i);
    AllPlaced(d, w.bits, held);
    AllPlaced(d', w.bits, held + {i.sector});
    RootsOk(d, w.bits, held);
    RootsOk(d', w.bits, held + {i.sector});
    SlotListed(RootSlots(d), k);
    FilesErased(d, d', held, i.sector);
    BoundErased(w, w');
  }

  lemma SlotListed(slots: seq<Slot>, k: nat)
    requires k < |slots| && slots[k].inUse
    ensures slots[k].sector in UsedSectors(slots)
  {}

  lemma FilesErased(d: Sectors, d': Sectors, held: set<nat>, h: nat)
    requires RootOk(d, held) && RootOk(d', held + {h}) && h in UsedSectors(RootSlots(d))
    requires forall g :: g in OwnedBy(d, held) ==> Placed(d, g)
    requires forall g :: g in OwnedBy(d', held + {h}) ==> Placed(d', g)
    requires UsedSectors(RootSlots(d')) == UsedSectors(RootSlots(d)) - {h}
    requires SameFiles(d, d', OwnedBy(d, held), ROOT_DIR_SECTOR)
    ensures Files(d', held + {h}) == Files(d, held)
  {
    hide DirOk;
    LinkedOrdinary(d, held);
    assert UsedSectors(RootSlots(d')) + (held + {h}) == UsedSectors(RootSlots(d)) + held;
  }

  lemma BoundErased(w: World, w': World)
    requires StateOk(w) && w'.tab.inodes.Keys == w.tab.inodes.Keys && Placed(w'.disk, ROOT_DIR_SECTOR)
    requires OwnedBy(w'.disk, Held(w'.tab)) == OwnedBy(w.disk, Held(w.tab))
    requires SameFiles(w.disk, w'.disk, OwnedBy(w.disk, Held(w.tab)), ROOT_DIR_SECTOR)
    ensures Bound(w'.disk, w'.tab)
  {
    hide TableOk, DirOk, Disjoint, Marked, Synced;
  }

  lemma NamedOwned(w: World, name: Name, k: nat)
    requires StateOk(w) && NamedBy(w, name, k)
    ensures k < |RootSlots(w.disk)| && RootSlots(w.disk)[k].sector < |w.disk|
    ensures RootSlots(w.disk)[k].sector in Owned(w)
  {
    hide TableOk, DiskOk;
  }

  lemma NamedKept(w: World, w': World, name: Name, k: nat)
    requires StateOk(w) && StateOk(w') && NamedBy(w, name, k)
    requires w'.disk == w.disk && Owned(w') == Owned(w) && Abs(w') == Abs(w)
    ensures NamedBy(w', name, k)
  {
    hide TableOk, DiskOk;
  }

  // ------------------------------------------------- formatting

  /** A free map with exactly the first k sectors marked. */
  ghost function FirstMarked(n: nat, k: nat): (b: seq<bool>)
    ensures |b| == n && forall i :: 0 <= i < n ==> b[i] == (i < k)
  {
    seq(n, i requires 0 <= i < n => i < k)
  }

  lemma FirstRunAt(n: nat, k: nat, cnt: nat, start: nat)
    requires 0 < cnt && k + cnt <= n && IsFirstRun(FirstMarked(n, k), 0, cnt, false, Found(start))
    ensures start == k && SetRange(FirstMarked(n, k), start, cnt, true) == FirstMarked(n, k + cnt)
  {
    assert IsRun(FirstMarked(n, k), k, cnt, false);
    assert IsRun(FirstMarked(n, k), start, cnt, false) && !FirstMarked(n, k)[start];
  }

  /** What do_format leaves on the device: the free map in its file and an empty root directory. */
  ghost predicate Formatted(d: Sectors, bits: seq<bool>) {
    var n := SectorCount(ByteCnt(|d|));
    && WellFormed(d) && 2 + n < |d| <= MAX_SECTORS && bits == FirstMarked(|d|, 3 + n)
    && InodeAt(d, FREE_MAP_SECTOR) == Extent(2, ByteCnt(|d|)) && InodeAt(d, ROOT_DIR_SECTOR) == Extent(2 + n, ROOT_ENTRIES * ENTRY_SIZE)
    && Decodes(Content(d, Extent(2, ByteCnt(|d|))), bits)
    && Content(d, Extent(2 + n, ROOT_ENTRIES * ENTRY_SIZE)) == Zeros(ROOT_ENTRIES * ENTRY_SIZE)
  }

  lemma FormattedMap(d: Sectors, bits: seq<bool>)
    requires Formatted(d, bits)
    ensures bits == FirstMarked(|d|, 3 + SectorCount(ByteCnt(|d|)))
  {}

  lemma {:induction false} ZeroSlots(n: nat)
    ensures forall i :: 0 <= i < n / ENTRY_SIZE ==> !Slots(Zeros(n))[i].inUse
  {
    forall i | 0 <= i < n / ENTRY_SIZE ensures !Slots(Zeros(n))[i].inUse { SlotsAt(Zeros(n), i); }
  }

  /** A freshly formatted device is consistent and holds no file. */
  lemma EmptyFs(d: Sectors, bits: seq<bool>)
    requires Formatted(d, bits)
    ensures DiskOk(d, bits, {}) && AbsOf(d, {}, map[]) == Spec.Fs(map[], map[], map[]) && |RootSlots(d)| == ROOT_ENTRIES
  {
    ZeroSlots(ROOT_ENTRIES * ENTRY_SIZE);
    var slots := RootSlots(d);
    assert UsedSectors(slots) == {} && UsedNames(slots) == {};
    assert OwnedBy(d, {}) == {FREE_MAP_SECTOR, ROOT_DIR_SECTOR};
  }
}
