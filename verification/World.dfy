/**
 * The whole state of the file system as a value: the device, the free
 * map, the table of open inodes and the handles; what keeps it together,
 * and how each kind of change moves it.
 */
module World {
  import opened Bytes
  import opened Disk
  import opened Directory
  import opened Bitmaps
  import opened Layout
  import opened InodeTable
  import Spec = FsSpec

  datatype World = World(disk: Sectors, bits: seq<bool>, tab: Table, mapFile: File, hm: map<File, Spec.Handle>)

  /** Every inode in memory is a copy of one that exists on the device. */
  ghost predicate Bound(d: Sectors, t: Table)
    requires Placed(d, ROOT_DIR_SECTOR)
  {
    forall i :: i in t.inodes ==> i.sector in OwnedBy(d, Held(t)) && i.sector < |d| && i.data == InodeAt(d, i.sector)
  }

  /** The handles are the files other than the free map's own, each on an ordinary inode. */
  ghost predicate HandlesOk(w: World) {
    && w.tab.files == w.hm.Keys + {w.mapFile} && w.mapFile !in w.hm
    && w.mapFile !in w.tab.denying && w.mapFile.inode.sector == FREE_MAP_SECTOR
    && forall f :: f in w.hm ==>
         f.inode.sector > ROOT_DIR_SECTOR && w.hm[f].file == f.inode.sector && w.hm[f].deny == (f in w.tab.denying)
  }

  ghost predicate StateOk(w: World) {
    TableOk(w.tab) && HandlesOk(w) && DiskOk(w.disk, w.bits, Held(w.tab)) && Bound(w.disk, w.tab)
  }

  /** The files on a device, by name and by inode, under the given handles. */
  ghost function AbsOf(d: Sectors, held: set<nat>, hm: map<File, Spec.Handle>): Spec.Fs<File>
    requires RootOk(d, held) && forall h :: h in OwnedBy(d, held) ==> Placed(d, h)
  {
    Spec.Fs(
      Names(RootSlots(d)),
      Files(d, held),
      hm)
  }

  ghost function Abs(w: World): Spec.Fs<File>
    requires StateOk(w)
  {
    AbsOf(w.disk, Held(w.tab), w.hm)
  }

  /** What creating a file depends on besides the names: the free map and the slots of the root directory. */
  datatype Capacity = Capacity(bits: seq<bool>, slots: nat)

  ghost function Cap(w: World): Capacity
    requires StateOk(w)
  {
    Capacity(w.bits, |RootSlots(w.disk)|)
  }

  /** A header at id and cnt data sectors at start were marked and are cleared. */
  ghost predicate GivenBack(bits: seq<bool>, bits': seq<bool>, id: nat, start: nat, cnt: nat) {
    && IsRun(bits, id, 1, true) && IsRun(SetRange(bits, id, 1, false), start, cnt, true)
    && bits' == SetRange(SetRange(bits, id, 1, false), start, cnt, false)
  }

  ghost predicate Returned(bits: seq<bool>, bits': seq<bool>, id: nat, length: nat) {
    exists start: nat :: GivenBack(bits, bits', id, start, SectorCount(length))
  }

  /** Either no file is gone and the map is the same, or one is, and exactly its sectors are free again. */
  ghost predicate Settled(files: map<nat, seq<byte>>, files': map<nat, seq<byte>>, bits: seq<bool>, bits': seq<bool>) {
    || (files' == files && bits' == bits)
    || exists id :: id in files && files' == files - {id} && Returned(bits, bits', id, |files[id]|)
  }

  // ------------------------------------------------- what a valid state gives

  lemma LinkedOrdinary(d: Sectors, held: set<nat>)
    requires RootOk(d, held)
    ensures forall h :: h in UsedSectors(RootSlots(d)) + held ==> h > ROOT_DIR_SECTOR && h in OwnedBy(d, held)
  {
    var slots := RootSlots(d);
    forall h | h in UsedSectors(slots) ensures h > ROOT_DIR_SECTOR {
      var i :| 0 <= i < |slots| && slots[i].inUse && slots[i].sector == h;
    }
  }

  /** The inode of a handle is an ordinary file of the abstract state, and the handle reads its bytes. */
  lemma HandleFile(w: World, f: File)
    requires StateOk(w) && f in w.hm
    ensures f.inode in w.tab.inodes && f in w.tab.files
    ensures f.inode.sector in UsedSectors(RootSlots(w.disk)) + Held(w.tab) && f.inode.sector in OwnedBy(w.disk, Held(w.tab))
    ensures Placed(w.disk, f.inode.sector) && f.inode.data == InodeAt(w.disk, f.inode.sector) && f.inode.sector > ROOT_DIR_SECTOR
    ensures Abs(w).handles == w.hm && w.hm[f].file == f.inode.sector
    ensures f.inode.sector in Abs(w).files && Abs(w).files[f.inode.sector] == Content(w.disk, f.inode.data)
  {
    hide DiskOk, TableOk;
    assert f in w.tab.files;
    assert TableOk(w.tab) && DiskOk(w.disk, w.bits, Held(w.tab));
    InTable(w.tab, f);
    OwnedPlaced(w.disk, w.bits, Held(w.tab), f.inode.sector);
  }

  /** What an operation on a handle needs to know of the abstract state. */
  lemma HandleAbs(w: World, f: File)
    requires StateOk(w) && f in w.hm
    ensures Abs(w).handles == w.hm && w.hm[f].file == f.inode.sector && Fits(w.disk, f.inode.data)
    ensures f.inode.sector in Abs(w).files && Abs(w).files[f.inode.sector] == Content(w.disk, f.inode.data)
  {
    hide StateOk, Abs;
    HandleFile(w, f);
  }

  lemma InTable(t: Table, f: File)
    requires TableOk(t) && f in t.files
    ensures f.inode in t.inodes
  {}

  lemma OwnedPlaced(d: Sectors, bits: seq<bool>, held: set<nat>, h: nat)
    requires DiskOk(d, bits, held)
    ensures h in OwnedBy(d, held) ==> Placed(d, h)
    ensures h in OwnedBy(d, held) && h > ROOT_DIR_SECTOR ==> h in UsedSectors(RootSlots(d)) + held
  {}

  /** deny_write_cnt is nonzero exactly when some handle of the file denies writes. */
  lemma DeniedIff(w: World, i: Inode)
    requires StateOk(w) && i in w.tab.inodes
    ensures w.tab.inodes[i].deny != 0 <==> Spec.Denied(Abs(w), i.sector)
  {
    hide DiskOk;
    var t := w.tab;
    if t.inodes[i].deny != 0 {
      assert On(t.denying, i) != {};
      var f :| f in On(t.denying, i);
      assert f in w.hm;
    }
    if f :| f in w.hm && w.hm[f].file == i.sector && w.hm[f].deny {
      assert f in t.files && f.inode == i;
      assert f in On(t.denying, i);
    }
  }

  /** The free map's own inode is in memory and can always be written. */
  lemma MapInode(w: World)
    requires StateOk(w)
    ensures w.mapFile.inode in w.tab.inodes && w.tab.inodes[w.mapFile.inode].deny == 0
    ensures Placed(w.disk, FREE_MAP_SECTOR) && w.mapFile.inode.data == InodeAt(w.disk, FREE_MAP_SECTOR)
    ensures w.mapFile.inode.data.length == ByteCnt(|w.disk|) && |w.bits| == |w.disk|
  {
    assert w.mapFile in w.tab.files;
    DeniedIff(w, w.mapFile.inode);
  }

  /** Between operations every file is linked or open: the abstract state is valid. */
  lemma AbsValid(w: World)
    requires StateOk(w) && w.tab.refs == multiset{}
    ensures Spec.Valid(Abs(w))
  {
    var s, slots := Abs(w), RootSlots(w.disk);
    NamesValues(slots);
    forall id ensures id in s.files <==> Spec.Linked(s, id) || Spec.IsOpen(s, id) {
      if id in Held(w.tab) { HeldOpen(w, id); }
      if Spec.IsOpen(s, id) {
        var f :| f in s.handles && s.handles[f].file == id;
        HandleFile(w, f);
      }
    }
    NamesInjective(slots);
  }

  /** An inode that a name leads to has not been removed. */
  lemma LinkedStays(w: World, i: Inode)
    requires StateOk(w) && i in w.tab.inodes && i.sector in Abs(w).names.Values
    ensures !w.tab.inodes[i].removed
  {
    hide Consistent, TableOk;
    NamesValues(RootSlots(w.disk));
  }

  lemma NamesInjective(slots: seq<Slot>)
    requires DirOk(slots)
    ensures forall a, b :: a in Names(slots) && b in Names(slots) && Names(slots)[a] == Names(slots)[b] ==> a == b
  {
    forall a, b | a in Names(slots) && b in Names(slots) && Names(slots)[a] == Names(slots)[b] ensures a == b {
      FindUsed(slots, a);
      FindUsed(slots, b);
      assert slots[Find(slots, a)].sector == slots[Find(slots, b)].sector;
    }
  }

  lemma HeldOpen(w: World, id: nat)
    requires StateOk(w) && w.tab.refs == multiset{} && id in Held(w.tab)
    ensures Spec.IsOpen(Abs(w), id)
  {
    hide Consistent;
    var t := w.tab;
    var i :| i in t.inodes && t.inodes[i].removed && i.sector == id;
    assert |On(t.files, i)| > 0;
    var f :| f in On(t.files, i);
    assert id > ROOT_DIR_SECTOR;
    assert f != w.mapFile && f in w.hm;
  }

  // ------------------------------------------------- moves of the state

  /** The table changed, the device did not: new inodes must be copies of existing ones. */
  lemma TableMoved(w: World, w': World)
    requires StateOk(w) && w'.disk == w.disk && w'.bits == w.bits
    requires TableOk(w'.tab) && HandlesOk(w') && Held(w'.tab) == Held(w.tab)
    requires forall i :: i in w'.tab.inodes ==>
      i in w.tab.inodes || (i.sector in OwnedBy(w.disk, Held(w.tab)) && i.sector < |w.disk| && i.data == InodeAt(w.disk, i.sector))
    ensures StateOk(w') && Abs(w') == Abs(w).(handles := w'.hm)
  {
    hide DiskOk, TableOk, HandlesOk;
  }

  /** The free map was stored; nothing else changed on the device. */
  lemma MapMoved(w: World, w': World)
    requires StateOk(w) && w'.tab == w.tab && w'.mapFile == w.mapFile && w'.hm == w.hm
    requires DiskOk(w'.disk, w'.bits, Held(w.tab)) && RootSlots(w'.disk) == RootSlots(w.disk)
    requires SameFiles(w.disk, w'.disk, OwnedBy(w.disk, Held(w.tab)), FREE_MAP_SECTOR)
    ensures StateOk(w') && Abs(w') == Abs(w)
  {
    hide TableOk, Consistent;
    assert OwnedBy(w'.disk, Held(w.tab)) == OwnedBy(w.disk, Held(w.tab));
    LinkedOrdinary(w.disk, Held(w.tab));
  }

  lemma SameDevice(d: Sectors, bits: seq<bool>, held: set<nat>)
    requires DiskOk(d, bits, held)
    ensures SameFiles(d, d, OwnedBy(d, held), FREE_MAP_SECTOR)
  {}

  /** The data of file f was rewritten. */
  lemma FileMoved(w: World, w': World, f: File)
    requires StateOk(w) && f in w.hm
    requires w'.tab == w.tab && w'.mapFile == w.mapFile && w'.hm == w.hm && w'.bits == w.bits
    requires Placed(w.disk, f.inode.sector) && f.inode.data == InodeAt(w.disk, f.inode.sector)
    requires ChangedOnlyIn(w.disk, w'.disk, f.inode.data)
    ensures StateOk(w')
    ensures Abs(w') == Abs(w).(files := Abs(w).files[f.inode.sector := Content(w'.disk, f.inode.data)])
    ensures Cap(w') == Cap(w)
  {
    var d, d', held, g := w.disk, w'.disk, Held(w.tab), f.inode.sector;
    HandleFile(w, f);
    UserDataWritten(d, d', w.bits, held, g);
    FileMovedAbs(w, w', g);
  }

  lemma FileMovedAbs(w: World, w': World, g: nat)
    requires StateOk(w) && w'.tab == w.tab && w'.mapFile == w.mapFile && w'.hm == w.hm && w'.bits == w.bits
    requires g in UsedSectors(RootSlots(w.disk)) + Held(w.tab)
    requires DiskOk(w'.disk, w.bits, Held(w.tab)) && RootSlots(w'.disk) == RootSlots(w.disk)
    requires SameFiles(w.disk, w'.disk, OwnedBy(w.disk, Held(w.tab)), g)
    ensures StateOk(w')
    ensures Abs(w') == Abs(w).(files := Abs(w).files[g := FileBytes(w'.disk, g)])
  {
    hide TableOk, Consistent, DirOk;
    assert OwnedBy(w'.disk, Held(w.tab)) == OwnedBy(w.disk, Held(w.tab));
    LinkedOrdinary(w.disk, Held(w.tab));
    assert Bound(w'.disk, w'.tab);
    FilesRewritten(w.disk, w'.disk, w.bits, Held(w.tab), g);
  }

  ghost function Files(d: Sectors, held: set<nat>): map<nat, seq<byte>>
    requires RootOk(d, held) && forall h :: h in OwnedBy(d, held) ==> Placed(d, h)
  {
    map h | h in UsedSectors(RootSlots(d)) + held :: FileBytes(d, h)
  }

  lemma FilesRewritten(d: Sectors, d': Sectors, bits: seq<bool>, held: set<nat>, g: nat)
    requires DiskOk(d, bits, held) && DiskOk(d', bits, held) && RootSlots(d') == RootSlots(d)
    requires g in UsedSectors(RootSlots(d)) + held && SameFiles(d, d', OwnedBy(d, held), g)
    ensures Files(d', held) == Files(d, held)[g := FileBytes(d', g)]
  {
    hide Consistent, DirOk;
    LinkedOrdinary(d, held);
  }

  /** What inode_close may rely on. */
  lemma CloseReady(w: World, i: Inode)
    requires StateOk(w) && i in w.tab.refs
    ensures TableOk(w.tab) && DiskOk(w.disk, w.bits, Held(w.tab)) && Placed(w.disk, ROOT_DIR_SECTOR)
    ensures i in w.tab.inodes && i.sector < |w.disk| && i.data == InodeAt(w.disk, i.sector)
    ensures w.tab.inodes[i].removed ==> i.sector in Held(w.tab)
    ensures w.tab.inodes[i].openCnt == 1 ==> i != w.mapFile.inode
  {
    assert w.mapFile in w.tab.files;
    if w.tab.inodes[i].openCnt == 1 { NoFileLeft(w.tab, i); }
  }

  /** The state after inode_close. */
  lemma Closed(w: World, w': World, i: Inode)
    requires StateOk(w) && i in w.tab.refs && i in w.tab.inodes
    requires w'.tab == Dropped(w.tab, i) && w'.hm == w.hm && w'.mapFile == w.mapFile
    requires DiskOk(w'.disk, w'.bits, Held(w'.tab)) && RootSlots(w'.disk) == RootSlots(w.disk)
    requires SameFiles(w.disk, w'.disk, OwnedBy(w'.disk, Held(w'.tab)), FREE_MAP_SECTOR)
    ensures StateOk(w') && Abs(w').names == Abs(w).names && Abs(w').handles == Abs(w).handles
    ensures forall h :: h in Abs(w').files ==> h in Abs(w).files && Abs(w').files[h] == Abs(w).files[h]
    ensures w'.disk == w.disk && !(w.tab.inodes[i].openCnt == 1 && w.tab.inodes[i].removed) ==> Abs(w') == Abs(w)
    ensures Cap(w').slots == Cap(w).slots
  {
    hide Consistent, DirOk, TableOk, SameFiles, OwnedBy, UsedSectors, Held, Bound;
    assert TableOk(w'.tab) && w'.tab.files == w.tab.files && w'.tab.denying == w.tab.denying by { DroppedOk(w.tab, i); }
    assert Held(w'.tab) <= Held(w.tab) by { DroppedOk(w.tab, i); }
    assert !(w.tab.inodes[i].openCnt == 1 && w.tab.inodes[i].removed) ==> Held(w'.tab) == Held(w.tab) by { DroppedOk(w.tab, i); }
    ClosedBound(w, w', i);
    AllPlaced(w.disk, w.bits, Held(w.tab));
    FilesKept(w.disk, w'.disk, Held(w.tab), Held(w'.tab));
  }

  /** ... whose last opener had it removed: its sectors are free, and no other file is gone. */
  lemma ClosedSettles(w: World, w': World, i: Inode)
    requires StateOk(w) && StateOk(w') && i in w.tab.refs && i in w.tab.inodes && w.tab.inodes[i].openCnt == 1 && w.tab.inodes[i].removed
    requires w'.tab == Dropped(w.tab, i) && RootSlots(w'.disk) == RootSlots(w.disk)
    requires forall h :: h in Abs(w').files ==> h in Abs(w).files && Abs(w').files[h] == Abs(w).files[h]
    requires GivenBack(w.bits, w'.bits, i.sector, i.data.start, SectorCount(i.data.length))
    ensures Settled(Abs(w).files, Abs(w').files, w.bits, w'.bits)
  {
    hide StateOk, Abs, GivenBack, Dropped, Held;
    var files, files' := Abs(w).files, Abs(w').files;
    HeldFile(w, i);
    FilesLess(w, w', i);
    assert files' == files - {i.sector};
    assert Returned(w.bits, w'.bits, i.sector, i.data.length);
  }

  lemma HeldFile(w: World, i: Inode)
    requires StateOk(w) && i in w.tab.inodes && w.tab.inodes[i].removed
    ensures i.sector in Abs(w).files && |Abs(w).files[i.sector]| == i.data.length
  {
    hide Consistent, DirOk, TableOk;
    assert i.sector in Held(w.tab);
    AllPlaced(w.disk, w.bits, Held(w.tab));
  }

  lemma FilesLess(w: World, w': World, i: Inode)
    requires StateOk(w) && StateOk(w') && i in w.tab.refs && i in w.tab.inodes && w.tab.inodes[i].openCnt == 1 && w.tab.inodes[i].removed
    requires w'.tab == Dropped(w.tab, i) && RootSlots(w'.disk) == RootSlots(w.disk)
    ensures Abs(w').files.Keys == Abs(w).files.Keys - {i.sector}
  {
    hide Consistent, DirOk, TableOk, Dropped, Held, UsedSectors, Bound, HandlesOk;
    HeldWithout(w.tab, i);
    assert TableOk(w.tab);
  }

  lemma HeldWithout(t: Table, i: Inode)
    requires TableOk(t) && i in t.refs && i in t.inodes && t.inodes[i].openCnt == 1 && t.inodes[i].removed
    ensures i.sector in Held(t) && Held(Dropped(t, i)) == Held(t) - {i.sector}
  {
    hide TableOk, Dropped;
    DroppedOk(t, i);
  }

  lemma AllPlaced(d: Sectors, bits: seq<bool>, held: set<nat>)
    requires DiskOk(d, bits, held)
    ensures forall h :: h in OwnedBy(d, held) ==> Placed(d, h)
  {}

  lemma ClosedBound(w: World, w': World, i: Inode)
    requires StateOk(w) && i in w.tab.refs && i in w.tab.inodes
    requires w'.tab == Dropped(w.tab, i) && RootOk(w'.disk, Held(w'.tab)) && RootSlots(w'.disk) == RootSlots(w.disk)
    requires SameFiles(w.disk, w'.disk, OwnedBy(w'.disk, Held(w'.tab)), FREE_MAP_SECTOR)
    ensures Bound(w'.disk, w'.tab)
  {
    hide Consistent, DirOk, TableOk, Dropped;
    forall j | j in w'.tab.inodes ensures j.sector in OwnedBy(w'.disk, Held(w'.tab)) && j.data == InodeAt(w'.disk, j.sector) {
      ClosedOthers(w.tab, i, j);
    }
  }

  lemma FilesKept(d: Sectors, d': Sectors, held: set<nat>, held': set<nat>)
    requires RootOk(d, held) && RootOk(d', held') && RootSlots(d') == RootSlots(d) && held' <= held
    requires forall h :: h in OwnedBy(d, held) ==> Placed(d, h)
    requires SameFiles(d, d', OwnedBy(d', held'), FREE_MAP_SECTOR)
    ensures forall h :: h in Files(d', held') ==> h in Files(d, held) && Files(d', held')[h] == Files(d, held)[h]
  {
    hide DirOk;
    LinkedOrdinary(d', held');
  }

  lemma ClosedOthers(t: Table, i: Inode, j: Inode)
    requires TableOk(t) && i in t.refs && i in t.inodes && j in Dropped(t, i).inodes
    ensures j in t.inodes && (j.sector in Held(t) ==> j.sector in Held(Dropped(t, i)))
  {
    DroppedOk(t, i);
  }

  // ------------------------------------------------- mounting

  lemma DeviceBasics(d: Sectors, bits: seq<bool>, held: set<nat>)
    requires DiskOk(d, bits, held)
    ensures WellFormed(d) && |bits| == |d| && |d| > ROOT_DIR_SECTOR && Placed(d, FREE_MAP_SECTOR)
    ensures Decodes(FileBytes(d, FREE_MAP_SECTOR), bits)
  {}

  /** A device that was consistent stays so when the files held open are forgotten. */
  lemma Forgotten(d: Sectors, bits: seq<bool>, held: set<nat>)
    requires DiskOk(d, bits, held)
    ensures DiskOk(d, bits, {})
  {
    assert OwnedBy(d, {}) <= OwnedBy(d, held);
  }

  /** With the free map file alone open, a consistent device is a valid state. */
  lemma Mounted(w: World, bits: seq<bool>)
    requires DiskOk(w.disk, bits, {}) && w.bits == bits && w.hm == map[]
    requires w.mapFile.inode.sector == FREE_MAP_SECTOR && FREE_MAP_SECTOR < |w.disk| && WellFormed(w.disk)
    requires w.mapFile.inode.data == InodeAt(w.disk, FREE_MAP_SECTOR)
    requires w.tab == Table(map[w.mapFile.inode := InodeRec(1, 0, false)], {w.mapFile}, {}, multiset{})
    ensures StateOk(w) && Abs(w) == AbsOf(w.disk, {}, map[])
  {
    var i := w.mapFile.inode;
    assert On({w.mapFile}, i) == {w.mapFile} && On({}, i) == {};
    assert Held(w.tab) == {};
  }
}
