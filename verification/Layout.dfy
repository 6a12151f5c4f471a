/**
 * How the file system lies on its device: which sectors each inode
 * owns, what the free map says about them, and what the stored free
 * map file decodes to (filesys/inode.c, filesys/free-map.c).
 */
module Layout {
  import opened Bytes
  import opened Disk
  import opened Directory
  import opened Bitmaps

  const FREE_MAP_SECTOR: nat := 0
  const ROOT_DIR_SECTOR: nat := 1
  const INODE_MAGIC: nat := 0x494e4f44

  /** Devices larger than this have no free map: the bitmap does not fit in kernel memory. */
  const MAX_SECTORS: nat := 0x1000_0000

  /** The image of `struct inode_disk` in its sector. */
  function InodeBytes(e: Extent): (b: seq<byte>)
    requires e.start < TWO32 && e.length < TWO32
    ensures |b| == SECTOR_SIZE
  {
    LE32(e.start) + LE32(e.length) + LE32(INODE_MAGIC) + Zeros(500)
  }

  function InodeOf(b: seq<byte>): Extent
    requires |b| == SECTOR_SIZE
  {
    Extent(FromLE32(b[..4]), FromLE32(b[4..8]))
  }

  lemma InodeRoundTrip(e: Extent)
    requires e.start < TWO32 && e.length < TWO32
    ensures InodeOf(InodeBytes(e)) == e
  {
    LE32RoundTrip(e.start);
    LE32RoundTrip(e.length);
    var b := InodeBytes(e);
    assert b[..4] == LE32(e.start) && b[4..8] == LE32(e.length);
  }

  ghost function InodeAt(d: Sectors, h: nat): Extent
    requires WellFormed(d) && h < |d|
  {
    InodeOf(d[h])
  }

  /** Inode h and its data lie on the device and do not overlap each other. */
  ghost predicate Placed(d: Sectors, h: nat) {
    && WellFormed(d) && h < |d| && Fits(d, InodeAt(d, h)) && !InExtent(InodeAt(d, h), h)
    && InodeAt(d, h).length + SECTOR_SIZE - 1 <= INT_MAX
  }

  ghost function FileBytes(d: Sectors, h: nat): seq<byte>
    requires Placed(d, h)
  {
    Content(d, InodeAt(d, h))
  }

  /** Sector s is the header or a data sector of inode h. */
  ghost predicate Owns(d: Sectors, h: nat, s: int)
    requires Placed(d, h)
  {
    s == h || InExtent(InodeAt(d, h), s)
  }

  /** The inodes in `owned` are on the device and no two of them share a sector. */
  ghost predicate Disjoint(d: Sectors, owned: set<nat>) {
    && (forall h :: h in owned ==> Placed(d, h))
    && (forall h, g, s :: h in owned && g in owned && Owns(d, h, s) && Owns(d, g, s) ==> h == g)
  }

  /** Every sector of every owned inode is marked in the free map. */
  ghost predicate Marked(d: Sectors, bits: seq<bool>, owned: set<nat>)
    requires Disjoint(d, owned)
  {
    |bits| == |d| && forall h, s :: h in owned && Owns(d, h, s) ==> bits[s]
  }

  /** The bytes of a free map file decode to the given bits. */
  ghost predicate Decodes(c: seq<byte>, bits: seq<bool>) {
    |c| == ByteCnt(|bits|) && BitsOf(Decode(c), |bits|) == bits
  }

  /** The free map file, as it lies on disk, decodes to the map in memory. */
  ghost predicate Synced(d: Sectors, bits: seq<bool>) {
    |bits| == |d| && Placed(d, FREE_MAP_SECTOR) && Decodes(FileBytes(d, FREE_MAP_SECTOR), bits)
  }

  ghost predicate Consistent(d: Sectors, bits: seq<bool>, owned: set<nat>) {
    && WellFormed(d) && |d| <= MAX_SECTORS
    && FREE_MAP_SECTOR in owned && ROOT_DIR_SECTOR in owned
    && Disjoint(d, owned) && Marked(d, bits, owned) && Synced(d, bits)
  }

  ghost function RootSlots(d: Sectors): seq<Slot>
    requires Placed(d, ROOT_DIR_SECTOR)
  {
    Slots(FileBytes(d, ROOT_DIR_SECTOR))
  }

  /** A directory whose slots in use have distinct names and lead to distinct ordinary inodes. */
  ghost predicate DirOk(slots: seq<Slot>) {
    && NamesUnique(slots)
    && (forall i :: 0 <= i < |slots| && slots[i].inUse ==> ValidName(slots[i].name) && slots[i].sector > ROOT_DIR_SECTOR)
    && (forall i, j :: 0 <= i < j < |slots| && slots[i].inUse && slots[j].inUse ==> slots[i].sector != slots[j].sector)
  }

  /** d' differs from d only inside extent e. */
  ghost predicate ChangedOnlyIn(d: Sectors, d': Sectors, e: Extent) {
    |d'| == |d| && WellFormed(d') && forall s :: 0 <= s < |d| && !InExtent(e, s) ==> d'[s] == d[s]
  }

  /** An inode none of whose sectors changed is the same file. */
  lemma FileFrame(d: Sectors, d': Sectors, h: nat)
    requires Placed(d, h) && |d'| == |d| && WellFormed(d')
    requires forall s :: Owns(d, h, s) ==> d'[s] == d[s]
    ensures Placed(d', h) && InodeAt(d', h) == InodeAt(d, h) && FileBytes(d', h) == FileBytes(d, h)
  {
    assert Owns(d, h, h);
    forall s | InExtent(InodeAt(d, h), s) ensures d'[s] == d[s] { assert Owns(d, h, s); }
    ContentFrame(d, d', InodeAt(d, h));
  }

  /** Writing the data of inode g moves no inode and changes no other file. */
  lemma DataWritten(d: Sectors, d': Sectors, owned: set<nat>, g: nat)
    requires Disjoint(d, owned) && g in owned && ChangedOnlyIn(d, d', InodeAt(d, g))
    ensures Disjoint(d', owned)
    ensures forall h :: h in owned ==> InodeAt(d', h) == InodeAt(d, h)
    ensures forall h :: h in owned && h != g ==> FileBytes(d', h) == FileBytes(d, h)
  {
    forall h | h in owned ensures Placed(d', h) && InodeAt(d', h) == InodeAt(d, h) {
      assert Owns(d, h, h) && !InExtent(InodeAt(d, g), h) by {
        assert InExtent(InodeAt(d, g), h) ==> Owns(d, g, h);
      }
      assert d'[h] == d[h];
    }
    forall h, k, s | h in owned && k in owned && Owns(d', h, s) && Owns(d', k, s) ensures h == k {
      assert Owns(d, h, s) && Owns(d, k, s);
    }
    forall h | h in owned && h != g ensures FileBytes(d', h) == FileBytes(d, h) {
      forall s | Owns(d, h, s) ensures d'[s] == d[s] {
        assert Owns(d, g, s) ==> g == h;
      }
      FileFrame(d, d', h);
    }
  }

  /** Writing sectors that no inode owns changes no file. */
  lemma UnownedWritten(d: Sectors, d': Sectors, owned: set<nat>)
    requires Disjoint(d, owned) && |d'| == |d| && WellFormed(d')
    requires forall h, s :: h in owned && Owns(d, h, s) ==> d'[s] == d[s]
    ensures Disjoint(d', owned)
    ensures forall h :: h in owned ==> InodeAt(d', h) == InodeAt(d, h) && FileBytes(d', h) == FileBytes(d, h)
  {
    forall h | h in owned ensures Placed(d', h) && InodeAt(d', h) == InodeAt(d, h) && FileBytes(d', h) == FileBytes(d, h) {
      FileFrame(d, d', h);
    }
    forall h, k, s | h in owned && k in owned && Owns(d', h, s) && Owns(d', k, s) ensures h == k {
      assert Owns(d, h, s) && Owns(d, k, s);
    }
  }

  /** The same inodes, on a device where they have not moved, are still marked in a larger map. */
  lemma StillMarked(d: Sectors, d': Sectors, bits: seq<bool>, bits': seq<bool>, owned: set<nat>)
    requires Disjoint(d, owned) && Disjoint(d', owned) && Marked(d, bits, owned)
    requires |d'| == |d| && |bits'| == |bits|
    requires forall h :: h in owned ==> InodeAt(d', h) == InodeAt(d, h)
    requires forall s :: 0 <= s < |bits| && bits[s] ==> bits'[s]
    ensures Marked(d', bits', owned)
  {
    forall h, s | h in owned && Owns(d', h, s) ensures bits'[s] { assert Owns(d, h, s); }
  }

  /** Inode h lies in sectors that are marked but belong to nobody. */
  ghost predicate Loose(d: Sectors, bits: seq<bool>, owned: set<nat>, h: nat)
    requires Disjoint(d, owned)
  {
    && Placed(d, h) && |bits| == |d|
    && (forall s :: Owns(d, h, s) ==> bits[s])
    && (forall g, s :: g in owned && Owns(d, g, s) ==> !Owns(d, h, s))
  }

  /** An inode that lies in marked sectors of nobody may join the others. */
  lemma Adopted(d: Sectors, bits: seq<bool>, owned: set<nat>, h: nat)
    requires Consistent(d, bits, owned) && Loose(d, bits, owned, h)
    ensures Consistent(d, bits, owned + {h}) && h !in owned
  {
    assert Owns(d, h, h);
    forall g, k, s | g in owned + {h} && k in owned + {h} && Owns(d, g, s) && Owns(d, k, s) ensures g == k {
      assert k != h ==> k in owned;
      assert g != h ==> g in owned;
    }
  }

  /** When inode h is given up, its sectors can be cleared without touching anyone else's. */
  lemma Released(d: Sectors, bits: seq<bool>, owned: set<nat>, h: nat)
    requires Disjoint(d, owned) && Marked(d, bits, owned) && h in owned
    ensures Disjoint(d, owned - {h})
    ensures IsRun(bits, h, 1, true)
    ensures var bits1 := SetRange(bits, h, 1, false);
      var e := InodeAt(d, h);
      && IsRun(bits1, e.start, SectorCount(e.length), true)
      && Marked(d, SetRange(bits1, e.start, SectorCount(e.length), false), owned - {h})
  {
    var bits1 := SetRange(bits, h, 1, false);
    var e := InodeAt(d, h);
    assert Owns(d, h, h);
    forall s | e.start <= s < e.start + SectorCount(e.length) ensures bits1[s] {
      assert Owns(d, h, s);
    }
    forall g, s | g in owned - {h} && Owns(d, g, s) ensures SetRange(bits1, e.start, SectorCount(e.length), false)[s] {
      assert bits[s];
      assert !Owns(d, h, s);
    }
  }

  /** The inodes in existence: the two system files, those in the directory, and those held open after removal. */
  ghost function OwnedBy(d: Sectors, held: set<nat>): set<nat>
    requires Placed(d, ROOT_DIR_SECTOR)
  {
    Existing(UsedSectors(RootSlots(d)), held)
  }

  ghost function Existing(linked: set<nat>, held: set<nat>): set<nat> {
    {FREE_MAP_SECTOR, ROOT_DIR_SECTOR} + linked + held
  }

  lemma ExistingSets(linked: set<nat>, held: set<nat>, h: nat)
    ensures Existing(linked + {h}, held) == Existing(linked, held) + {h}
    ensures h in linked ==> Existing(linked - {h}, held + {h}) == Existing(linked, held)
    ensures h !in linked && h > ROOT_DIR_SECTOR ==> Existing(linked, held - {h}) == Existing(linked, held) - {h}
  {}

  ghost predicate RootOk(d: Sectors, held: set<nat>) {
    && Placed(d, ROOT_DIR_SECTOR)
    && |FileBytes(d, ROOT_DIR_SECTOR)| % ENTRY_SIZE == 0
    && DirOk(RootSlots(d))
    && (forall h :: h in held ==> h > ROOT_DIR_SECTOR && h !in UsedSectors(RootSlots(d)))
  }

  /** The state of the device between two operations. */
  ghost predicate DiskOk(d: Sectors, bits: seq<bool>, held: set<nat>) {
    RootOk(d, held) && Consistent(d, bits, OwnedBy(d, held))
  }

  /** The same inodes and, except for g, the same file contents. */
  ghost predicate SameFiles(d: Sectors, d': Sectors, owned: set<nat>, g: nat) {
    forall h :: h in owned ==>
      && Placed(d, h) && Placed(d', h) && InodeAt(d', h) == InodeAt(d, h)
      && (h != g ==> FileBytes(d', h) == FileBytes(d, h))
  }

  /** Storing a changed free map in its file. */
  lemma FreeMapStored(d: Sectors, d': Sectors, bits: seq<bool>, held: set<nat>)
    requires RootOk(d, held) && |d| <= MAX_SECTORS
    requires Disjoint(d, OwnedBy(d, held)) && Marked(d, bits, OwnedBy(d, held))
    requires Placed(d, FREE_MAP_SECTOR) && ChangedOnlyIn(d, d', InodeAt(d, FREE_MAP_SECTOR))
    requires Decodes(Content(d', InodeAt(d, FREE_MAP_SECTOR)), bits)
    ensures DiskOk(d', bits, held) && RootSlots(d') == RootSlots(d)
    ensures SameFiles(d, d', OwnedBy(d, held), FREE_MAP_SECTOR)
  {
    var owned := OwnedBy(d, held);
    DataWritten(d, d', owned, FREE_MAP_SECTOR);
    assert ROOT_DIR_SECTOR in owned && FREE_MAP_SECTOR in owned;
    assert RootSlots(d') == RootSlots(d);
    assert Synced(d', bits);
    StillMarked(d, d', bits, bits, owned);
    assert OwnedBy(d', held) == owned;
  }

  /** Writing the data of an ordinary file. */
  lemma UserDataWritten(d: Sectors, d': Sectors, bits: seq<bool>, held: set<nat>, g: nat)
    requires DiskOk(d, bits, held) && g in OwnedBy(d, held) && g > ROOT_DIR_SECTOR
    requires ChangedOnlyIn(d, d', InodeAt(d, g))
    ensures DiskOk(d', bits, held) && RootSlots(d') == RootSlots(d)
    ensures SameFiles(d, d', OwnedBy(d, held), g)
  {
    var owned := OwnedBy(d, held);
    DataWritten(d, d', owned, g);
    StillMarked(d, d', bits, bits, owned);
  }

  /** Writing sectors that nobody owned. */
  lemma FreshWritten(d: Sectors, d': Sectors, bits: seq<bool>, held: set<nat>)
    requires DiskOk(d, bits, held) && |d'| == |d| && WellFormed(d')
    requires forall h, s :: h in OwnedBy(d, held) && Owns(d, h, s) ==> d'[s] == d[s]
    ensures DiskOk(d', bits, held) && RootSlots(d') == RootSlots(d)
    ensures forall h :: h in OwnedBy(d, held) ==>
      Placed(d', h) && InodeAt(d', h) == InodeAt(d, h) && FileBytes(d', h) == FileBytes(d, h)
  {
    var owned := OwnedBy(d, held);
    UnownedWritten(d, d', owned);
    StillMarked(d, d', bits, bits, owned);
  }

  /** Rewriting the directory file moves no inode. */
  lemma RootRewritten(d: Sectors, d': Sectors, bits: seq<bool>, owned: set<nat>)
    requires Consistent(d, bits, owned) && ChangedOnlyIn(d, d', InodeAt(d, ROOT_DIR_SECTOR))
    ensures Consistent(d', bits, owned) && SameFiles(d, d', owned, ROOT_DIR_SECTOR)
    ensures RootSlots(d') == Slots(Content(d', InodeAt(d, ROOT_DIR_SECTOR)))
    ensures |FileBytes(d', ROOT_DIR_SECTOR)| == |FileBytes(d, ROOT_DIR_SECTOR)|
  {
    DataWritten(d, d', owned, ROOT_DIR_SECTOR);
    StillMarked(d, d', bits, bits, owned);
  }

  /** Entering a new inode, so far owned by nobody, in the directory. */
  lemma EntryAdded(d: Sectors, d': Sectors, bits: seq<bool>, held: set<nat>, h: nat, i: nat, name: Name)
    requires DiskOk(d, bits, held) && Loose(d, bits, OwnedBy(d, held), h) && h > ROOT_DIR_SECTOR
    requires ChangedOnlyIn(d, d', InodeAt(d, ROOT_DIR_SECTOR))
    requires i < |RootSlots(d)| && !RootSlots(d)[i].inUse && ValidName(name) && name !in UsedNames(RootSlots(d))
    requires Slots(Content(d', InodeAt(d, ROOT_DIR_SECTOR))) == RootSlots(d)[i := Slot(true, name, h)]
    ensures DiskOk(d', bits, held)
    ensures Names(RootSlots(d')) == Names(RootSlots(d))[name := h]
    ensures UsedSectors(RootSlots(d')) == UsedSectors(RootSlots(d)) + {h}
    ensures OwnedBy(d', held) == OwnedBy(d, held) + {h} && h !in OwnedBy(d, held)
    ensures SameFiles(d, d', OwnedBy(d', held), ROOT_DIR_SECTOR)
    ensures |RootSlots(d')| == |RootSlots(d)|
  {
    var owned, slots := OwnedBy(d, held), RootSlots(d);
    Adopted(d, bits, owned, h);
    RootRewritten(d, d', bits, owned + {h});
    var slots' := RootSlots(d');
    FilledDirOk(slots, slots', i, name, h);
    ExistingSets(UsedSectors(slots), held, h);
    assert h !in held;
    assert RootOk(d', held) by {
      forall g | g in held ensures g > ROOT_DIR_SECTOR && g !in UsedSectors(slots') {}
    }
  }

  lemma FilledDirOk(slots: seq<Slot>, slots': seq<Slot>, i: nat, name: Name, h: nat)
    requires DirOk(slots) && i < |slots| && !slots[i].inUse && ValidName(name) && name !in UsedNames(slots)
    requires h > ROOT_DIR_SECTOR && h !in UsedSectors(slots)
    requires slots' == slots[i := Slot(true, name, h)]
    ensures DirOk(slots')
    ensures Names(slots') == Names(slots)[name := h]
    ensures UsedSectors(slots') == UsedSectors(slots) + {h}
  {
    SlotFilled(slots, i, name, h);
    forall k | 0 <= k < |slots| && slots[k].inUse ensures slots[k].sector != h {
      assert slots[k].sector in UsedSectors(slots);
    }
  }

  /** Erasing an entry leaves its inode to those who have it open. */
  lemma EntryErased(d: Sectors, d': Sectors, bits: seq<bool>, held: set<nat>, i: nat)
    requires DiskOk(d, bits, held) && i < |RootSlots(d)| && RootSlots(d)[i].inUse
    requires ChangedOnlyIn(d, d', InodeAt(d, ROOT_DIR_SECTOR))
    requires Slots(Content(d', InodeAt(d, ROOT_DIR_SECTOR))) == RootSlots(d)[i := RootSlots(d)[i].(inUse := false)]
    ensures var h, name := RootSlots(d)[i].sector, RootSlots(d)[i].name;
      && DiskOk(d', bits, held + {h})
      && Names(RootSlots(d')) == Names(RootSlots(d)) - {name}
      && UsedSectors(RootSlots(d')) == UsedSectors(RootSlots(d)) - {h}
      && OwnedBy(d', held + {h}) == OwnedBy(d, held) && |RootSlots(d')| == |RootSlots(d)|
    ensures SameFiles(d, d', OwnedBy(d, held), ROOT_DIR_SECTOR)
  {
    hide Consistent, DirOk, SameFiles, UsedSectors, Names;
    var owned, slots := OwnedBy(d, held), RootSlots(d);
    var h := slots[i].sector;
    RootRewritten(d, d', bits, owned);
    var slots' := RootSlots(d');
    ErasedDirOk(slots, slots', i);
    ExistingSets(UsedSectors(slots), held, h);
    assert RootOk(d', held + {h}) by {
      forall g | g in held + {h} ensures g > ROOT_DIR_SECTOR && g !in UsedSectors(slots') {}
    }
  }

  lemma ErasedDirOk(slots: seq<Slot>, slots': seq<Slot>, i: nat)
    requires DirOk(slots) && i < |slots| && slots[i].inUse
    requires slots' == slots[i := slots[i].(inUse := false)]
    ensures DirOk(slots') && slots[i].sector > ROOT_DIR_SECTOR
    ensures Names(slots') == Names(slots) - {slots[i].name}
    ensures UsedSectors(slots') == UsedSectors(slots) - {slots[i].sector} && slots[i].sector in UsedSectors(slots)
  {
    SlotErased(slots, i);
  }

  /** Giving up an inode that is held by nobody any more. */
  lemma HeldReleased(d: Sectors, bits: seq<bool>, held: set<nat>, h: nat)
    requires DiskOk(d, bits, held) && h in held
    ensures OwnedBy(d, held - {h}) == OwnedBy(d, held) - {h}
    ensures RootOk(d, held - {h}) && Disjoint(d, OwnedBy(d, held - {h}))
    ensures IsRun(bits, h, 1, true)
    ensures var bits1 := SetRange(bits, h, 1, false);
      var e := InodeAt(d, h);
      && IsRun(bits1, e.start, SectorCount(e.length), true)
      && Marked(d, bits1, OwnedBy(d, held - {h}))
      && Marked(d, SetRange(bits1, e.start, SectorCount(e.length), false), OwnedBy(d, held - {h}))
  {
    var owned := OwnedBy(d, held);
    Released(d, bits, owned, h);
    ExistingSets(UsedSectors(RootSlots(d)), held, h);
    forall g, s | g in owned - {h} && Owns(d, g, s) ensures SetRange(bits, h, 1, false)[s] {
      assert !Owns(d, h, s);
    }
  }
}
