/**
 * The file system over its device: the free map, the root directory,
 * in-memory inodes and file handles (filesys/inode.c, free-map.c,
 * directory.c, file.c and filesys.c).
 */
module FileSys {
  import opened Bytes
  import opened Disk
  import opened Sequences
  import opened Directory
  import opened Bitmaps
  import opened Layout
  import opened InodeTable
  import opened World
  import opened FsOps
  import opened FsCreate
  import Spec = FsSpec

  ghost function RecsOf(inodes: seq<Inode>): map<Inode, InodeRec>
    reads inodes
  {
    map i | i in inodes :: i.Rec()
  }

  ghost function FilesOf(handles: set<File>, mapFile: File?): set<File> {
    handles + (if mapFile == null then {} else {mapFile})
  }

  ghost function HandleMapOf(handles: set<File>): map<File, Spec.Handle>
    reads handles
  {
    map f | f in handles :: Spec.Handle(f.inode.sector, f.pos, f.denyWrite)
  }

  ghost function DenyingOf(files: set<File>): set<File>
    reads files
  {
    set f | f in files && f.denyWrite
  }

  class FileSystem {
    var disk: Sectors
    var openInodes: seq<Inode>
    const freeMap: Bitmap
    var freeMapFile: File?

    /** Files handed out by FilesysOpen or FileReopen and not yet closed. */
    ghost var handles: set<File>

    /** References to inodes held by code that is still running. */
    ghost var refs: multiset<Inode>

    ghost function AllFiles(): set<File>
      reads this`handles, this`freeMapFile
    {
      FilesOf(handles, freeMapFile)
    }

    ghost function Tab(): Table
      reads this`openInodes, this`refs, this`handles, this`freeMapFile, openInodes, AllFiles()
    {
      Table(RecsOf(openInodes), AllFiles(), DenyingOf(AllFiles()), refs)
    }

    ghost function HandleMap(): map<File, Spec.Handle>
      reads this`handles, handles
    {
      HandleMapOf(handles)
    }

    ghost predicate Ready()
      reads this`disk, this`freeMapFile, this`openInodes
    {
      freeMap.Valid() && freeMap.bitCnt == |disk| && freeMapFile != null && NoDuplicates(openInodes)
    }

    /** The current state as a value. */
    ghost function Cur(): World
      requires Ready()
      reads this, freeMap.words, openInodes, AllFiles()
    {
      World(disk, freeMap.Bits(), Tab(), freeMapFile, HandleMap())
    }

    ghost predicate Valid()
      reads this, freeMap.words, openInodes, AllFiles()
    {
      Ready() && StateOk(Cur())
    }

    /** What the state means. */
    ghost function View(): Spec.Fs<File>
      requires Valid()
      reads this, freeMap.words, openInodes, AllFiles()
    {
      Abs(Cur())
    }

    /** filesys_init without formatting, on a device that holds a file system. */
    constructor Mount(d: Sectors, ghost bits: seq<bool>)
      requires DiskOk(d, bits, {})
      ensures Valid() && refs == multiset{} && handles == {} && disk == d && freeMap.Bits() == bits
      ensures fresh(freeMap) && fresh(freeMap.words) && fresh(openInodes) && fresh(AllFiles())
      ensures Abs(Cur()) == AbsOf(d, {}, map[])
    {
      disk := d;
      openInodes := [];
      freeMap := new Bitmap(|d|);
      freeMapFile := null;
      handles, refs := {}, multiset{};
      new;
      DeviceBasics(d, bits, {});
      freeMap.Mark(FREE_MAP_SECTOR);
      freeMap.Mark(ROOT_DIR_SECTOR);
      FreeMapOpen(bits);
    }

    /** filesys_init with formatting, on a device with room for the free map and a root directory. */
    constructor Format(d: Sectors)
      requires WellFormed(d) && |d| <= MAX_SECTORS && |d| > ROOT_DIR_SECTOR + SectorCount(ByteCnt(|d|)) + 1
      ensures Valid() && refs == multiset{} && handles == {} && |disk| == |d|
      ensures fresh(freeMap) && fresh(freeMap.words) && fresh(openInodes) && fresh(AllFiles())
      ensures Abs(Cur()) == Spec.Fs(map[], map[], map[])
      ensures Cap(Cur()) == Capacity(FirstMarked(|d|, 3 + SectorCount(ByteCnt(|d|))), ROOT_ENTRIES)
    {
      disk := d;
      openInodes := [];
      freeMap := new Bitmap(|d|);
      freeMapFile := null;
      handles, refs := {}, multiset{};
      new;
      freeMap.Mark(FREE_MAP_SECTOR);
      freeMap.Mark(ROOT_DIR_SECTOR);
      assert freeMap.Bits() == FirstMarked(|d|, 2);
      FormatAndOpen();
    }

    /** The rest of filesys_init with formatting. */
    method FormatAndOpen()
      requires WellFormed(disk) && |disk| <= MAX_SECTORS && |disk| > ROOT_DIR_SECTOR + SectorCount(ByteCnt(|disk|)) + 1
      requires freeMap.Valid() && freeMap.bitCnt == |disk| && freeMapFile == null && openInodes == [] && handles == {} && refs == multiset{}
      requires freeMap.Bits() == FirstMarked(|disk|, 2)
      modifies this`disk, this`freeMapFile, this`openInodes, this`refs, freeMap.words
      ensures Valid() && refs == multiset{} && |disk| == |old(disk)|
      ensures fresh(openInodes) && fresh(AllFiles())
      ensures Abs(Cur()) == Spec.Fs(map[], map[], map[])
      ensures Cap(Cur()) == Capacity(FirstMarked(|disk|, 3 + SectorCount(ByteCnt(|disk|))), ROOT_ENTRIES)
    {
      hide StateOk, Abs, DiskOk, AbsOf, Formatted, RootSlots, SectorCount, ByteCnt, DenyingOf, HandleMapOf;
      DoFormat();
      EmptyFs(disk, freeMap.Bits());
      FormattedMap(disk, freeMap.Bits());
      FreeMapOpen(freeMap.Bits());
    }

    /** free_map_open: opens the free map file and reads the map from it. */
    method FreeMapOpen(ghost bits: seq<bool>)
      requires freeMap.Valid() && freeMap.bitCnt == |disk| && openInodes == [] && handles == {} && refs == multiset{}
      requires DiskOk(disk, bits, {})
      modifies this`openInodes, this`refs, this`freeMapFile, freeMap.words
      ensures Valid() && refs == multiset{} && freeMap.Bits() == bits
      ensures fresh(openInodes) && freeMapFile != null && fresh(freeMapFile)
      ensures Abs(Cur()) == AbsOf(disk, {}, map[])
    {
      hide StateOk, DiskOk, AbsOf;
      DeviceBasics(disk, bits, {});
      var inode := new Inode(FREE_MAP_SECTOR, InodeOf(disk[FREE_MAP_SECTOR]));
      openInodes := [inode];
      freeMapFile := new File(inode);
      var bytes := InodeReadAt(inode, ByteCnt(freeMap.bitCnt), 0);
      assert bytes == FileBytes(disk, FREE_MAP_SECTOR);
      freeMap.FromBytes(bytes);
      assert DenyingOf(AllFiles()) == {} && AllFiles() == {freeMapFile};
      assert RecsOf(openInodes) == map[inode := InodeRec(1, 0, false)];
      Mounted(Cur(), bits);
    }

    /** free_map_create: makes the free map file and writes the map to it. */
    method FreeMapCreate() returns (inode: Inode)
      requires WellFormed(disk) && |disk| <= MAX_SECTORS && |disk| > ROOT_DIR_SECTOR + SectorCount(ByteCnt(|disk|)) + 1
      requires freeMap.Valid() && freeMap.bitCnt == |disk| && freeMapFile == null && openInodes == [] && refs == multiset{}
      requires freeMap.Bits() == FirstMarked(|disk|, 2)
      modifies this`disk, this`freeMapFile, this`openInodes, this`refs, freeMap.words
      ensures |disk| == |old(disk)| && WellFormed(disk) && openInodes == [inode] && refs == multiset{inode} && fresh(inode)
      ensures freeMapFile != null && freeMapFile.inode == inode && inode.denyWriteCnt == 0 && inode.openCnt == 1
      ensures InodeAt(disk, FREE_MAP_SECTOR) == inode.data == Extent(2, ByteCnt(|disk|))
      ensures freeMap.Bits() == FirstMarked(|disk|, 2 + SectorCount(ByteCnt(|disk|)))
    {
      assert IsRun(freeMap.Bits(), 2, SectorCount(ByteCnt(|disk|)), false);
      var ok, e := InodeCreate(FREE_MAP_SECTOR, ByteCnt(|disk|));
      FirstRunAt(|disk|, 2, SectorCount(ByteCnt(|disk|)), e.start);
      InodeRoundTrip(e);
      inode := new Inode(FREE_MAP_SECTOR, InodeOf(disk[FREE_MAP_SECTOR]));
      openInodes, refs := [inode], multiset{inode};
      freeMapFile := new File(inode);
      var stored := StoreFreeMap();
    }

    /** do_format: the free map file, then the root directory; then the free map file is closed again. */
    method DoFormat()
      requires WellFormed(disk) && |disk| <= MAX_SECTORS && |disk| > ROOT_DIR_SECTOR + SectorCount(ByteCnt(|disk|)) + 1
      requires freeMap.Valid() && freeMap.bitCnt == |disk| && freeMapFile == null && openInodes == [] && refs == multiset{}
      requires freeMap.Bits() == FirstMarked(|disk|, 2)
      modifies this`disk, this`freeMapFile, this`openInodes, this`refs, freeMap.words
      ensures |disk| == |old(disk)| && openInodes == [] && refs == multiset{}
      ensures Formatted(disk, freeMap.Bits())
    {
      hide Decodes, ByteCnt, DenyingOf, HandleMapOf, Content;
      var inode := FreeMapCreate();
      ghost var n := SectorCount(ByteCnt(|disk|));
      assert SectorCount(ROOT_ENTRIES * ENTRY_SIZE) == 1 && IsRun(freeMap.Bits(), 2 + n, 1, false);
      ghost var d1 := disk;
      var ok, e1 := InodeCreate(ROOT_DIR_SECTOR, ROOT_ENTRIES * ENTRY_SIZE);
      FirstRunAt(|disk|, 2 + n, 1, e1.start);
      InodeRoundTrip(e1);
      ZeroContent(disk, e1);
      assert disk[FREE_MAP_SECTOR] == d1[FREE_MAP_SECTOR];
      CloseMapInode(inode);
    }

    /** free_map_close: the free map file gives up its inode. */
    method CloseMapInode(inode: Inode)
      requires openInodes == [inode] && refs == multiset{inode} && inode.openCnt == 1
      modifies this`openInodes, this`refs, inode`openCnt
      ensures openInodes == [] && refs == multiset{}
    {
      var last := DropReference(inode);
    }

    // ------------------------------------------------------------ inode.c

    /** The sector that holds byte pos of the inode, or -1. */
    function ByteToSector(inode: Inode, pos: nat): (s: int)
    {
      if pos < inode.data.length then inode.data.start + pos / SECTOR_SIZE else -1
    }

    /** Where the next chunk at ofs lies, and how much of it to copy: the head of both loops below. */
    method NextChunk(inode: Inode, ofs: nat, left: int) returns (sectorIdx: int, sectorOfs: nat, chunkSize: int)
      requires left > 0
      ensures chunkSize <= left && ofs + chunkSize <= inode.data.length && sectorOfs + chunkSize <= SECTOR_SIZE
      ensures chunkSize > 0 <==> ofs < inode.data.length
      ensures chunkSize > 0 ==> sectorIdx >= 0 && At(inode.data, ofs, sectorIdx, sectorOfs)
    {
      sectorIdx := ByteToSector(inode, ofs);
      sectorOfs := ofs % SECTOR_SIZE;
      var inodeLeft := inode.data.length - ofs;
      var sectorLeft := SECTOR_SIZE - sectorOfs;
      var minLeft := if inodeLeft < sectorLeft then inodeLeft else sectorLeft;
      chunkSize := if left < minLeft then left else minLeft;
    }

    method InodeReadAt(inode: Inode, size: int, offset: nat) returns (buffer: seq<byte>)
      requires Fits(disk, inode.data)
      ensures buffer == Slice(Content(disk, inode.data), offset, size)
    {
      hide Content, Slice, At;
      buffer := [];
      EmptySlice(Content(disk, inode.data), offset, size);
      var left, ofs := size, offset;
      while left > 0
        invariant ofs == offset + |buffer| && left == size - |buffer|
        invariant buffer == Slice(Content(disk, inode.data), offset, |buffer|)
        invariant buffer != [] ==> ofs <= inode.data.length && left >= 0
      {
        var sectorIdx, sectorOfs, chunkSize := NextChunk(inode, ofs, left);
        if chunkSize <= 0 { break; }
        ChunkAppended(disk, inode.data, offset, buffer, sectorIdx, sectorOfs, chunkSize);
        if sectorOfs == 0 && chunkSize == SECTOR_SIZE {
          buffer := buffer + disk[sectorIdx];
        } else {
          var bounce := disk[sectorIdx];
          buffer := buffer + bounce[sectorOfs..sectorOfs + chunkSize];
        }
        left, ofs := left - chunkSize, ofs + chunkSize;
      }
      SliceDone(Content(disk, inode.data), offset, buffer, size);
    }

    /** Stores one chunk: a whole sector directly, anything less through a bounce buffer. */
    method WriteChunk(inode: Inode, chunk: seq<byte>, sectorIdx: nat, sectorOfs: nat, ghost pos: nat)
      requires Fits(disk, inode.data) && At(inode.data, pos, sectorIdx, sectorOfs)
      requires 0 < |chunk| && sectorOfs + |chunk| <= SECTOR_SIZE && pos + |chunk| <= inode.data.length
      modifies this`disk
      ensures ChangedOnlyIn(old(disk), disk, inode.data)
      ensures Content(disk, inode.data) == Overwrite(Content(old(disk), inode.data), pos, chunk)
    {
      ContentChunk(disk, inode.data, pos, sectorIdx, sectorOfs, |chunk|);
      var sector := chunk;
      if !(sectorOfs == 0 && |chunk| == SECTOR_SIZE) {
        var sectorLeft := SECTOR_SIZE - sectorOfs;
        var bounce := if sectorOfs > 0 || |chunk| < sectorLeft then disk[sectorIdx] else Zeros(SECTOR_SIZE);
        sector := Patched(bounce, sectorOfs, chunk);
      }
      assert sector == Patched(disk[sectorIdx], sectorOfs, chunk);
      ChunkWritten(disk, inode.data, pos, sectorIdx, sectorOfs, chunk, sector);
      disk := disk[sectorIdx := sector];
    }

    method InodeWriteAt(inode: Inode, buffer: seq<byte>, size: int, offset: nat) returns (written: nat)
      requires Fits(disk, inode.data) && size <= |buffer|
      modifies this`disk
      ensures ChangedOnlyIn(old(disk), disk, inode.data)
      ensures inode.denyWriteCnt != 0 ==> written == 0
      ensures written == 0 ==> disk == old(disk)
      ensures inode.denyWriteCnt == 0 ==>
        written == if size <= 0 || offset >= inode.data.length then 0 else Min(size, inode.data.length - offset)
      ensures Content(disk, inode.data) == Overwrite(Content(old(disk), inode.data), offset, buffer[..written])
    {
      hide Content, Overwrite, At;
      written := 0;
      OverwriteNone(Content(disk, inode.data), offset);
      if inode.denyWriteCnt != 0 { return; }
      var left, ofs := size, offset;
      while left > 0
        invariant ofs == offset + written && left == size - written
        invariant if written == 0 then disk == old(disk) else ofs <= inode.data.length && left >= 0
        invariant ChangedOnlyIn(old(disk), disk, inode.data)
        invariant Content(disk, inode.data) == Overwrite(Content(old(disk), inode.data), offset, buffer[..written])
      {
        var sectorIdx, sectorOfs, chunkSize := NextChunk(inode, ofs, left);
        if chunkSize <= 0 { break; }
        ghost var c := Content(old(disk), inode.data);
        var chunk := buffer[written..written + chunkSize];
        OverwriteCompose(c, offset, buffer[..written], ofs, chunk);
        assert buffer[..written] + chunk == buffer[..written + chunkSize];
        WriteChunk(inode, chunk, sectorIdx, sectorOfs, ofs);
        left, ofs, written := left - chunkSize, ofs + chunkSize, written + chunkSize;
      }
    }

    // --------------------------------------------------------- free-map.c

    ghost predicate MapReady()
      reads this
    {
      && WellFormed(disk) && freeMap.Valid() && freeMap.bitCnt == |disk|
      && (freeMapFile != null ==> Fits(disk, freeMapFile.inode.data))
    }

    /** The free map file can take the whole map. */
    ghost predicate MapWritable()
      requires freeMapFile != null
      reads this, freeMapFile.inode
    {
      freeMapFile.inode.denyWriteCnt == 0 && freeMapFile.inode.data.length == ByteCnt(|disk|)
    }

    /** bitmap_write on the free map file. */
    method StoreFreeMap() returns (ok: bool)
      requires MapReady() && freeMapFile != null
      modifies this`disk
      ensures ChangedOnlyIn(old(disk), disk, freeMapFile.inode.data)
      ensures MapWritable() ==> ok
      ensures ok && freeMapFile.inode.data.length == ByteCnt(|disk|) ==> Decodes(Content(disk, freeMapFile.inode.data), freeMap.Bits())
    {
      var bytes := freeMap.ToBytes();
      ghost var c := Content(disk, freeMapFile.inode.data);
      var n := InodeWriteAt(freeMapFile.inode, bytes, |bytes|, 0);
      ok := n == |bytes|;
      if ok {
        assert bytes[..n] == bytes;
        assert |c| == |bytes| ==> Overwrite(c, 0, bytes) == bytes;
      }
    }

    method FreeMapAllocate(cnt: nat) returns (r: ScanResult)
      requires MapReady()
      modifies this`disk, freeMap.words
      ensures freeMapFile == null ==> disk == old(disk)
      ensures freeMapFile != null ==> ChangedOnlyIn(old(disk), disk, freeMapFile.inode.data)
      ensures freeMap.Bits() == if r.Found? then SetRange(old(freeMap.Bits()), r.idx, cnt, true) else old(freeMap.Bits())
      ensures r.Found? ==> IsFirstRun(old(freeMap.Bits()), 0, cnt, false, r)
      ensures freeMapFile == null || MapWritable() ==> IsFirstRun(old(freeMap.Bits()), 0, cnt, false, r)
      ensures freeMapFile != null && MapWritable() ==>
        if r.Found? then Decodes(Content(disk, freeMapFile.inode.data), freeMap.Bits()) else disk == old(disk)
    {
      r := freeMap.ScanAndFlip(0, cnt, false);
      if r.Found? && freeMapFile != null {
        var ok := StoreFreeMap();
        if !ok {
          freeMap.SetMultiple(r.idx, cnt, false);
          assert freeMap.Bits() == old(freeMap.Bits());
          r := BitmapError;
        }
      }
    }

    method FreeMapRelease(sector: nat, cnt: nat)
      requires MapReady() && freeMapFile != null
      requires IsRun(freeMap.Bits(), sector, cnt, true)
      modifies this`disk, freeMap.words
      ensures freeMap.Bits() == SetRange(old(freeMap.Bits()), sector, cnt, false)
      ensures ChangedOnlyIn(old(disk), disk, freeMapFile.inode.data)
      ensures MapWritable() ==> Decodes(Content(disk, freeMapFile.inode.data), freeMap.Bits())
    {
      freeMap.SetMultiple(sector, cnt, false);
      var _ := StoreFreeMap();
    }

    /** The loop of inode_create that clears the data sectors. */
    method ZeroSectors(start: nat, cnt: nat)
      requires WellFormed(disk) && start + cnt <= |disk|
      modifies this`disk
      ensures |disk| == |old(disk)| && WellFormed(disk)
      ensures forall s :: 0 <= s < |disk| ==> disk[s] == if start <= s < start + cnt then Zeros(SECTOR_SIZE) else old(disk)[s]
    {
      for i := 0 to cnt
        invariant |disk| == |old(disk)| && WellFormed(disk)
        invariant forall s :: 0 <= s < |disk| ==> disk[s] == if start <= s < start + i then Zeros(SECTOR_SIZE) else old(disk)[s]
      {
        disk := disk[start + i := Zeros(SECTOR_SIZE)];
      }
    }

    /** inode_create: allocates the data sectors, writes the header and zeros the data. */
    method InodeCreate(sector: nat, length: nat) returns (ok: bool, ghost e: Extent)
      requires MapReady() && sector < |disk| <= MAX_SECTORS && length <= INT_MAX
      requires freeMap.Bits()[sector]
      requires freeMapFile != null ==> MapWritable() && !InExtent(freeMapFile.inode.data, sector)
      requires freeMapFile != null ==> forall s :: InExtent(freeMapFile.inode.data, s) ==> freeMap.Bits()[s]
      modifies this`disk, freeMap.words
      ensures |disk| == |old(disk)| && WellFormed(disk)
      ensures ok <==> HasRoom(old(freeMap.Bits()), length)
      ensures ok ==> e.length == length && IsFirstRun(old(freeMap.Bits()), 0, SectorCount(length), false, Found(e.start))
      ensures ok ==> freeMap.Bits() == SetRange(old(freeMap.Bits()), e.start, SectorCount(length), true)
      ensures ok ==> disk[sector] == InodeBytes(e) && forall s :: InExtent(e, s) ==> disk[s] == Zeros(SECTOR_SIZE)
      ensures ok ==> forall s :: 0 <= s < |disk| && s != sector && !InExtent(e, s) && !InFreeMapFile(s) ==> disk[s] == old(disk)[s]
      ensures ok && freeMapFile != null ==> Decodes(Content(disk, freeMapFile.inode.data), freeMap.Bits())
      ensures !ok ==> disk == old(disk) && freeMap.Bits() == old(freeMap.Bits())
    {
      hide InodeBytes, Decodes, Content, BytesToSectors, Zeros;
      ok, e := false, Extent(0, length);
      var sectors := BytesToSectors(length);
      ghost var bits := freeMap.Bits();
      var r := FreeMapAllocate(sectors);
      if r.Found? {
        assert IsRun(bits, r.idx, sectors, false);
        e := Extent(r.idx, length);
        assert sectors == SectorCount(length);
        ghost var d1 := disk;
        disk := disk[sector := InodeBytes(Extent(r.idx, length))];
        ZeroSectors(r.idx, sectors);
        if freeMapFile != null {
          forall s | InExtent(freeMapFile.inode.data, s) ensures disk[s] == d1[s] { assert bits[s]; }
          ContentFrame(d1, disk, freeMapFile.inode.data);
        }
        ok := true;
      }
    }

    ghost predicate InFreeMapFile(s: int)
      reads this
    {
      freeMapFile != null && InExtent(freeMapFile.inode.data, s)
    }

    // -------------------------------------------------- inode.c: the table

    method InodeReopen(inode: Inode)
      requires inode in openInodes
      modifies this`refs, inode`openCnt
      ensures Tab() == Reopened(old(Tab()), inode)
    {
      inode.openCnt := inode.openCnt + 1;
      refs := refs + multiset{inode};
    }

    /** The search of inode_open through the list of open inodes. */
    method FindOpen(sector: nat) returns (r: Inode?)
      ensures r != null ==> r in openInodes && r.sector == sector
      ensures r == null ==> forall i :: i in openInodes ==> i.sector != sector
    {
      for k := 0 to |openInodes|
        invariant forall j :: 0 <= j < k ==> openInodes[j].sector != sector
      {
        if openInodes[k].sector == sector { return openInodes[k]; }
      }
      return null;
    }

    method InodeOpen(sector: nat) returns (inode: Inode)
      requires WellFormed(disk) && sector < |disk| && NoDuplicates(openInodes)
      modifies this`openInodes, this`refs, openInodes`openCnt
      ensures inode in openInodes && inode.sector == sector && NoDuplicates(openInodes)
      ensures inode in old(openInodes) ==> Tab() == Reopened(old(Tab()), inode) && openInodes == old(openInodes)
      ensures inode !in old(openInodes) ==>
        && fresh(inode) && inode.data == InodeAt(disk, sector) && openInodes == [inode] + old(openInodes)
        && Tab() == Added(old(Tab()), inode) && forall i :: i in old(openInodes) ==> i.sector != sector
    {
      var known := FindOpen(sector);
      if known != null {
        inode := known;
        InodeReopen(inode);
      } else {
        inode := new Inode(sector, InodeOf(disk[sector]));
        openInodes := [inode] + openInodes;
        refs := refs + multiset{inode};
      }
    }

    /** list_remove on the list of open inodes. */
    method ListRemove(inode: Inode)
      requires inode in openInodes && NoDuplicates(openInodes)
      modifies this`openInodes
      ensures NoDuplicates(openInodes) && |openInodes| == |old(openInodes)| - 1
      ensures forall i :: i in openInodes <==> i in old(openInodes) && i != inode
    {
      var k :| 0 <= k < |openInodes| && openInodes[k] == inode;
      ListRemoved(openInodes, k);
      openInodes := openInodes[..k] + openInodes[k + 1..];
    }

    /** The part of inode_close that gives up one reference; `last` says that the inode left the table. */
    method DropReference(inode: Inode) returns (last: bool)
      requires inode in openInodes && NoDuplicates(openInodes)
      modifies this`openInodes, this`refs, inode`openCnt
      ensures last <==> old(inode.openCnt) == 1
      ensures last ==> |openInodes| == |old(openInodes)| - 1
      ensures Tab() == Dropped(old(Tab()), inode) && NoDuplicates(openInodes) && refs == old(refs) - multiset{inode}
      ensures forall i :: i in openInodes ==> i in old(openInodes)
    {
      inode.openCnt := inode.openCnt - 1;
      refs := refs - multiset{inode};
      last := inode.openCnt == 0;
      assert AllFiles() == old(AllFiles()) && DenyingOf(AllFiles()) == old(DenyingOf(AllFiles()));
      if last {
        ListRemove(inode);
        assert RecsOf(openInodes) == old(RecsOf(openInodes)) - {inode};
      } else {
        assert RecsOf(openInodes) == old(RecsOf(openInodes))[inode := inode.Rec()];
      }
    }

    /** The two releases of inode_close for an inode that was removed and has no opener left. */
    method ReleaseInode(sector: nat, data: Extent, ghost held: set<nat>)
      requires MapReady() && freeMapFile != null && MapWritable()
      requires DiskOk(disk, freeMap.Bits(), held) && sector in held && data == InodeAt(disk, sector)
      requires freeMapFile.inode.data == InodeAt(disk, FREE_MAP_SECTOR)
      modifies this`disk, freeMap.words
      ensures |disk| == |old(disk)|
      ensures DiskOk(disk, freeMap.Bits(), held - {sector}) && RootSlots(disk) == RootSlots(old(disk))
      ensures OwnedBy(disk, held - {sector}) == OwnedBy(old(disk), held) - {sector}
      ensures SameFiles(old(disk), disk, OwnedBy(disk, held - {sector}), FREE_MAP_SECTOR)
      ensures GivenBack(old(freeMap.Bits()), freeMap.Bits(), sector, data.start, SectorCount(data.length))
    {
      ghost var d, rest := disk, held - {sector};
      HeldReleased(d, freeMap.Bits(), held, sector);
      FreeMapRelease(sector, 1);
      FreeMapStored(d, disk, freeMap.Bits(), rest);
      ghost var d1 := disk;
      FreeMapRelease(data.start, BytesToSectors(data.length));
      StillMarked(d, d1, freeMap.Bits(), freeMap.Bits(), OwnedBy(d, rest));
      FreeMapStored(d1, disk, freeMap.Bits(), rest);
    }

    method InodeClose(inode: Inode)
      requires Valid() && inode in refs
      modifies this`openInodes, this`refs, this`disk, freeMap.words, inode`openCnt
      ensures Valid() && Tab() == Dropped(old(Tab()), inode) && refs == old(refs) - multiset{inode}
      ensures forall i :: i in openInodes ==> i in old(openInodes)
      ensures Abs(Cur()).names == old(Abs(Cur())).names && Abs(Cur()).handles == old(Abs(Cur())).handles
      ensures forall h :: h in Abs(Cur()).files ==> h in old(Abs(Cur())).files && Abs(Cur()).files[h] == old(Abs(Cur())).files[h]
      ensures Settled(old(Abs(Cur())).files, Abs(Cur()).files, old(freeMap.Bits()), freeMap.Bits())
      ensures !(old(inode.openCnt) == 1 && inode.removed) ==>
        disk == old(disk) && freeMap.Bits() == old(freeMap.Bits()) && Abs(Cur()) == old(Abs(Cur())) && Cap(Cur()) == old(Cap(Cur()))
      ensures Cap(Cur()).slots == old(Cap(Cur())).slots
    {
      hide StateOk, DiskOk, TableOk, SameFiles, OwnedBy, Held, RootSlots, InodeOf, ByteCnt, Abs, Placed, DenyingOf, HandleMapOf, Cap, GivenBack, Returned;
      ghost var w := Cur();
      CloseReady(w, inode);
      var gone := CloseOnDevice(inode);
      Closed(w, Cur(), inode);
      if gone {
        ClosedSettles(w, Cur(), inode);
      } else {
        CapSame(w, Cur());
      }
    }

    /** What inode_close does to the table and to the device; gone says that the file is. */
    method CloseOnDevice(inode: Inode) returns (gone: bool)
      requires Valid() && inode in refs && inode in openInodes
      modifies this`openInodes, this`refs, this`disk, freeMap.words, inode`openCnt
      ensures freeMap.Valid() && freeMap.bitCnt == |disk| && NoDuplicates(openInodes)
      ensures Tab() == Dropped(old(Tab()), inode) && refs == old(refs) - multiset{inode} && HandleMap() == old(HandleMap())
      ensures forall i :: i in openInodes ==> i in old(openInodes)
      ensures DiskOk(disk, freeMap.Bits(), Held(Tab())) && RootSlots(disk) == RootSlots(old(disk))
      ensures SameFiles(old(disk), disk, OwnedBy(disk, Held(Tab())), FREE_MAP_SECTOR)
      ensures gone <==> old(inode.openCnt) == 1 && inode.removed
      ensures if gone
        then GivenBack(old(freeMap.Bits()), freeMap.Bits(), inode.sector, inode.data.start, SectorCount(inode.data.length))
        else disk == old(disk) && freeMap.Bits() == old(freeMap.Bits())
    {
      hide StateOk, DiskOk, TableOk, SameFiles, OwnedBy, Held, RootSlots, InodeOf, ByteCnt, Placed, DenyingOf, HandleMapOf, GivenBack, Dropped;
      ghost var w := Cur();
      CloseReady(w, inode);
      MapInode(w);
      var last := DropReference(inode);
      DroppedOk(w.tab, inode);
      gone := last && inode.removed;
      if gone {
        ReleaseInode(inode.sector, inode.data, Held(w.tab));
      } else {
        SameDevice(w.disk, w.bits, Held(w.tab));
      }
      assert Tab() == Dropped(w.tab, inode);
    }

    // ------------------------------------------------------------- file.c

    method FileReadAt(file: File, size: int, ofs: nat) returns (buffer: seq<byte>)
      requires Valid() && file in handles
      ensures Valid() && Spec.Step(Abs(Cur()), Spec.ReadAt(file, size, ofs), Spec.Bytes(buffer), Abs(Cur()))
    {
      hide StateOk, Abs, Spec.Step;
      ReadAtStep(Cur(), file, size, ofs);
      buffer := InodeReadAt(file.inode, size, ofs);
    }

    method FileRead(file: File, size: int) returns (buffer: seq<byte>)
      requires Valid() && file in handles
      modifies file`pos
      ensures Valid() && Spec.Step(old(Abs(Cur())), Spec.Read(file, size), Spec.Bytes(buffer), Abs(Cur()))
      ensures Cap(Cur()) == old(Cap(Cur()))
    {
      hide StateOk, Abs, Spec.Step;
      ghost var w := Cur();
      HandleAbs(w, file);
      buffer := InodeReadAt(file.inode, size, file.pos);
      ReadStep(w, file, size, buffer);
      file.pos := file.pos + |buffer|;
      PosSet(w, file);
    }

    /** Assigning a file's position changes one entry of the handle map. */
    twostate lemma PosSet(w: World, new file: File)
      requires old(Ready()) && Ready() && w == old(Cur()) && file in old(handles)
      requires unchanged(this) && unchanged(freeMap.words) && unchanged(openInodes)
      requires file.denyWrite == old(file.denyWrite) && forall f :: f in AllFiles() && f != file ==> unchanged(f)
      ensures Cur() == WithPos(w, file, file.pos)
    {
      assert DenyingOf(AllFiles()) == old(DenyingOf(AllFiles()));
      assert HandleMap() == old(HandleMap())[file := Spec.Handle(file.inode.sector, file.pos, file.denyWrite)];
    }

    method FileSeek(file: File, newPos: nat)
      requires Valid() && file in handles
      modifies file`pos
      ensures Valid() && Spec.Step(old(Abs(Cur())), Spec.Seek(file, newPos), Spec.Void, Abs(Cur()))
      ensures Cap(Cur()) == old(Cap(Cur()))
    {
      hide StateOk, Abs, Spec.Step;
      ghost var w := Cur();
      SeekStep(w, file, newPos);
      file.pos := newPos;
      PosSet(w, file);
    }

    /** inode_write_at on the inode of a handle. */
    method WriteThrough(file: File, buffer: seq<byte>, size: int, ofs: nat) returns (n: nat)
      requires Valid() && file in handles && size <= |buffer|
      modifies this`disk
      ensures Ready() && WroteAt(old(Cur()), Cur(), file, Data(buffer, size), ofs, n)
    {
      hide StateOk, Abs;
      ghost var w := Cur();
      HandleAbs(w, file);
      HandleListed(w, file);
      n := InodeWriteAt(file.inode, buffer, size, ofs);
      assert Tab() == w.tab && HandleMap() == w.hm;
      assert Data(buffer, size)[..n] == buffer[..n];
    }

    method FileWriteAt(file: File, buffer: seq<byte>, size: int, ofs: nat) returns (n: nat)
      requires Valid() && file in handles && size <= |buffer|
      modifies this`disk
      ensures Valid() && Spec.Step(old(Abs(Cur())), Spec.WriteAt(file, Data(buffer, size), ofs), Spec.Count(n), Abs(Cur()))
      ensures Cap(Cur()) == old(Cap(Cur()))
    {
      hide StateOk, Abs, Cap, Spec.Step, WroteAt;
      ghost var w := Cur();
      n := WriteThrough(file, buffer, size, ofs);
      WriteAtStep(w, Cur(), file, Data(buffer, size), ofs, n);
    }

    method FileWrite(file: File, buffer: seq<byte>, size: int) returns (n: nat)
      requires Valid() && file in handles && size <= |buffer|
      modifies this`disk, file`pos
      ensures Valid() && Spec.Step(old(Abs(Cur())), Spec.Write(file, Data(buffer, size)), Spec.Count(n), Abs(Cur()))
      ensures Cap(Cur()) == old(Cap(Cur()))
    {
      hide StateOk, Abs, Cap, Spec.Step, WroteAt;
      ghost var w := Cur();
      n := WriteThrough(file, buffer, size, file.pos);
      ghost var w' := Cur();
      WriteStep(w, w', file, Data(buffer, size), n);
      label Written:
      file.pos := file.pos + n;
      PosSet@Written(w', file);
    }

    method FileDenyWrite(file: File)
      requires Valid() && file in handles
      modifies file`denyWrite, file.inode`denyWriteCnt
      ensures Valid() && Spec.Step(old(Abs(Cur())), Spec.Deny(file), Spec.Void, Abs(Cur()))
      ensures Cap(Cur()) == old(Cap(Cur()))
    {
      hide StateOk, Abs, Spec.Step;
      ghost var w := Cur();
      HandleListed(w, file);
      if !file.denyWrite {
        file.denyWrite := true;
        file.inode.denyWriteCnt := file.inode.denyWriteCnt + 1;
        assert RecsOf(openInodes) == Denying(w, file).tab.inodes;
        assert DenyingOf(AllFiles()) == w.tab.denying + {file};
        assert HandleMap() == Denying(w, file).hm;
      }
      DenyStep(w, Cur(), file);
      CapSame(w, Cur());
    }

    method FileAllowWrite(file: File)
      requires Valid() && file in handles
      modifies file`denyWrite, file.inode`denyWriteCnt
      ensures Valid() && Spec.Step(old(Abs(Cur())), Spec.Allow(file), Spec.Void, Abs(Cur()))
      ensures !file.denyWrite && Cap(Cur()) == old(Cap(Cur()))
    {
      hide StateOk, Abs, Spec.Step;
      ghost var w := Cur();
      HandleListed(w, file);
      if file.denyWrite {
        file.denyWrite := false;
        file.inode.denyWriteCnt := file.inode.denyWriteCnt - 1;
        assert RecsOf(openInodes) == Allowing(w, file).tab.inodes;
        assert DenyingOf(AllFiles()) == w.tab.denying - {file};
        assert HandleMap() == Allowing(w, file).hm;
      }
      AllowStep(w, Cur(), file);
      CapSame(w, Cur());
    }

    /** file_open on an inode that the caller has a reference to; the file takes that reference over. */
    method FileOpen(inode: Inode) returns (file: File)
      requires Valid() && inode in refs && inode.sector > ROOT_DIR_SECTOR
      modifies this`handles, this`refs
      ensures Valid() && fresh(file) && file.inode == inode && handles == old(handles) + {file}
      ensures refs == old(refs) - multiset{inode} && Abs(Cur()) == Spec.Opener(old(Abs(Cur())), file, inode.sector)
    {
      hide StateOk, Abs;
      ghost var w := Cur();
      file := new File(inode);
      FileOpened(w, file);
      handles := handles + {file};
      refs := refs - multiset{inode};
      assert AllFiles() == w.tab.files + {file};
      assert DenyingOf(AllFiles()) == w.tab.denying;
      assert HandleMap() == WithFile(w, file).hm;
    }

    method FileReopen(file: File) returns (r: File)
      requires Valid() && file in handles && refs == multiset{}
      modifies this`handles, this`refs, file.inode`openCnt
      ensures Valid() && refs == multiset{} && fresh(r) && handles == old(handles) + {r}
      ensures Spec.Step(old(Abs(Cur())), Spec.Reopen(file), Spec.Opened(r), Abs(Cur()))
      ensures Cap(Cur()) == old(Cap(Cur()))
    {
      hide StateOk, Abs, Cap, OwnedBy, Held, UsedSectors, RootSlots, InodeOf, Placed;
      ghost var w := Cur();
      HandleFile(w, file);
      InodeReopen(file.inode);
      InodeOpened(w, Cur(), file.inode);
      r := FileOpen(file.inode);
      assert r !in w.hm;
      CapSame(w, Cur());
    }

    /** free(file): the file's reference to its inode goes back to the caller. */
    method FileRelease(file: File)
      requires Valid() && file in handles && !file.denyWrite
      modifies this`handles, this`refs
      ensures Valid() && handles == old(handles) - {file} && refs == old(refs) + multiset{file.inode}
      ensures Abs(Cur()) == old(Abs(Cur())).(handles := old(Abs(Cur())).handles - {file})
    {
      hide StateOk, Abs;
      ghost var w := Cur();
      FileDropped(w, file);
      NotMapFile(w, file);
      handles := handles - {file};
      refs := refs + multiset{file.inode};
      assert AllFiles() == w.tab.files - {file};
      assert DenyingOf(AllFiles()) == w.tab.denying;
      assert HandleMap() == w.hm - {file};
    }

    method FileClose(file: File)
      requires Valid() && file in handles && refs == multiset{}
      modifies this, freeMap.words, file`denyWrite, file.inode`denyWriteCnt, file.inode`openCnt
      ensures Valid() && refs == multiset{} && handles == old(handles) - {file}
      ensures Spec.Step(old(Abs(Cur())), Spec.Close(file), Spec.Void, Abs(Cur()))
      ensures forall i :: i in openInodes ==> i in old(openInodes)
      ensures Cap(Cur()).slots == old(Cap(Cur())).slots
      ensures file.inode.sector in old(Abs(Cur())).names.Values ==> Cap(Cur()) == old(Cap(Cur()))
      ensures Settled(old(Abs(Cur())).files, Abs(Cur()).files, old(Cap(Cur())).bits, Cap(Cur()).bits)
    {
      hide StateOk, Abs, Cap, RootSlots, Held, Settled, Spec.Valid, Spec.Collect, Spec.Step, Spec.Enabled, Dropped;
      ghost var s := Abs(Cur());
      NamedNotRemoved(file);
      CapBits(Cur());
      FileGivesUp(file);
      ghost var s1 := Abs(Cur());
      CapBits(Cur());
      InodeClose(file.inode);
      CapBits(Cur());
      AbsValid(Cur());
      Collected(s1, Abs(Cur()));
      CloseStep(s, file);
    }

    lemma NamedNotRemoved(file: File)
      requires Valid() && file in handles
      ensures file.inode.sector in Abs(Cur()).names.Values ==> !file.inode.removed
    {
      hide StateOk, Abs, RootSlots, Held;
      HandleListed(Cur(), file);
      if file.inode.sector in Abs(Cur()).names.Values { LinkedStays(Cur(), file.inode); }
    }

    /** The part of file_close before inode_close. */
    method FileGivesUp(file: File)
      requires Valid() && file in handles
      modifies this`handles, this`refs, file`denyWrite, file.inode`denyWriteCnt
      ensures Valid() && handles == old(handles) - {file} && refs == old(refs) + multiset{file.inode}
      ensures Abs(Cur()) == old(Abs(Cur())).(handles := old(Abs(Cur())).handles - {file}) && Spec.Enabled(old(Abs(Cur())), Spec.Close(file))
      ensures Cap(Cur()) == old(Cap(Cur()))
    {
      hide StateOk, Abs, Cap, Spec.Step, Spec.Enabled;
      ghost var s, w := Abs(Cur()), Cur();
      FileAllowWrite(file);
      AllowOnly(s, Abs(Cur()), file);
      FileRelease(file);
      CapSame(w, Cur());
    }

    // -------------------------------------------------------- directory.c

    /** Reads the directory entry at ofs; false at the end of the file. */
    method ReadEntry(dir: Inode, ofs: nat, ghost k: nat) returns (ok: bool, e: seq<byte>)
      requires Fits(disk, dir.data) && ofs == ENTRY_SIZE * k && dir.data.length % ENTRY_SIZE == 0
      ensures ok <==> k < |Slots(Content(disk, dir.data))|
      ensures ok ==> |e| == ENTRY_SIZE && e == EntryAt(Content(disk, dir.data), k) && SlotOf(e) == Slots(Content(disk, dir.data))[k]
    {
      e := InodeReadAt(dir, ENTRY_SIZE, ofs);
      ok := |e| == ENTRY_SIZE;
      if ok { SlotsAt(Content(disk, dir.data), k); }
    }

    method Lookup(dir: Inode, name: Name) returns (found: bool, e: seq<byte>, ofs: nat)
      requires Fits(disk, dir.data) && dir.data.length % ENTRY_SIZE == 0
      ensures found <==> name in UsedNames(Slots(Content(disk, dir.data)))
      ensures found ==>
        var c := Content(disk, dir.data);
        var k := Find(Slots(c), name);
        k < |Slots(c)| && ofs == ENTRY_SIZE * k && e == EntryAt(c, k)
    {
      ghost var slots, k := Slots(Content(disk, dir.data)), 0;
      FindUsed(slots, name);
      ofs := 0;
      var ok;
      ok, e := ReadEntry(dir, ofs, k);
      while ok
        invariant ofs == ENTRY_SIZE * k && k <= |slots| && (ok <==> k < |slots|)
        invariant ok ==> e == EntryAt(Content(disk, dir.data), k) && SlotOf(e) == slots[k]
        invariant forall i :: 0 <= i < k ==> !Holds(slots, i, name)
        decreases |slots| - k
      {
        if SlotOf(e).inUse && SlotOf(e).name == name {
          assert Holds(slots, k, name);
          return true, e, ofs;
        }
        ofs, k := ofs + ENTRY_SIZE, k + 1;
        ok, e := ReadEntry(dir, ofs, k);
      }
      return false, e, ofs;
    }

    /** The loop of dir_add that looks for a free slot; the end of the file if there is none. */
    method FindFree(dir: Inode) returns (ofs: nat, e: seq<byte>, ghost k: nat)
      requires Fits(disk, dir.data) && dir.data.length % ENTRY_SIZE == 0
      ensures |e| == ENTRY_SIZE && ofs == ENTRY_SIZE * k && k <= |Slots(Content(disk, dir.data))|
      ensures forall i :: 0 <= i < k ==> Slots(Content(disk, dir.data))[i].inUse
      ensures k < |Slots(Content(disk, dir.data))| ==> !Slots(Content(disk, dir.data))[k].inUse
    {
      ghost var slots := Slots(Content(disk, dir.data));
      ofs, k := 0, 0;
      e := Zeros(ENTRY_SIZE);
      var ok, r := ReadEntry(dir, ofs, k);
      while ok
        invariant |e| == ENTRY_SIZE && ofs == ENTRY_SIZE * k && k <= |slots| && (ok <==> k < |slots|)
        invariant ok ==> |r| == ENTRY_SIZE && SlotOf(r) == slots[k]
        invariant forall i :: 0 <= i < k ==> slots[i].inUse
        decreases |slots| - k
      {
        e := r;
        if !SlotOf(e).inUse { return; }
        ofs, k := ofs + ENTRY_SIZE, k + 1;
        ok, r := ReadEntry(dir, ofs, k);
      }
    }

    /** Writes one entry of a directory. */
    method WriteEntry(dir: Inode, e: seq<byte>, ofs: nat, ghost k: nat) returns (ok: bool)
      requires Fits(disk, dir.data) && ofs == ENTRY_SIZE * k && dir.data.length % ENTRY_SIZE == 0 && |e| == ENTRY_SIZE
      modifies this`disk
      ensures ChangedOnlyIn(old(disk), disk, dir.data)
      ensures var slots := Slots(Content(old(disk), dir.data));
        && (ok <==> dir.denyWriteCnt == 0 && k < |slots|)
        && Slots(Content(disk, dir.data)) == if ok then slots[k := SlotOf(e)] else slots
      ensures !ok ==> disk == old(disk)
    {
      ghost var c := Content(disk, dir.data);
      var n := InodeWriteAt(dir, e, ENTRY_SIZE, ofs);
      ok := n == ENTRY_SIZE;
      if ok {
        assert e[..n] == e;
        EntryWritten(c, Content(disk, dir.data), k, e);
      }
    }

    method DirAdd(dir: Inode, name: Name, sector: nat) returns (ok: bool, ghost k: nat)
      requires Fits(disk, dir.data) && dir.data.length % ENTRY_SIZE == 0 && 0 !in name && sector < TWO32
      modifies this`disk
      ensures ChangedOnlyIn(old(disk), disk, dir.data)
      ensures var slots := Slots(Content(old(disk), dir.data));
        && (ok <==> ValidName(name) && name !in UsedNames(slots) && dir.denyWriteCnt == 0 && HasFreeSlot(slots))
        && (ok ==> k < |slots| && !slots[k].inUse && Slots(Content(disk, dir.data)) == slots[k := Slot(true, name, sector)])
      ensures !ok ==> disk == old(disk)
    {
      ok, k := false, 0;
      if |name| == 0 || |name| > NAME_MAX { return; }
      var found, _, _ := Lookup(dir, name);
      if found { return; }
      var ofs, e;
      ofs, e, k := FindFree(dir);
      FilledSlot(e, name, sector);
      e := FilledEntry(e, name, sector);
      ok := WriteEntry(dir, e, ofs, k);
    }

    // ---------------------------------------------------------- filesys.c

    /** inode_open of an inode that exists on the device. */
    method OpenExisting(sector: nat) returns (inode: Inode)
      requires Valid() && sector in Owned(Cur()) && sector < |disk|
      modifies this`openInodes, this`refs, openInodes`openCnt
      ensures Valid() && Abs(Cur()) == old(Abs(Cur())) && Owned(Cur()) == old(Owned(Cur()))
      ensures inode in openInodes && inode.sector == sector && refs == old(refs) + multiset{inode}
      ensures forall i :: i in openInodes <==> i == inode || i in old(openInodes)
      ensures inode in old(openInodes) || fresh(inode)
    {
      hide StateOk, Abs, Held, OwnedBy, HandleMapOf, DenyingOf;
      ghost var w := Cur();
      SystemOwned(w);
      inode := InodeOpen(sector);
      InodeOpened(w, Cur(), inode);
    }

    /** dir_open_root: opens the root directory's inode. */
    method DirOpenRoot() returns (dir: Inode)
      requires Valid()
      modifies this`openInodes, this`refs, openInodes`openCnt
      ensures Valid() && Abs(Cur()) == old(Abs(Cur())) && refs == old(refs) + multiset{dir}
      ensures dir in openInodes && dir.sector == ROOT_DIR_SECTOR && !dir.removed
      ensures fresh(set i | i in openInodes && i !in old(openInodes))
    {
      hide StateOk, Abs, Owned, HandleMapOf, DenyingOf;
      SystemOwned(Cur());
      dir := OpenExisting(ROOT_DIR_SECTOR);
      RootDirOpen(Cur(), dir);
    }

    /** The header sector of a new file: free_map_allocate(1, ...). */
    method AllocateHeader() returns (r: ScanResult)
      requires Valid()
      modifies this`disk, freeMap.words
      ensures Valid() && Abs(Cur()) == old(Abs(Cur())) && Owned(Cur()) == old(Owned(Cur()))
      ensures RootSlots(disk) == RootSlots(old(disk)) && |disk| == |old(disk)|
      ensures IsFirstRun(old(freeMap.Bits()), 0, 1, false, r)
      ensures r.BitmapError? ==> disk == old(disk) && freeMap.Bits() == old(freeMap.Bits())
      ensures r.Found? ==>
        && r.idx < |disk| && !old(freeMap.Bits())[r.idx] && freeMap.Bits() == SetRange(old(freeMap.Bits()), r.idx, 1, true)
        && r.idx > ROOT_DIR_SECTOR && Unowned(Cur(), r.idx)
    {
      hide StateOk, Abs, Owned, Unowned, Placed, RootSlots, Decodes, Content, DenyingOf, HandleMapOf;
      ghost var w := Cur();
      SystemOwned(w);
      MapInode(w);
      MapFits(w);
      r := FreeMapAllocate(1);
      assert Tab() == w.tab && HandleMap() == w.hm;
      hide Tab;
      if r.Found? {
        assert IsRun(w.bits, r.idx, 1, false);
        FreeUnowned(w, r.idx);
        MapStored(w, Cur());
      } else {
        assert Cur() == w;
      }
    }

    /** inode_create on a sector that is marked and that nobody owns. */
    method CreateAt(sector: nat, length: nat) returns (ok: bool)
      requires Valid() && sector < |disk| && freeMap.Bits()[sector] && sector > ROOT_DIR_SECTOR && Unowned(Cur(), sector)
      requires length <= INT_MAX
      modifies this`disk, freeMap.words
      ensures Valid() && Abs(Cur()) == old(Abs(Cur())) && Owned(Cur()) == old(Owned(Cur()))
      ensures RootSlots(disk) == RootSlots(old(disk)) && |disk| == |old(disk)|
      ensures ok <==> HasRoom(old(freeMap.Bits()), length)
      ensures !ok ==> Cur() == old(Cur())
      ensures ok ==> Disjoint(disk, Owned(Cur())) && Loose(disk, freeMap.Bits(), Owned(Cur()), sector)
      ensures ok ==> Placed(disk, sector) && FileBytes(disk, sector) == Zeros(length)
      ensures ok ==> Extended(old(freeMap.Bits()), freeMap.Bits(), length)
    {
      hide StateOk, Abs, Owned, Unowned, RootSlots, Placed, Disjoint, Loose, FileBytes, Decodes, Content, DenyingOf, HandleMapOf;
      ghost var w := Cur();
      SystemOwned(w);
      MapInode(w);
      MapFits(w);
      ghost var e;
      ok, e := InodeCreate(sector, length);
      assert Tab() == w.tab && HandleMap() == w.hm;
      hide Tab;
      if ok {
        assert MadeInode(w, Cur(), sector, e);
        hide MadeInode, Decodes, Fits;
        InodeMade(w, Cur(), sector, e);
      } else {
        assert Cur() == w;
      }
    }

    /** dir_add of a new inode to the root directory. */
    method EnterAt(dir: Inode, name: Name, sector: nat, ghost length: nat) returns (ok: bool)
      requires Valid() && dir in openInodes && dir.sector == ROOT_DIR_SECTOR
      requires 0 !in name && sector < |disk| && sector > ROOT_DIR_SECTOR
      requires Disjoint(disk, Owned(Cur())) && Loose(disk, freeMap.Bits(), Owned(Cur()), sector)
      requires Placed(disk, sector) && FileBytes(disk, sector) == Zeros(length)
      modifies this`disk
      ensures Valid() && |disk| == |old(disk)| && refs == old(refs)
      ensures ok <==> ValidName(name) && HasFreeSlot(RootSlots(old(disk))) && name !in old(Abs(Cur())).names
      ensures ok ==> sector !in old(Abs(Cur())).files
      ensures ok ==> Abs(Cur()) == Spec.Created(old(Abs(Cur())), name, sector, length)
      ensures !ok ==> Cur() == old(Cur())
      ensures |RootSlots(disk)| == |RootSlots(old(disk))|
    {
      hide StateOk, Abs, Owned, Disjoint, Loose, HasFreeSlot, UsedNames, Content, DenyingOf, HandleMapOf;
      ghost var w := Cur();
      MapFits(w);
      RootNames(w);
      RootDirOpen(w, dir);
      ghost var k;
      ok, k := DirAdd(dir, name, sector);
      assert Tab() == w.tab && HandleMap() == w.hm;
      hide Tab;
      if ok {
        assert FilledRoot(w, Cur(), name, sector, k);
        hide FilledRoot, Placed, RootDir, Fits;
        Entered(w, Cur(), name, sector, k);
      } else {
        assert Cur() == w;
      }
    }

    /** free_map_release(sector, 1) of a header sector that nobody owns. */
    method ReleaseHeader(sector: nat)
      requires Valid() && sector < |disk| && freeMap.Bits()[sector] && Unowned(Cur(), sector)
      modifies this`disk, freeMap.words
      ensures Valid() && |disk| == |old(disk)| && Abs(Cur()) == old(Abs(Cur())) && RootSlots(disk) == RootSlots(old(disk))
      ensures freeMap.Bits() == SetRange(old(freeMap.Bits()), sector, 1, false)
    {
      hide StateOk, Abs, Owned, Unowned, Placed, Decodes, Content, DenyingOf, HandleMapOf;
      ghost var w := Cur();
      MapInode(w);
      MapFits(w);
      FreeMapRelease(sector, 1);
      assert Tab() == w.tab && HandleMap() == w.hm;
      hide Tab;
      MapStored(w, Cur());
    }

    /** The conjunction of filesys_create, and the release when it fails. */
    method CreateIn(dir: Inode, name: Name, initialSize: nat) returns (ok: bool)
      requires Valid() && dir in openInodes && dir.sector == ROOT_DIR_SECTOR && 0 !in name && initialSize <= INT_MAX
      modifies this`disk, freeMap.words
      ensures Valid()
      ensures ok <==>
        && ValidName(name) && name !in old(Abs(Cur())).names && HasFreeSlot(RootSlots(old(disk)))
        && Allocatable(old(freeMap.Bits()), initialSize)
      ensures ok ==> exists id :: id !in old(Abs(Cur())).files && Abs(Cur()) == Spec.Created(old(Abs(Cur())), name, id, initialSize)
      ensures !ok ==> Abs(Cur()) == old(Abs(Cur())) && Leaked(old(freeMap.Bits()), freeMap.Bits(), initialSize)
      ensures ok ==> Took(old(freeMap.Bits()), freeMap.Bits(), initialSize)
      ensures |RootSlots(disk)| == |RootSlots(old(disk))|
    {
      hide StateOk, Abs, Owned, Unowned, Disjoint, Loose, Placed, RootSlots, HasFreeSlot, HasRoom, RootDir, SectorCount,
        FileBytes, Tab, DenyingOf, HandleMapOf, Allocatable, Leaked, IsFirstRun, IsRun, Took, Extended;
      ghost var bits := freeMap.Bits();
      var inodeSector := 0;
      ok := false;
      var r := AllocateHeader();
      HeaderFound(bits, r, initialSize);
      if r.Found? {
        inodeSector := r.idx;
        var created := CreateAt(inodeSector, initialSize);
        HeaderGivenBack(bits, inodeSector, freeMap.Bits(), initialSize);
        if created {
          LooseUnowned(Cur(), inodeSector);
          ok := EnterAt(dir, name, inodeSector, initialSize);
          TookBoth(bits, inodeSector, freeMap.Bits(), initialSize);
        }
      }
      if !ok && inodeSector != 0 {
        ReleaseHeader(inodeSector);
      }
    }

    method FilesysCreate(name: Name, initialSize: nat) returns (ok: bool)
      requires Valid() && refs == multiset{} && 0 !in name && initialSize <= INT_MAX
      modifies this, freeMap.words, openInodes`openCnt
      ensures Valid() && refs == multiset{} && handles == old(handles)
      ensures Spec.Step(old(Abs(Cur())), Spec.Create(name, initialSize), Spec.Status(ok), Abs(Cur()))
      ensures ok <==> Creatable(old(Cap(Cur())), old(Abs(Cur())).names.Keys, name, initialSize)
      ensures Cap(Cur()).slots == old(Cap(Cur())).slots
      ensures ok ==> Took(old(Cap(Cur())).bits, Cap(Cur()).bits, initialSize)
      ensures !ok ==> Leaked(old(Cap(Cur())).bits, Cap(Cur()).bits, initialSize)
      ensures forall i :: i in openInodes ==> i in old(openInodes) || fresh(i)
    {
      hide StateOk, Abs, RootSlots, HasFreeSlot, Allocatable, Leaked, Took, Held, Dropped, Tab, DenyingOf, HandleMapOf, ValidName;
      FreeSlot(Cur());
      var dir := DirOpenRoot();
      ok := CreateIn(dir, name, initialSize);
      InodeClose(dir);
    }

    /** lookup in the root directory. */
    method LookupRoot(dir: Inode, name: Name) returns (found: bool, e: seq<byte>, ofs: nat, ghost k: nat)
      requires Valid() && dir in openInodes && dir.sector == ROOT_DIR_SECTOR
      ensures Valid() && Cur() == old(Cur()) && RootDir(Cur(), dir)
      ensures found <==> name in Abs(Cur()).names
      ensures found ==> |e| == ENTRY_SIZE && ofs == ENTRY_SIZE * k && NamedBy(Cur(), name, k) && SlotOf(e) == RootSlots(disk)[k]
    {
      hide StateOk, Abs, OwnedBy, UsedNames, Held, Placed;
      ghost var w := Cur();
      RootDirOpen(w, dir);
      RootNames(w);
      RootFits(w);
      found, e, ofs := Lookup(dir, name);
      k := 0;
      if found {
        k := Find(RootSlots(w.disk), name);
        NamedInode(w, name);
        SlotsAt(FileBytes(w.disk, ROOT_DIR_SECTOR), k);
      }
    }

    /** dir_lookup: opens the inode that a name leads to. */
    method DirLookup(dir: Inode, name: Name) returns (inode: Inode?)
      requires Valid() && dir in openInodes && dir.sector == ROOT_DIR_SECTOR
      modifies this`openInodes, this`refs, openInodes`openCnt
      ensures Valid() && Abs(Cur()) == old(Abs(Cur())) && dir in openInodes && dir.removed == old(dir.removed)
      ensures inode != null <==> name in Abs(Cur()).names
      ensures inode == null ==> refs == old(refs)
      ensures inode != null ==>
        && refs == old(refs) + multiset{inode} && inode.sector == Abs(Cur()).names[name] && inode.sector > ROOT_DIR_SECTOR
        && inode in openInodes
      ensures fresh(set i | i in openInodes && i !in old(openInodes))
    {
      hide StateOk, Abs, Owned, RootSlots, RootDir, HandleMapOf, DenyingOf;
      var found, e, _, k := LookupRoot(dir, name);
      if found {
        NamedOwned(Cur(), name, k);
        inode := OpenExisting(SlotOf(e).sector);
      } else {
        inode := null;
      }
    }

    method FilesysOpen(name: Name) returns (file: File?)
      requires Valid() && refs == multiset{}
      modifies this, freeMap.words, openInodes`openCnt
      ensures Valid() && refs == multiset{}
      ensures file != null ==> fresh(file) && handles == old(handles) + {file}
      ensures file == null ==> handles == old(handles)
      ensures file != null ==> Spec.Step(old(Abs(Cur())), Spec.Open(name), Spec.Opened(file), Abs(Cur()))
      ensures file == null ==> Spec.Step(old(Abs(Cur())), Spec.Open(name), Spec.Null, Abs(Cur()))
      ensures forall i :: i in openInodes ==> i in old(openInodes) || fresh(i)
      ensures Cap(Cur()) == old(Cap(Cur()))
    {
      hide StateOk, Abs, Cap, Held, Dropped, HandleMap, Spec.Step, Tab;
      ghost var s, w := Abs(Cur()), Cur();
      AbsHandles(Cur());
      var inode := OpenNamed(name);
      if inode == null {
        OpenFails(s, name);
        return null;
      }
      file := FileOpen(inode);
      OpenStep(s, name, file);
      CapSame(w, Cur());
    }

    /** The part of filesys_open before file_open. */
    method OpenNamed(name: Name) returns (inode: Inode?)
      requires Valid() && refs == multiset{}
      modifies this`openInodes, this`refs, this`disk, freeMap.words, openInodes`openCnt
      ensures Valid() && Abs(Cur()) == old(Abs(Cur())) && disk == old(disk) && freeMap.Bits() == old(freeMap.Bits()) && Cap(Cur()) == old(Cap(Cur()))
      ensures inode != null <==> name in Abs(Cur()).names
      ensures inode == null ==> refs == multiset{}
      ensures inode != null ==>
        refs == multiset{inode} && inode.sector == Abs(Cur()).names[name] && inode.sector > ROOT_DIR_SECTOR
      ensures forall i :: i in openInodes ==> i in old(openInodes) || fresh(i)
    {
      hide StateOk, Abs, Cap, Held, Dropped, HandleMap, Tab;
      ghost var w := Cur();
      var dir := DirOpenRoot();
      inode := DirLookup(dir, name);
      InodeClose(dir);
      CapSame(w, Cur());
    }

    /** Erases the entry of an open inode and marks the inode removed. */
    method EraseEntry(dir: Inode, inode: Inode, e: seq<byte>, ofs: nat, name: Name, ghost k: nat)
      requires Valid() && dir in openInodes && dir.sector == ROOT_DIR_SECTOR && inode in openInodes
      requires |e| == ENTRY_SIZE && ofs == ENTRY_SIZE * k && NamedBy(Cur(), name, k)
      requires SlotOf(e) == RootSlots(disk)[k] && inode.sector == SlotOf(e).sector
      modifies this`disk, inode`removed
      ensures Valid() && Abs(Cur()) == old(Abs(Cur())).(names := old(Abs(Cur())).names - {name})
      ensures inode.removed && dir.removed == old(dir.removed) && |RootSlots(disk)| == |RootSlots(old(disk))|
    {
      hide StateOk, Abs, OwnedBy, Held, Placed, Content, Slots, UsedNames, UsedSectors;
      ghost var w := Cur();
      RootDirOpen(w, dir);
      RootFits(w);
      NamedOwned(w, name, k);
      ErasedSlot(e);
      var ok := WriteEntry(dir, ErasedEntry(e), ofs, k);
      inode.removed := true;
      assert RecsOf(openInodes) == MarkedRemoved(w.tab, inode).inodes;
      assert DenyingOf(AllFiles()) == w.tab.denying && HandleMap() == w.hm;
      hide RecsOf, DenyingOf, HandleMap;
      assert ErasedRoot(w, Cur(), inode, k);
      Erased(w, Cur(), inode, name, k);
    }

    method DirRemove(dir: Inode, name: Name) returns (ok: bool)
      requires Valid() && dir in openInodes && dir.sector == ROOT_DIR_SECTOR && dir in refs
      modifies this, freeMap.words, openInodes`openCnt, openInodes`removed
      ensures Valid() && handles == old(handles) && refs == old(refs) && dir.removed == old(dir.removed)
      ensures ok <==> name in old(Abs(Cur())).names
      ensures forall i :: i in openInodes ==> i in old(openInodes) || fresh(i)
      ensures Abs(Cur()).names == old(Abs(Cur())).names - {name} && Abs(Cur()).handles == old(Abs(Cur())).handles
      ensures forall h :: h in Abs(Cur()).files ==> h in old(Abs(Cur())).files && Abs(Cur()).files[h] == old(Abs(Cur())).files[h]
      ensures Settled(old(Abs(Cur())).files, Abs(Cur()).files, old(freeMap.Bits()), freeMap.Bits())
      ensures Cap(Cur()).slots == old(Cap(Cur())).slots
    {
      hide StateOk, Abs, RootSlots, Owned, NamedBy, Dropped, RootDir, DenyingOf, HandleMapOf, Returned;
      ghost var w := Cur();
      var found, e, ofs, k := LookupRoot(dir, name);
      if !found { return false; }
      NamedOwned(w, name, k);
      var inode := OpenExisting(SlotOf(e).sector);
      NamedKept(w, Cur(), name, k);
      EraseEntry(dir, inode, e, ofs, name, k);
      InodeClose(inode);
      ok := true;
    }

    method FilesysRemove(name: Name) returns (ok: bool)
      requires Valid() && refs == multiset{}
      modifies this, freeMap.words, openInodes`openCnt, openInodes`removed
      ensures Valid() && refs == multiset{} && handles == old(handles)
      ensures Spec.Step(old(Abs(Cur())), Spec.Remove(name), Spec.Status(ok), Abs(Cur()))
      ensures forall i :: i in openInodes ==> i in old(openInodes) || fresh(i)
      ensures Cap(Cur()).slots == old(Cap(Cur())).slots
      ensures Settled(old(Abs(Cur())).files, Abs(Cur()).files, old(Cap(Cur())).bits, Cap(Cur()).bits)
    {
      hide StateOk, Abs, Cap, RootSlots, Held, Dropped, HandleMap, Settled, Spec.Valid, Spec.Collect, Spec.Step;
      ghost var s, w := Abs(Cur()), Cur();
      CapBits(w);
      var dir := DirOpenRoot();
      CapSame(w, Cur());
      ok := DirRemove(dir, name);
      InodeClose(dir);
      CapBits(Cur());
      AbsValid(Cur());
      Collected(s.(names := s.names - {name}), Abs(Cur()));
      RemoveStep(s, name);
    }
  }

  /** bytes_to_sectors: DIV_ROUND_UP in a signed 32-bit type, then converted to an unsigned one. */
  function BytesToSectors(size: nat): (n: nat)
    requires size <= INT_MAX
    ensures size + SECTOR_SIZE - 1 <= INT_MAX ==> n == SectorCount(size)
    ensures size + SECTOR_SIZE - 1 > INT_MAX ==> n > MAX_SECTORS
  {
    var sum := size + SECTOR_SIZE - 1;
    if sum <= INT_MAX then sum / SECTOR_SIZE else TWO32 - (TWO32 - sum) / SECTOR_SIZE
  }

  /** Taking one element out of a list without duplicates. */
  lemma ListRemoved<T>(l: seq<T>, k: nat)
    requires k < |l| && forall a, b :: 0 <= a < b < |l| ==> l[a] != l[b]
    ensures forall x :: x in l[..k] + l[k + 1..] <==> x in l && x != l[k]
    ensures var l' := l[..k] + l[k + 1..]; forall a, b :: 0 <= a < b < |l'| ==> l'[a] != l'[b]
  {
    var l' := l[..k] + l[k + 1..];
    forall x | x in l && x != l[k] ensures x in l' {
      var a :| 0 <= a < |l| && l[a] == x;
      assert l'[if a < k then a else a - 1] == x;
    }
  }
}
