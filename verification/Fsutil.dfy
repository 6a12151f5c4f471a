/**
 * Moving files between the file system and a ustar archive on the
 * scratch device (filesys/fsutil.c). Where the kernel panics, the
 * methods return false.
 */
module Fsutil {
  import opened Bytes
  import opened Options
  import opened Disk
  import opened Bitmaps
  import opened Directory
  import opened Layout
  import opened InodeTable
  import opened World
  import opened FsOps
  import opened FsCreate
  import opened FileSys
  import opened FsRun
  import opened Ustar
  import opened Archive
  import Spec = FsSpec

  /** Between two commands: no file is open. */
  ghost predicate Idle(fs: FileSystem)
    reads fs, fs.freeMap.words, fs.openInodes, fs.AllFiles()
  {
    fs.Valid() && fs.refs == multiset{} && fs.handles == {}
  }

  ghost predicate Sized(dev: Sectors) { forall s :: 0 <= s < |dev| ==> |dev[s]| == SECTOR_SIZE }

  /** A sector is written, or the kernel panics. */
  method BlockWrite(dev: Sectors, sector: nat, buffer: seq<byte>) returns (ok: bool, dev': Sectors)
    requires Sized(dev) && |buffer| == SECTOR_SIZE
    ensures Sized(dev') && |dev'| == |dev| && (ok <==> sector < |dev|)
    ensures ok ==> dev' == dev[sector := buffer]
  {
    ok := sector < |dev|;
    dev' := if ok then dev[sector := buffer] else dev;
  }

  /** The end-of-archive marker. */
  method WriteEnd(dev: Sectors, at: nat) returns (ok: bool, dev': Sectors)
    requires Sized(dev)
    ensures |dev'| == |dev| && (ok <==> at + 1 < |dev|)
    ensures ok ==> dev' == dev[at := Zeros(SECTOR_SIZE)][at + 1 := Zeros(SECTOR_SIZE)]
  {
    hide Sized, Zeros;
    ok, dev' := BlockWrite(dev, at, Zeros(SECTOR_SIZE));
    if !ok { return; }
    ok, dev' := BlockWrite(dev', at + 1, Zeros(SECTOR_SIZE));
  }

  /** The copying loop of fsutil_append. */
  method CopyOut(fs: FileSystem, f: File, dev: Sectors, sector: nat, size: nat, ghost s0: Spec.Fs<File>, ghost id: nat)
    returns (ok: bool, dev': Sectors, ghost pos: nat)
    requires fs.Valid() && fs.refs == multiset{} && fs.handles == {f} && Sized(dev) && sector <= |dev|
    requires id in s0.files && size == |s0.files[id]|
    requires Reading(s0, fs.View(), f, id, 0)
    modifies fs, fs.freeMap.words, (set i | i in fs.openInodes), fs.handles
    ensures fs.Valid() && fs.refs == multiset{} && fs.handles == {f}
    ensures forall i :: i in fs.openInodes ==> i in old(fs.openInodes) || fresh(i)
    ensures Reading(s0, fs.View(), f, id, pos)
    ensures Sized(dev') && |dev'| == |dev|
    ensures ok <==> sector + SectorCount(size) <= |dev|
    ensures ok ==> CopiedOut(dev, dev', sector, SectorCount(size), s0.files[id])
  {
    hide StateOk, Abs, Cap, Uses, DataSector, SectorCount, Spec.Step, Reading;
    ghost var c := s0.files[id];
    var left, k := size, 0;
    dev', pos := dev, 0;
    SectorsLeft(size, 0, size);
    while left > 0
      invariant fs.Valid() && fs.refs == multiset{} && fs.handles == {f}
      invariant forall i :: i in fs.openInodes ==> i in old(fs.openInodes) || fresh(i)
      invariant pos == size - left && Reading(s0, fs.View(), f, id, pos)
      invariant Sized(dev') && |dev'| == |dev| && sector + k <= |dev| && left == Left(size, k) && (k > 0 ==> Left(size, k - 1) > 0)
      invariant CopiedOut(dev, dev', sector, k, c)
      decreases left
    {
      var chunkSize := if left > SECTOR_SIZE then SECTOR_SIZE else left;
      SectorsLeft(size, k, left);
      if sector + k >= |dev'| { return false, dev', pos; }
      ghost var s := fs.View();
      var r := Execute(fs, Spec.Read(f, chunkSize));
      ReadChunk(s0, s, fs.View(), f, id, k, chunkSize, r);
      pos := pos + chunkSize;
      if |r.bytes| != chunkSize { return false, dev', pos; }
      var buffer := r.bytes + Zeros(SECTOR_SIZE - chunkSize);
      var wrote;
      wrote, dev' := BlockWrite(dev', sector + k, buffer);
      left, k := left - chunkSize, k + 1;
    }
    SectorsLeft(size, k, left);
    ok := true;
  }

  /** The bytes that are left after k sectors. */
  function Left(size: nat, k: nat): int { if SECTOR_SIZE * k >= size then 0 else size - SECTOR_SIZE * k }

  lemma SectorsLeft(size: nat, k: nat, left: nat)
    requires left == Left(size, k)
    ensures k == 0 ==> left == size
    ensures left == 0 && (k == 0 || Left(size, k - 1) > 0) ==> k == SectorCount(size)
    ensures left > 0 ==> k < SectorCount(size)
  {}

  /** The first k sectors of a file have been copied to the device, from sector on, and nothing else changed. */
  ghost predicate CopiedOut(dev: Sectors, dev': Sectors, sector: nat, k: nat, c: seq<byte>) {
    && |dev'| == |dev|
    && forall s :: 0 <= s < |dev| ==> dev'[s] == if sector <= s < sector + k then DataSector(c, s - sector) else dev[s]
  }

  /** The scratch device, and the positions that append and extract keep between calls. */
  class Scratch {
    var sectors: Sectors
    var appendAt: nat
    var extractAt: nat

    constructor (sectors: Sectors)
      ensures this.sectors == sectors && appendAt == 0 && extractAt == 0
    {
      this.sectors := sectors;
      appendAt, extractAt := 0, 0;
    }
  }

  lemma IdleView(fs: FileSystem)
    requires Idle(fs)
    ensures fs.View().handles == map[] && Spec.Valid(fs.View())
  {
    hide StateOk, Abs, Spec.Valid;
    AbsHandles(fs.Cur());
    AbsValid(fs.Cur());
  }

  /** One more member: behind what was there, with zeros behind it. */
  ghost predicate Appended(dev: Sectors, at: nat, dev': Sectors, at': nat, e: Member) {
    && |dev'| == |dev| && Sized(dev') && Lies(dev', at, e) && at' == Behind(at, e) && at' + 1 < |dev'|
    && dev'[at'] == Zeros(SECTOR_SIZE) && dev'[at' + 1] == Zeros(SECTOR_SIZE)
    && forall s :: 0 <= s < at ==> dev'[s] == dev[s]
  }

  /** The sectors that fsutil_append writes make a member. */
  lemma MakesMember(dev: Sectors, d1: Sectors, d2: Sectors, d3: Sectors, at: nat, e: Member)
    requires Sized(dev) && |e.name| < 100 && at < |dev| && d1 == dev[at := HeaderOf(e.name, true, |e.data|)]
    requires at + 1 + SectorCount(|e.data|) <= |dev| && CopiedOut(d1, d2, at + 1, SectorCount(|e.data|), e.data)
    requires Behind(at, e) + 1 < |dev|
    requires d3 == d2[Behind(at, e) := Zeros(SECTOR_SIZE)][Behind(at, e) + 1 := Zeros(SECTOR_SIZE)]
    ensures Appended(dev, at, d3, Behind(at, e), e)
  {
    hide HeaderOf, DataSector, SectorCount;
    assert d2[at] == d1[at];
    forall j | 0 <= j < SectorCount(|e.data|) ensures LiesAt(d3, at, e.data, j) { assert d2[at + 1 + j] == DataSector(e.data, j); }
  }

  /** filesys_open and file_length. */
  method OpenFile(fs: FileSystem, name: Name) returns (f: File?, size: nat)
    requires Idle(fs)
    modifies fs, fs.freeMap.words, (set i | i in fs.openInodes), fs.handles
    ensures fs.Valid() && fs.refs == multiset{} && forall i :: i in fs.openInodes ==> i in old(fs.openInodes) || fresh(i)
    ensures f != null <==> name in old(fs.View()).names
    ensures f == null ==> fs.handles == {} && fs.View() == old(fs.View())
    ensures f != null ==>
      var s0 := old(fs.View());
      && fresh(f) && fs.handles == {f} && s0.names[name] in s0.files
      && Reading(s0, fs.View(), f, s0.names[name], 0) && size == |s0.files[s0.names[name]]| <= INT_MAX - SECTOR_SIZE + 1
  {
    hide StateOk, Abs, Cap, Uses, Spec.Step, Spec.Valid, Reading;
    ghost var s0 := fs.View();
    IdleView(fs);
    var r := Execute(fs, Spec.Open(name));
    OpenAnswers(s0, fs.View(), name, r);
    if r.Null? { return null, 0; }
    f := r.h;
    OpenedForReading(s0, fs.View(), name, r.h);
    HandleFile(fs.Cur(), r.h);
    size := r.h.inode.data.length;
    ReadingAt(s0, fs.View(), r.h, s0.names[name]);
  }

  lemma OpenAnswers(s0: Spec.Fs<File>, s: Spec.Fs<File>, name: Name, r: Spec.Result<File>)
    requires Spec.Step(s0, Spec.Open(name), r, s)
    ensures if name in s0.names then r.Opened? else r.Null? && s == s0
  {}

  lemma ReadingAt(s0: Spec.Fs<File>, s: Spec.Fs<File>, f: File, id: nat)
    requires Reading(s0, s, f, id, 0)
    ensures f in s.handles && s.handles[f].file == id && s.files == s0.files
  {}

  method CloseFile(fs: FileSystem, f: File, ghost s0: Spec.Fs<File>, ghost id: nat, ghost pos: nat)
    requires fs.Valid() && fs.refs == multiset{} && fs.handles == {f}
    requires Spec.Valid(s0) && s0.handles == map[] && Reading(s0, fs.View(), f, id, pos)
    modifies fs, fs.freeMap.words, (set i | i in fs.openInodes), fs.handles
    ensures Idle(fs) && fs.View() == s0 && forall i :: i in fs.openInodes ==> i in old(fs.openInodes) || fresh(i)
  {
    hide StateOk, Abs, Cap, Uses, Spec.Step, Spec.Valid, Reading;
    ghost var s := fs.View();
    var r := Execute(fs, Spec.Close(f));
    CloseAnswers(s, fs.View(), f, r);
    ClosedAgain(s0, s, fs.View(), f, id, pos);
  }

  lemma CloseAnswers(s0: Spec.Fs<File>, s: Spec.Fs<File>, f: File, r: Spec.Result<File>)
    requires Spec.Step(s0, Spec.Close(f), r, s)
    ensures r == Spec.Void
  {}

  /** The header of a regular file in a buffer of its own. */
  method HeaderSector(name: Name, size: nat) returns (ok: bool, header: seq<byte>)
    requires size <= INT_MAX
    ensures ok <==> |Strip(name)| <= 99
    ensures ok ==> header == HeaderOf(Strip(name), true, size)
  {
    var buffer := new byte[HEADER_SIZE];
    ok := MakeHeader(name, true, size, buffer);
    header := buffer[..];
  }

  /** The header, the contents and the end marker of a member. */
  method WriteMember(fs: FileSystem, f: File, dev: Sectors, at: nat, name: Name, size: nat, ghost s0: Spec.Fs<File>, ghost id: nat)
    returns (ok: bool, dev': Sectors, at': nat, ghost pos: nat)
    requires fs.Valid() && fs.refs == multiset{} && fs.handles == {f} && Sized(dev)
    requires id in s0.files && size == |s0.files[id]| <= INT_MAX && Reading(s0, fs.View(), f, id, 0)
    modifies fs, fs.freeMap.words, (set i | i in fs.openInodes), fs.handles
    ensures fs.Valid() && fs.refs == multiset{} && fs.handles == {f} && Reading(s0, fs.View(), f, id, pos)
    ensures forall i :: i in fs.openInodes ==> i in old(fs.openInodes) || fresh(i)
    ensures ok <==> |Strip(name)| <= 99 && at + SectorCount(size) + 2 < |dev|
    ensures ok ==> Appended(dev, at, dev', at', Member(Strip(name), s0.files[id]))
  {
    hide StateOk, Abs, Strip, HeaderOf, SectorCount, CopiedOut, Appended, Reading, Zeros, Sized;
    at', pos := at, 0;
    var made, header := HeaderSector(name, size);
    if !made { return false, dev, at, 0; }
    var wrote;
    wrote, dev' := BlockWrite(dev, at, header);
    if !wrote { return false, dev', at, 0; }
    ghost var d1 := dev';
    ok, dev', pos := CopyOut(fs, f, dev', at + 1, size, s0, id);
    if !ok { return; }
    ghost var d2 := dev';
    at' := at + 1 + SectorCount(size);
    ok, dev' := WriteEnd(dev', at');
    if !ok { return; }
    MakesMember(dev, d1, d2, dev', at, Member(Strip(name), s0.files[id]));
  }

  /** The file is there and the archive has room for it. */
  ghost predicate Appendable(l: map<Name, seq<byte>>, name: Name, at: nat, size: nat) {
    name in l && |Strip(name)| <= 99 && at + SectorCount(|l[name]|) + 2 < size
  }

  /** fsutil_append. */
  method Append(fs: FileSystem, u: Scratch, name: Name) returns (ok: bool)
    requires Idle(fs) && Sized(u.sectors)
    modifies u`sectors, u`appendAt, fs, fs.freeMap.words, (set i | i in fs.openInodes), fs.handles
    ensures Idle(fs) && fs.View() == old(fs.View()) && forall i :: i in fs.openInodes ==> i in old(fs.openInodes) || fresh(i)
    ensures ok <==> Appendable(Listing(old(fs.View())), name, old(u.appendAt), |old(u.sectors)|)
    ensures ok ==> |Listing(fs.View())[name]| <= INT_MAX - SECTOR_SIZE + 1
    ensures ok ==> Appended(old(u.sectors), old(u.appendAt), u.sectors, u.appendAt, Member(Strip(name), Listing(fs.View())[name]))
  {
    hide StateOk, Abs, Strip, Appended, Reading, Spec.Valid, SectorCount;
    ghost var s0 := fs.View();
    IdleView(fs);
    ListingNames(s0);
    var f, size := OpenFile(fs, name);
    if f == null { return false; }
    ghost var id := s0.names[name];
    var dev, at;
    ghost var pos;
    ok, dev, at, pos := WriteMember(fs, f, u.sectors, u.appendAt, name, size, s0, id);
    CloseFile(fs, f, s0, id, pos);
    u.sectors, u.appendAt := dev, at;
  }

  lemma ListingNames(s: Spec.Fs<File>)
    requires Spec.Valid(s)
    ensures Listing(s).Keys == s.names.Keys
  {
    forall n | n in s.names ensures s.names[n] in s.files { assert Spec.Linked(s, s.names[n]); }
  }

  lemma OpenedForReading(s0: Spec.Fs<File>, s: Spec.Fs<File>, name: Name, f: File)
    requires s0.handles == map[] && Spec.Valid(s0) && Spec.Step(s0, Spec.Open(name), Spec.Opened(f), s)
    ensures name in s0.names && s0.names[name] in s0.files && Reading(s0, s, f, s0.names[name], 0)
    ensures name in Listing(s0) && Listing(s0)[name] == s0.files[s0.names[name]]
  {
    assert Spec.Linked(s0, s0.names[name]);
  }

  // ------------------------------------------------------------------- extracting

  /** The first bytes of the data from sector on. */
  ghost predicate Prefix(dev: Sectors, sector: nat, done: seq<byte>) {
    Sized(dev) && sector + SectorCount(|done|) <= |dev| && done == ReadData(dev, sector, |done|)
  }

  /** One more sector. */
  lemma PrefixGrows(dev: Sectors, sector: nat, done: seq<byte>, k: nat, n: nat)
    requires Prefix(dev, sector, done) && |done| == SECTOR_SIZE * k && sector + k < |dev| && 0 < n <= SECTOR_SIZE
    ensures Prefix(dev, sector, done + dev[sector + k][..n])
  {
    var done' := done + dev[sector + k][..n];
    assert SectorCount(|done'|) == k + 1;
    hide SectorCount;
    forall i | 0 <= i < |done'| ensures done'[i] == ReadData(dev, sector, |done'|)[i] {
      if i < |done| { assert done[i] == ReadData(dev, sector, |done|)[i]; }
    }
  }

  /** The copying loop of fsutil_extract. */
  method CopyIn(fs: FileSystem, f: File, dev: Sectors, sector: nat, size: nat, ghost s0: Spec.Fs<File>, ghost name: Name, ghost id: nat)
    returns (ok: bool, sector': nat)
    requires fs.Valid() && fs.refs == multiset{} && fs.handles == {f} && Sized(dev) && sector <= |dev|
    requires Writing(s0, fs.View(), name, f, id, size, [])
    modifies fs, fs.freeMap.words, (set i | i in fs.openInodes), fs.handles
    ensures fs.Valid() && fs.refs == multiset{} && fs.handles == {f}
    ensures forall i :: i in fs.openInodes ==> i in old(fs.openInodes) || fresh(i)
    ensures Cap(fs.Cur()) == old(Cap(fs.Cur()))
    ensures ok <==> sector + SectorCount(size) <= |dev|
    ensures ok ==> sector' == sector + SectorCount(size) && Writing(s0, fs.View(), name, f, id, size, ReadData(dev, sector, size))
  {
    hide StateOk, Abs, Cap, SectorCount, Spec.Step, Writing, Prefix, ReadData;
    ok, sector' := false, sector;
    var left, k := size, 0;
    ghost var done: seq<byte> := [];
    NothingRead(dev, sector);
    SectorsLeft(size, 0, size);
    while left > 0
      invariant fs.Valid() && fs.refs == multiset{} && fs.handles == {f}
      invariant forall i :: i in fs.openInodes ==> i in old(fs.openInodes) || fresh(i)
      invariant Cap(fs.Cur()) == old(Cap(fs.Cur())) && !ok && sector + k <= |dev| && left == Left(size, k) && (k > 0 ==> Left(size, k - 1) > 0)
      invariant |done| == size - left && Prefix(dev, sector, done) && Writing(s0, fs.View(), name, f, id, size, done)
      decreases left
    {
      var chunkSize := if left > SECTOR_SIZE then SECTOR_SIZE else left;
      SectorsLeft(size, k, left);
      if sector + k >= |dev| { return false, sector + k; }
      var data := dev[sector + k][..chunkSize];
      ghost var s := fs.View();
      var r := Execute(fs, Spec.Write(f, data));
      WriteAnswers(s, fs.View(), f, data, r);
      WroteChunk(s0, s, fs.View(), name, f, id, size, done, data, r.n);
      PrefixGrows(dev, sector, done, k, chunkSize);
      done := done + data;
      if r.n != chunkSize { return; }
      left, k := left - chunkSize, k + 1;
    }
    SectorsLeft(size, k, left);
    PrefixWhole(dev, sector, done);
    return true, sector + k;
  }

  lemma NothingRead(dev: Sectors, sector: nat)
    requires Sized(dev) && sector <= |dev|
    ensures Prefix(dev, sector, [])
  {}

  lemma PrefixWhole(dev: Sectors, sector: nat, done: seq<byte>)
    requires Prefix(dev, sector, done)
    ensures Sized(dev) && sector + SectorCount(|done|) <= |dev| && ReadData(dev, sector, |done|) == done
  {}

  lemma WriteAnswers(s0: Spec.Fs<File>, s: Spec.Fs<File>, f: File, data: seq<byte>, r: Spec.Result<File>)
    requires Spec.Step(s0, Spec.Write(f, data), r, s)
    ensures r.Count?
  {}

  /** One member of an archive becomes a file, whenever there is room for it. */
  method ExtractFile(fs: FileSystem, dev: Sectors, sector: nat, name: Name, size: nat) returns (ok: bool, sector': nat)
    requires Idle(fs) && Sized(dev) && sector <= |dev| && 0 !in name && size <= INT_MAX
    modifies fs, fs.freeMap.words, (set i | i in fs.openInodes), fs.handles
    ensures fs.Valid() && forall i :: i in fs.openInodes ==> i in old(fs.openInodes) || fresh(i)
    ensures ok <==> Creatable(old(Cap(fs.Cur())), Listing(old(fs.View())).Keys, name, size) && sector + SectorCount(size) <= |dev|
    ensures ok ==>
      && Idle(fs) && sector' == sector + SectorCount(size)
      && Listing(fs.View()) == Listing(old(fs.View()))[name := ReadData(dev, sector, size)]
      && Cap(fs.Cur()) == After(old(Cap(fs.Cur())), Listing(old(fs.View())).Keys, name, size)
  {
    hide StateOk, Abs, Cap, SectorCount, Spec.Step, Spec.Valid, Writing, ReadData, Listing, Creatable, Took, Settled, Leaked;
    sector' := sector;
    ghost var s0, cap := fs.View(), Cap(fs.Cur());
    IdleView(fs);
    ListingNames(s0);
    var r := Execute(fs, Spec.Create(name, size));
    if !r.ok { return false, sector; }
    ghost var s1 := fs.View();
    TookAfter(cap, s0.names.Keys, name, size, Cap(fs.Cur()));
    Named(s0, s1, name, size);
    r := Execute(fs, Spec.Open(name));
    OpenAnswers(s1, fs.View(), name, r);
    var f := r.h;
    ghost var id := Opened(s0, s1, fs.View(), name, size, f);
    ok, sector' := CopyIn(fs, f, dev, sector, size, s0, name, id);
    if !ok { return; }
    ghost var s := fs.View();
    StillNamed(s0, s, name, f, id, ReadData(dev, sector, size));
    ghost var cap1 := Cap(fs.Cur());
    ViewValid(fs);
    r := Execute(fs, Spec.Close(f));
    CloseAnswers(s, fs.View(), f, r);
    NamedStays(s, fs.View(), f, r, cap1, Cap(fs.Cur()));
    ClosedFile(s0, s, fs.View(), name, f, id, ReadData(dev, sector, size));
  }

  /** Closing a file that has a name frees nothing. */
  lemma NamedStays(s: Spec.Fs<File>, s': Spec.Fs<File>, f: File, r: Spec.Result<File>, cap: Capacity, cap': Capacity)
    requires Spec.Step(s, Spec.Close(f), r, s') && Uses(s, Spec.Close(f), r, s', cap, cap')
    requires f in s.handles && s.handles[f].file in s.names.Values && Spec.Valid(s)
    ensures cap' == cap
  {
    hide Returned;
    var id := s.handles[f].file;
    var left := s.(handles := s.handles - {f});
    forall k | k in s.files ensures Spec.Linked(left, k) || Spec.IsOpen(left, k) {
      if k == id {
        var n :| n in s.names && s.names[n] == id;
        assert Spec.Linked(left, id);
      } else if !Spec.Linked(s, k) {
        var g :| g in s.handles && s.handles[g].file == k;
        assert g in left.handles;
      }
    }
    assert s'.files == s.files;
  }

  lemma ViewValid(fs: FileSystem)
    requires fs.Valid() && fs.refs == multiset{}
    ensures Spec.Valid(fs.View())
  {
    hide StateOk, Abs, Spec.Valid;
    AbsValid(fs.Cur());
  }

  /** The capacity after a file was made. */
  ghost function After(cap: Capacity, names: set<Name>, name: Name, length: nat): Capacity
    requires Creatable(cap, names, name, length)
  {
    cap.(bits := Taken(cap.bits, length))
  }

  lemma TookAfter(cap: Capacity, names: set<Name>, name: Name, length: nat, cap': Capacity)
    requires Creatable(cap, names, name, length) && Took(cap.bits, cap'.bits, length) && cap'.slots == cap.slots
    ensures cap' == After(cap, names, name, length)
  {
    TookIs(cap.bits, cap'.bits, length);
  }

  lemma Named(s0: Spec.Fs<File>, s1: Spec.Fs<File>, name: Name, size: nat)
    requires Spec.Step(s0, Spec.Create(name, size), Spec.Status(true), s1)
    ensures name in s1.names
  {}

  lemma StillNamed(s0: Spec.Fs<File>, s: Spec.Fs<File>, name: Name, f: File, id: nat, data: seq<byte>)
    requires Writing(s0, s, name, f, id, |data|, data)
    ensures f in s.handles && s.handles[f].file in s.names.Values
  {
    assert name in s.names && s.names[name] == id;
  }

  /** One file after the other can be made. */
  ghost predicate Extractable(cap: Capacity, names: set<Name>, es: seq<Member>)
    decreases |es|
  {
    es != [] ==>
      && Creatable(cap, names, es[0].name, |es[0].data|)
      && Extractable(After(cap, names, es[0].name, |es[0].data|), names + {es[0].name}, es[1..])
  }

  /** One turn of the loop of fsutil_extract. */
  method ExtractNext(fs: FileSystem, dev: Sectors, sector: nat, ghost cap: Capacity, ghost l: map<Name, seq<byte>>, ghost es: Option<seq<Member>>)
    returns (ok: bool, more: bool, sector': nat)
    requires Idle(fs) && Sized(dev) && Ahead(cap, l, es, Cap(fs.Cur()), Listing(fs.View()), Entries(dev, sector))
    modifies fs, fs.freeMap.words, (set i | i in fs.openInodes), fs.handles
    ensures fs.Valid() && forall i :: i in fs.openInodes ==> i in old(fs.openInodes) || fresh(i)
    ensures !ok ==> !Whole(cap, l, es)
    ensures ok ==> Idle(fs) && sector < sector' && sector < |dev|
    ensures ok ==> Ahead(cap, l, es, Cap(fs.Cur()), Listing(fs.View()), if more then Entries(dev, sector') else Some([]))
  {
    hide StateOk, Abs, Cap, SectorCount, Listing, ReadData, Ahead, Whole, Entries, ParseHeader, Creatable, After;
    ghost var cap1, l1 := Cap(fs.Cur()), Listing(fs.View());
    NoMember(dev, sector, cap, l, es, cap1, l1);
    if sector >= |dev| { return false, false, sector; }
    var r := Parse(dev[sector]);
    sector' := sector + 1;
    match r {
      case EndOfArchive => return true, false, sector';
      case Bad => return false, false, sector';
      case Entry(name, regular, size) =>
        if !regular { return true, true, sector'; }
        NameWhole(dev[sector], name, size);
        Advance(cap, l, es, cap1, l1, dev, sector, name, size);
        ok, sector' := ExtractFile(fs, dev, sector', name, size);
        return ok, true, sector';
    }
  }

  /** fsutil_extract: the file system gains the members of the archive, if there is room for them all, and the archive is erased. */
  method Extract(fs: FileSystem, u: Scratch) returns (ok: bool)
    requires Idle(fs) && Sized(u.sectors)
    modifies u`sectors, u`extractAt, fs, fs.freeMap.words, (set i | i in fs.openInodes), fs.handles
    ensures ok <==> Whole(old(Cap(fs.Cur())), Listing(old(fs.View())), Entries(old(u.sectors), old(u.extractAt))) && |old(u.sectors)| >= 2
    ensures ok ==>
      && Idle(fs) && Listing(fs.View()) == Stored(Listing(old(fs.View())), Entries(old(u.sectors), old(u.extractAt)).value)
      && u.sectors == old(u.sectors)[0 := Zeros(SECTOR_SIZE)][1 := Zeros(SECTOR_SIZE)]
  {
    hide StateOk, Abs, Cap, Listing, Ahead, Entries, Stored, Zeros, Extractable;
    ghost var cap, l, es := Cap(fs.Cur()), Listing(fs.View()), Entries(u.sectors, u.extractAt);
    AheadStarts(cap, l, es);
    var dev, sector := u.sectors, u.extractAt;
    var more := true;
    while more
      invariant Idle(fs) && forall i :: i in fs.openInodes ==> i in old(fs.openInodes) || fresh(i)
      invariant Ahead(cap, l, es, Cap(fs.Cur()), Listing(fs.View()), if more then Entries(dev, sector) else Some([]))
      decreases more, |dev| - sector
    {
      ok, more, sector := ExtractNext(fs, dev, sector, cap, l, es);
      if !ok { return; }
    }
    AheadEnds(cap, l, es, Cap(fs.Cur()), Listing(fs.View()));
    ghost var v := fs.View();
    var wrote;
    wrote, dev := BlockWrite(dev, 0, Zeros(SECTOR_SIZE));
    if !wrote { return false; }
    wrote, dev := BlockWrite(dev, 1, Zeros(SECTOR_SIZE));
    u.sectors, u.extractAt := dev, sector;
    assert fs.View() == v;
    ok := wrote;
  }

  /** The archive can be read and all its members can be made. */
  ghost predicate Whole(cap: Capacity, l: map<Name, seq<byte>>, es: Option<seq<Member>>) {
    es.Some? && Extractable(cap, l.Keys, es.value)
  }

  /** What the archive still has to add, and whether that can be done. */
  ghost predicate Ahead(cap0: Capacity, l0: map<Name, seq<byte>>, es: Option<seq<Member>>, cap: Capacity, l: map<Name, seq<byte>>, rest: Option<seq<Member>>) {
    && (Whole(cap0, l0, es) <==> Whole(cap, l, rest))
    && (es.Some? && rest.Some? ==> Stored(l0, es.value) == Stored(l, rest.value))
    && (es.Some? <==> rest.Some?)
  }

  lemma AheadStarts(cap: Capacity, l: map<Name, seq<byte>>, es: Option<seq<Member>>)
    ensures Ahead(cap, l, es, cap, l, es)
  {}

  lemma AheadEnds(cap0: Capacity, l0: map<Name, seq<byte>>, es: Option<seq<Member>>, cap: Capacity, l: map<Name, seq<byte>>)
    requires Ahead(cap0, l0, es, cap, l, Some([]))
    ensures Whole(cap0, l0, es) && Stored(l0, es.value) == l
  {
    assert Extractable(cap, l.Keys, []);
  }

  /** At the end of the archive nothing follows, a directory adds nothing, and behind a bad header nothing can be read. */
  lemma NoMember(dev: Sectors, at: nat, cap0: Capacity, l0: map<Name, seq<byte>>, es: Option<seq<Member>>, cap: Capacity, l: map<Name, seq<byte>>)
    requires Sized(dev) && Ahead(cap0, l0, es, cap, l, Entries(dev, at))
    ensures at >= |dev| || ParseHeader(dev[at]).Bad? ==> !Whole(cap0, l0, es)
    ensures at < |dev| && ParseHeader(dev[at]).EndOfArchive? ==> Ahead(cap0, l0, es, cap, l, Some([]))
    ensures at < |dev| && ParseHeader(dev[at]).Entry? && !ParseHeader(dev[at]).regular ==> Ahead(cap0, l0, es, cap, l, Entries(dev, at + 1))
  {
    hide ParseHeader, Extractable;
  }

  /** A member that can be made leaves the rest to be made; one that cannot be made or read ends it all. */
  lemma Advance(cap0: Capacity, l0: map<Name, seq<byte>>, es: Option<seq<Member>>, cap: Capacity, l: map<Name, seq<byte>>, dev: Sectors, at: nat, name: Name, size: nat)
    requires Sized(dev) && at < |dev| && ParseHeader(dev[at]) == Parsed.Entry(name, true, size)
    requires Ahead(cap0, l0, es, cap, l, Entries(dev, at))
    ensures !(Creatable(cap, l.Keys, name, size) && at + 1 + SectorCount(size) <= |dev|) ==> !Whole(cap0, l0, es)
    ensures Creatable(cap, l.Keys, name, size) && at + 1 + SectorCount(size) <= |dev| ==>
      Ahead(cap0, l0, es, After(cap, l.Keys, name, size), l[name := ReadData(dev, at + 1, size)], Entries(dev, at + 1 + SectorCount(size)))
  {
    hide ParseHeader, SectorCount, ReadData, Creatable, After;
    if at + 1 + SectorCount(size) <= |dev| {
      var rest := Entries(dev, at + 1 + SectorCount(size));
      if rest.Some? {
        var m := Member(name, ReadData(dev, at + 1, size));
        assert ([m] + rest.value)[1..] == rest.value;
        assert l[name := m.data].Keys == l.Keys + {name};
      }
    }
  }

  lemma NameWhole(h: seq<byte>, name: Name, size: nat)
    requires |h| == HEADER_SIZE && ParseHeader(h) == Parsed.Entry(name, true, size)
    ensures 0 !in name && size <= INT_MAX
  {
    hide Strip;
  }

  // ------------------------------------------------------------------- end to end

  /** What the members appended for some names are. */
  ghost function Members(l: map<Name, seq<byte>>, names: seq<Name>): seq<Member>
    requires forall n :: n in names ==> n in l
  {
    seq(|names|, i requires 0 <= i < |names| => Member(names[i], l[names[i]]))
  }

  ghost predicate Appending(dev: Sectors, at: nat, l: map<Name, seq<byte>>, names: seq<Name>) {
    && Sized(dev) && (forall n :: n in names ==> n in l && |l[n]| <= INT_MAX - SECTOR_SIZE + 1)
    && at == End(0, Members(l, names)) && (names != [] ==> Archived(dev, 0, Members(l, names)))
  }

  lemma AppendedOne(dev: Sectors, at: nat, dev': Sectors, at': nat, l: map<Name, seq<byte>>, names: seq<Name>, n: Name)
    requires Appending(dev, at, l, names) && n in l && |l[n]| <= INT_MAX - SECTOR_SIZE + 1 && Appended(dev, at, dev', at', Member(n, l[n]))
    ensures Appending(dev', at', l, names + [n])
  {
    hide Lies, SectorCount;
    var es, e := Members(l, names), Member(n, l[n]);
    assert Members(l, names + [n]) == es + [e];
    if names == [] {
      assert es == [] && es + [e] == [e];
      FirstMember(dev', at', e);
    } else {
      ArchiveGrows(dev, dev', 0, es, e);
    }
  }

  lemma FirstMember(dev: Sectors, at: nat, e: Member)
    requires Lies(dev, 0, e) && at == Behind(0, e) < |dev| && dev[at] == Zeros(SECTOR_SIZE)
    ensures Archived(dev, 0, [e]) && End(0, [e]) == at
  {
    hide Lies, SectorCount;
    assert [e][1..] == [];
    assert Archived(dev, at, []) && End(at, []) == at;
  }

  /** What the archive of distinct names that can be stored adds to an empty file system. */
  lemma MembersStored(dev: Sectors, at: nat, l: map<Name, seq<byte>>, names: seq<Name>)
    requires Appending(dev, at, l, names) && names != [] && forall n :: n in names ==> Storable(n)
    requires forall i, j :: 0 <= i < j < |names| ==> names[i] != names[j]
    ensures Entries(dev, 0) == Some(Members(l, names))
    ensures Stored(map[], Members(l, names)) == map n | n in names :: l[n]
  {
    hide Storable, Stored, Archived, Entries;
    var es := Members(l, names);
    ArchiveRead(dev, 0, es);
    StoredAll(map[], es);
    assert NamesOf(es) == set n | n in names by {
      forall n | n in names ensures n in NamesOf(es) {
        var i :| 0 <= i < |names| && names[i] == n;
        assert es[i] in es && es[i].name == n;
      }
    }
    forall n | n in names ensures n in NamesOf(es) && Stored(map[], es)[n] == l[n] {
      var i :| 0 <= i < |names| && names[i] == n;
      assert es[i] in es && es[i].name == n;
    }
  }

  /** All the files are there and the archive has room for them, with its end marker. */
  ghost predicate AllAppendable(l: map<Name, seq<byte>>, names: seq<Name>, size: nat) {
    (forall n :: n in names ==> n in l) && (names != [] ==> End(0, Members(l, names)) + 1 < size)
  }

  /** A file that cannot be appended is missing or does not fit, and nothing behind it changes that. */
  lemma OneMore(l: map<Name, seq<byte>>, names: seq<Name>, i: nat, size: nat)
    requires i < |names| && (forall n :: n in names[..i] ==> n in l) && Storable(names[i])
    ensures !Appendable(l, names[i], End(0, Members(l, names[..i])), size) ==> !AllAppendable(l, names, size)
    ensures Appendable(l, names[i], End(0, Members(l, names[..i])), size) ==> AllAppendable(l, names[..i + 1], size)
  {
    hide Storable;
    assert names[..i + 1] == names[..i] + [names[i]];
    StorableName(names[i]);
    if names[i] in l {
      var es, e := Members(l, names[..i]), Member(names[i], l[names[i]]);
      assert Members(l, names[..i + 1]) == es + [e];
      EndPlus(0, es, [e]);
      EndOne(End(0, es), e);
      if forall n :: n in names ==> n in l {
        var rest := Members(l, names)[i + 1..];
        assert Members(l, names) == es + [e] + rest;
        EndPlus(0, es + [e], rest);
      }
    } else {
      assert names[i] in names;
    }
  }

  lemma StorableName(n: Name)
    requires Storable(n)
    ensures |Strip(n)| <= 99 && Strip(n) == n
  {
    StripKeeps(n);
  }

  lemma EndOne(at: nat, e: Member)
    ensures End(at, [e]) == Behind(at, e)
  {
    assert [e][1..] == [];
    assert End(Behind(at, e), []) == Behind(at, e);
  }

  lemma {:induction false} EndPlus(at: nat, a: seq<Member>, b: seq<Member>)
    ensures End(at, a + b) == End(End(at, a), b)
    decreases |a|
  {
    if a == [] {
      assert a + b == b;
    } else {
      assert (a + b)[1..] == a[1..] + b;
      EndPlus(Behind(at, a[0]), a[1..], b);
    }
  }

  /** Appending several files, one after the other. */
  method AppendAll(src: FileSystem, u: Scratch, names: seq<Name>) returns (ok: bool)
    requires Idle(src) && Sized(u.sectors) && u.appendAt == 0 && forall n :: n in names ==> Storable(n)
    modifies u`sectors, u`appendAt, src, src.freeMap.words, (set i | i in src.openInodes), src.handles
    ensures ok <==> AllAppendable(Listing(old(src.View())), names, |old(u.sectors)|)
    ensures ok ==> |u.sectors| == |old(u.sectors)| && Appending(u.sectors, u.appendAt, Listing(old(src.View())), names)
  {
    hide StateOk, Abs, Listing, Appended, Appending, Appendable, AllAppendable, Strip, Members, Storable;
    ghost var l, size := Listing(src.View()), |u.sectors|;
    NoneAppended(u.sectors, l);
    for i := 0 to |names|
      invariant Idle(src) && src.View() == old(src.View()) && forall j :: j in src.openInodes ==> j in old(src.openInodes) || fresh(j)
      invariant Sized(u.sectors) && |u.sectors| == size && Appending(u.sectors, u.appendAt, l, names[..i]) && AllAppendable(l, names[..i], size)
    {
      assert Storable(names[i]);
      ghost var dev, at := u.sectors, u.appendAt;
      AppendingAt(dev, at, l, names[..i]);
      OneMore(l, names, i, size);
      ok := Append(src, u, names[i]);
      if !ok { return; }
      StorableName(names[i]);
      AppendableIn(l, names[i], at, size);
      AppendedSize(dev, at, u.sectors, u.appendAt, Member(names[i], l[names[i]]));
      AppendedOne(dev, at, u.sectors, u.appendAt, l, names[..i], names[i]);
      assert names[..i] + [names[i]] == names[..i + 1];
    }
    assert names[..|names|] == names;
    ok := true;
  }

  lemma AppendableIn(l: map<Name, seq<byte>>, n: Name, at: nat, size: nat)
    requires Appendable(l, n, at, size)
    ensures n in l
  {}

  lemma AppendedSize(dev: Sectors, at: nat, dev': Sectors, at': nat, e: Member)
    requires Appended(dev, at, dev', at', e)
    ensures Sized(dev') && |dev'| == |dev|
  {}

  lemma AppendingAt(dev: Sectors, at: nat, l: map<Name, seq<byte>>, names: seq<Name>)
    requires Appending(dev, at, l, names)
    ensures Sized(dev) && (forall n :: n in names ==> n in l) && at == End(0, Members(l, names))
  {}

  lemma NoneAppended(dev: Sectors, l: map<Name, seq<byte>>)
    requires Sized(dev)
    ensures Appending(dev, 0, l, []) && AllAppendable(l, [], |dev|)
  {}

  lemma RoomForMarker(l: map<Name, seq<byte>>, names: seq<Name>, size: nat)
    requires AllAppendable(l, names, size) && names != []
    ensures size >= 2
  {}

  lemma NoListing(s: Spec.Fs<File>)
    requires s.names == map[]
    ensures Listing(s) == map[]
  {}

  // -------------------------------------------- room on a device that has just been formatted

  /** With the first m sectors taken, a file takes the next ones. */
  lemma TakesNext(n: nat, m: nat, length: nat)
    requires length + SECTOR_SIZE - 1 <= INT_MAX
    ensures Allocatable(FirstMarked(n, m), length) <==> m + 1 + SectorCount(length) <= n
    ensures m + 1 + SectorCount(length) <= n ==> Taken(FirstMarked(n, m), length) == FirstMarked(n, m + 1 + SectorCount(length))
  {
    hide SectorCount;
    var cnt := SectorCount(length);
    if m + 1 + cnt <= n {
      GroupAt(n, m, 1);
      GroupAt(n, m + 1, cnt);
      TakesHeader(n, m, length);
    } else if Allocatable(FirstMarked(n, m), length) {
      NextFits(n, m, length);
    }
  }

  lemma NextFits(n: nat, m: nat, length: nat)
    requires Allocatable(FirstMarked(n, m), length)
    ensures m + 1 + SectorCount(length) <= n
  {
    hide SectorCount;
    var b := FirstMarked(n, m);
    var h: nat :| IsFirstRun(b, 0, 1, false, Found(h)) && HasRoom(SetRange(b, h, 1, true), length);
    assert IsRun(b, h, 1, false) && !b[h];
    FirstRunAt(n, m, 1, h);
    var i: nat :| IsRun(FirstMarked(n, m + 1), i, SectorCount(length), false);
    assert SectorCount(length) > 0 ==> !FirstMarked(n, m + 1)[i];
  }

  /** The free sectors are one group. */
  lemma GroupAt(n: nat, m: nat, cnt: nat)
    requires m + cnt <= n
    ensures IsRun(FirstMarked(n, m), m, cnt, false)
  {}

  lemma TakesHeader(n: nat, m: nat, length: nat)
    requires length + SECTOR_SIZE - 1 <= INT_MAX && m + 1 + SectorCount(length) <= n
    requires IsRun(FirstMarked(n, m), m, 1, false) && IsRun(FirstMarked(n, m + 1), m + 1, SectorCount(length), false)
    ensures Allocatable(FirstMarked(n, m), length) && Taken(FirstMarked(n, m), length) == FirstMarked(n, m + 1 + SectorCount(length))
  {
    hide SectorCount;
    var b, cnt := FirstMarked(n, m), SectorCount(length);
    var h := FirstFree(b, 0, 1);
    FirstRunAt(n, m, 1, h);
    assert HasRoom(SetRange(b, h, 1, true), length);
    var start := FirstFree(FirstMarked(n, m + 1), 0, cnt);
    if cnt > 0 {
      FirstRunAt(n, m + 1, cnt, start);
    } else {
      assert SetRange(FirstMarked(n, m + 1), start, 0, true) == FirstMarked(n, m + 1);
    }
  }

  /** Files with names that can be made fit just when there are slots and sectors for all of them. */
  lemma {:induction false} FitsFresh(n: nat, m: nat, slots: nat, names: set<Name>, es: seq<Member>)
    requires |names| <= slots && m <= n
    requires forall i :: 0 <= i < |es| ==> ValidName(es[i].name) && es[i].name !in names && |es[i].data| + SECTOR_SIZE - 1 <= INT_MAX
    requires forall i, j :: 0 <= i < j < |es| ==> es[i].name != es[j].name
    ensures Extractable(Capacity(FirstMarked(n, m), slots), names, es) <==> |names| + |es| <= slots && End(m, es) <= n
    decreases |es|
  {
    hide SectorCount, Allocatable, Taken, ValidName;
    if es != [] {
      var e := es[0];
      TakesNext(n, m, |e.data|);
      if |names| < slots && Behind(m, e) <= n {
        FitsFresh(n, Behind(m, e), slots, names + {e.name}, es[1..]);
      }
    }
  }

  /** The files of a file system have names that can be given again. */
  lemma NamesGood(fs: FileSystem)
    requires fs.Valid()
    ensures forall n :: n in fs.View().names ==> ValidName(n)
  {
    hide TableOk, HandlesOk, Bound, Consistent, ValidName;
    var slots := RootSlots(fs.disk);
    forall n | n in fs.View().names ensures ValidName(n) {
      var i :| 0 <= i < |slots| && slots[i].inUse && slots[i].name == n;
    }
  }

  /**
   * Files put into an archive and extracted into an empty file system:
   * the same names, with the same contents, and no others, for names
   * that differ and that stripping leaves alone. It succeeds just when
   * the files are there, the archive has room for them, and the new
   * device has a slot and sectors for each.
   */
  method Transfer(src: FileSystem, names: seq<Name>, scratch: Sectors, d: Sectors) returns (ok: bool, dst: FileSystem?)
    requires Idle(src) && Sized(scratch) && names != [] && (forall n :: n in names ==> Storable(n))
    requires forall i, j :: 0 <= i < j < |names| ==> names[i] != names[j]
    requires WellFormed(d) && |d| <= MAX_SECTORS && |d| > ROOT_DIR_SECTOR + SectorCount(ByteCnt(|d|)) + 1
    modifies src, src.freeMap.words, (set i | i in src.openInodes), src.handles
    ensures ok <==> Transferable(Listing(old(src.View())), names, |scratch|, |d|)
    ensures ok ==> dst != null && Idle(dst) && Listing(dst.View()) == map n | n in names :: Listing(old(src.View()))[n]
  {
    hide StateOk, Abs, Cap, Listing, Appending, AllAppendable, Strip, SectorCount, Stored, Entries, Members, Storable, Whole, FirstMarked, ByteCnt;
    dst := null;
    ghost var l := Listing(src.View());
    NamesGood(src);
    IdleView(src);
    ListingNames(src.View());
    var u := new Scratch(scratch);
    ok := AppendAll(src, u, names);
    if !ok { return; }
    AppendingAt(u.sectors, u.appendAt, l, names);
    RoomForMarker(l, names, |scratch|);
    MembersStored(u.sectors, u.appendAt, l, names);
    MembersFit(l, names, u.sectors, u.appendAt, |d|);
    ok, dst := ExtractNew(u, d);
  }

  /** Formatting a device and extracting an archive into it. */
  method ExtractNew(u: Scratch, d: Sectors) returns (ok: bool, dst: FileSystem)
    requires Sized(u.sectors) && WellFormed(d) && |d| <= MAX_SECTORS && |d| > ROOT_DIR_SECTOR + SectorCount(ByteCnt(|d|)) + 1
    modifies u`sectors, u`extractAt
    ensures ok <==>
      && |old(u.sectors)| >= 2
      && Whole(Capacity(FirstMarked(|d|, 3 + SectorCount(ByteCnt(|d|))), ROOT_ENTRIES), map[], Entries(old(u.sectors), old(u.extractAt)))
    ensures ok ==> Idle(dst) && Listing(dst.View()) == Stored(map[], Entries(old(u.sectors), old(u.extractAt)).value)
  {
    hide StateOk, Abs, Cap, Listing, SectorCount, Stored, Entries, Extractable, FirstMarked, ByteCnt;
    dst := new FileSystem.Format(d);
    NoListing(dst.View());
    ok := Extract(dst, u);
  }

  /** What Transfer needs. */
  ghost predicate Transferable(l: map<Name, seq<byte>>, names: seq<Name>, scratch: nat, device: nat) {
    && AllAppendable(l, names, scratch)
    && |names| <= ROOT_ENTRIES && End(3 + SectorCount(ByteCnt(device)), Members(l, names)) <= device
  }

  lemma MembersFit(l: map<Name, seq<byte>>, names: seq<Name>, dev: Sectors, at: nat, device: nat)
    requires Appending(dev, at, l, names) && forall n :: n in names ==> ValidName(n)
    requires forall i, j :: 0 <= i < j < |names| ==> names[i] != names[j]
    requires 3 + SectorCount(ByteCnt(device)) <= device
    ensures Whole(Capacity(FirstMarked(device, 3 + SectorCount(ByteCnt(device))), ROOT_ENTRIES), map[], Some(Members(l, names))) <==>
      |names| <= ROOT_ENTRIES && End(3 + SectorCount(ByteCnt(device)), Members(l, names)) <= device
  {
    hide SectorCount, Extractable, Archived, ByteCnt, ValidName, FirstMarked;
    var es := Members(l, names);
    forall i | 0 <= i < |es| ensures ValidName(es[i].name) && |es[i].data| + SECTOR_SIZE - 1 <= INT_MAX { assert names[i] in names; }
    var none: map<Name, seq<byte>> := map[];
    assert none.Keys == {};
    FitsFresh(device, 3 + SectorCount(ByteCnt(device)), ROOT_ENTRIES, {}, es);
  }
}
