/**
 * ustar archives on a block device: how files lie on it and what is read
 * back, and what reading them into a file system does to its names.
 */
module Archive {
  import opened Bytes
  import opened Options
  import opened Disk
  import opened Directory
  import opened Ustar
  import Spec = FsSpec

  datatype Member = Member(name: Name, data: seq<byte>)

  /** The bytes of the sectors from at on. */
  function ReadData(dev: Sectors, at: nat, size: nat): (c: seq<byte>)
    requires at + SectorCount(size) <= |dev| && forall s :: 0 <= s < |dev| ==> |dev[s]| == SECTOR_SIZE
    ensures |c| == size
  {
    seq<byte>(size, i requires 0 <= i < size => Byte(dev, at, size, i))
  }

  function Byte(dev: Sectors, at: nat, size: nat, i: nat): byte
    requires at + SectorCount(size) <= |dev| && (forall s :: 0 <= s < |dev| ==> |dev[s]| == SECTOR_SIZE) && i < size
  {
    ByteInExtent(Extent(at, size), i);
    dev[at + i / SECTOR_SIZE][i % SECTOR_SIZE]
  }

  /** Sector k of a file: its bytes, then zeros. */
  function DataSector(c: seq<byte>, k: nat): (s: seq<byte>)
    ensures |s| == SECTOR_SIZE
    ensures forall j :: 0 <= j < SECTOR_SIZE ==> s[j] == if SECTOR_SIZE * k + j < |c| then c[SECTOR_SIZE * k + j] else 0
  {
    seq<byte>(SECTOR_SIZE, j requires 0 <= j < SECTOR_SIZE => if SECTOR_SIZE * k + j < |c| then c[SECTOR_SIZE * k + j] else 0)
  }

  /** The file lies at a place on the device: header first. */
  ghost predicate Lies(dev: Sectors, at: nat, e: Member) {
    && |e.name| < 100 && at + 1 + SectorCount(|e.data|) <= |dev| && dev[at] == HeaderOf(e.name, true, |e.data|)
    && forall j :: 0 <= j < SectorCount(|e.data|) ==> LiesAt(dev, at, e.data, j)
  }

  ghost predicate LiesAt(dev: Sectors, at: nat, c: seq<byte>, j: nat)
    requires at + 1 + j < |dev|
  {
    dev[at + 1 + j] == DataSector(c, j)
  }

  function Behind(at: nat, e: Member): nat { at + 1 + SectorCount(|e.data|) }

  /** The files lie one behind the other, and a sector of zeros behind the last. */
  ghost predicate Archived(dev: Sectors, at: nat, es: seq<Member>)
    decreases |es|
  {
    if es == [] then at < |dev| && dev[at] == Zeros(SECTOR_SIZE)
    else Lies(dev, at, es[0]) && Archived(dev, Behind(at, es[0]), es[1..])
  }

  function End(at: nat, es: seq<Member>): (e: nat)
    ensures e >= at
    decreases |es|
  {
    if es == [] then at else End(Behind(at, es[0]), es[1..])
  }

  /** A file is added behind the last; what comes before stays as it is. */
  lemma {:induction false} ArchiveGrows(dev: Sectors, dev': Sectors, at: nat, es: seq<Member>, e: Member)
    requires Archived(dev, at, es) && |dev'| == |dev| && forall s :: at <= s < End(at, es) && s < |dev| ==> dev'[s] == dev[s]
    requires Lies(dev', End(at, es), e)
    requires Behind(End(at, es), e) < |dev'| && dev'[Behind(End(at, es), e)] == Zeros(SECTOR_SIZE)
    ensures Archived(dev', at, es + [e]) && End(at, es + [e]) == Behind(End(at, es), e)
    decreases |es|
  {
    hide HeaderOf;
    if es == [] {
      assert es + [e] == [e] && [e][1..] == [];
    } else {
      assert (es + [e])[1..] == es[1..] + [e];
      var next := Behind(at, es[0]);
      ArchiveGrows(dev, dev', next, es[1..], e);
      forall j | 0 <= j < SectorCount(|es[0].data|) ensures LiesAt(dev', at, es[0].data, j) { assert LiesAt(dev, at, es[0].data, j); }
    }
  }

  /** What lies on the device is what is read from it. */
  lemma LiesRead(dev: Sectors, at: nat, e: Member)
    requires Lies(dev, at, e) && forall s :: 0 <= s < |dev| ==> |dev[s]| == SECTOR_SIZE
    ensures ReadData(dev, at + 1, |e.data|) == e.data
  {
    hide HeaderOf;
    var c := ReadData(dev, at + 1, |e.data|);
    forall i | 0 <= i < |e.data| ensures c[i] == e.data[i] {
      var j := i / SECTOR_SIZE;
      ByteInExtent(Extent(at + 1, |e.data|), i);
      assert LiesAt(dev, at, e.data, j);
      assert SECTOR_SIZE * j + i % SECTOR_SIZE == i;
    }
  }

  /** The regular files of an archive; None when a header is bad or the device ends. Directories are passed over. */
  function Entries(dev: Sectors, at: nat): Option<seq<Member>>
    requires forall s :: 0 <= s < |dev| ==> |dev[s]| == SECTOR_SIZE
    decreases |dev| - at
  {
    if at >= |dev| then None
    else match ParseHeader(dev[at])
      case EndOfArchive => Some([])
      case Bad => None
      case Entry(name, regular, size) =>
        if !regular then Entries(dev, at + 1)
        else if at + 1 + SectorCount(size) > |dev| then None
        else match Entries(dev, at + 1 + SectorCount(size))
          case None => None
          case Some(rest) => Some([Member(name, ReadData(dev, at + 1, size))] + rest)
  }

  /** A name that an archive keeps: a C string that fits its field and does not lead elsewhere. */
  predicate Storable(name: Name) {
    && 0 !in name && 0 < |name| <= 99 && name != [DOT, DOT]
    && name[0] != SLASH && !([DOT, SLASH] <= name) && !([DOT, DOT, SLASH] <= name)
  }

  /** Reading an archive gives the files that were put there, in order. */
  lemma {:induction false} ArchiveRead(dev: Sectors, at: nat, es: seq<Member>)
    requires Archived(dev, at, es) && forall s :: 0 <= s < |dev| ==> |dev[s]| == SECTOR_SIZE
    requires forall i :: 0 <= i < |es| ==> Storable(es[i].name) && |es[i].data| <= INT_MAX
    ensures Entries(dev, at) == Some(es)
    decreases |es|
  {
    hide HeaderOf, Strip, ParseHeader, ReadData;
    if es == [] {
      EndRead(dev[at]);
    } else {
      var e := es[0];
      ArchiveRead(dev, Behind(at, e), es[1..]);
      StripKeeps(e.name);
      HeaderRoundTrip(e.name, true, |e.data|);
      LiesRead(dev, at, e);
      assert es == [e] + es[1..];
    }
  }

  lemma EndRead(h: seq<byte>)
    requires h == Zeros(SECTOR_SIZE)
    ensures ParseHeader(h) == EndOfArchive
  {}

  // --------------------------------------------------------------- into a file system

  /** The names of a file system and what is in the files. */
  ghost function Listing<H>(s: Spec.Fs<H>): map<Name, seq<byte>> {
    map n | n in s.names && s.names[n] in s.files :: s.files[s.names[n]]
  }

  ghost function Stored(m: map<Name, seq<byte>>, es: seq<Member>): map<Name, seq<byte>>
    decreases |es|
  {
    if es == [] then m else Stored(m[es[0].name := es[0].data], es[1..])
  }

  ghost function NamesOf(es: seq<Member>): set<Name> { set e | e in es :: e.name }

  /** With names that differ, exactly the files of the archive are added. */
  lemma {:induction false} StoredAll(m: map<Name, seq<byte>>, es: seq<Member>)
    requires forall i, j :: 0 <= i < j < |es| ==> es[i].name != es[j].name
    ensures var m' := Stored(m, es);
      && m'.Keys == m.Keys + NamesOf(es)
      && (forall e :: e in es ==> m'[e.name] == e.data)
      && (forall n :: n in m && n !in NamesOf(es) ==> m'[n] == m[n])
    decreases |es|
  {
    if es != [] {
      var m1 := m[es[0].name := es[0].data];
      StoredAll(m1, es[1..]);
      assert es == [es[0]] + es[1..];
      assert NamesOf(es) == {es[0].name} + NamesOf(es[1..]);
      assert es[0].name !in NamesOf(es[1..]);
    }
  }

  /** The state of the file system while a new file is being written through its one handle. */
  ghost predicate Writing<H>(s0: Spec.Fs<H>, s: Spec.Fs<H>, name: Name, h: H, id: nat, size: nat, done: seq<byte>) {
    && |done| <= size && id !in s0.files && name !in s0.names
    && s == Spec.Fs(s0.names[name := id], s0.files[id := done + Zeros(size - |done|)], map[h := Spec.Handle(id, |done|, false)])
  }

  lemma Opened<H>(s0: Spec.Fs<H>, s1: Spec.Fs<H>, s2: Spec.Fs<H>, name: Name, size: nat, h: H) returns (id: nat)
    requires s0.handles == map[] && Spec.Step(s0, Spec.Create(name, size), Spec.Status(true), s1)
    requires Spec.Step(s1, Spec.Open(name), Spec.Opened(h), s2)
    ensures Writing(s0, s2, name, h, id, size, [])
  {
    id :| id !in s0.files && s1 == Spec.Created(s0, name, id, size);
    assert [] + Zeros(size) == Zeros(size);
  }

  lemma WroteChunk<H>(s0: Spec.Fs<H>, s: Spec.Fs<H>, s': Spec.Fs<H>, name: Name, h: H, id: nat, size: nat, done: seq<byte>, data: seq<byte>, n: nat)
    requires Writing(s0, s, name, h, id, size, done) && |done| + |data| <= size && data != []
    requires Spec.Step(s, Spec.Write(h, data), Spec.Count(n), s')
    ensures n == |data| && Writing(s0, s', name, h, id, size, done + data)
  {
    assert !Spec.Denied(s, id);
    var c := done + Zeros(size - |done|);
    assert Spec.Stored(s, id, |done|, data) == data;
    assert Overwrite(c, |done|, data) == done + data + Zeros(size - |done| - |data|);
  }

  lemma ClosedFile<H>(s0: Spec.Fs<H>, s: Spec.Fs<H>, s': Spec.Fs<H>, name: Name, h: H, id: nat, data: seq<byte>)
    requires Spec.Valid(s0) && s0.handles == map[] && Writing(s0, s, name, h, id, |data|, data)
    requires Spec.Step(s, Spec.Close(h), Spec.Void, s')
    ensures s'.handles == map[] && Listing(s') == Listing(s0)[name := data]
  {
    assert data + Zeros(0) == data;
    var c := s.(handles := s.handles - {h});
    assert c.handles == map[];
    forall n | n in c.names ensures Spec.Linked(c, c.names[n]) {}
    forall n | n in s0.names ensures s0.names[n] in s0.files { assert Spec.Linked(s0, s0.names[n]); }
  }

  /** One file is open, at some position. */
  ghost predicate Reading<H>(s0: Spec.Fs<H>, s: Spec.Fs<H>, h: H, id: nat, pos: nat) {
    s == Spec.Fs(s0.names, s0.files, map[h := Spec.Handle(id, pos, false)])
  }

  /** Reading a file through one handle leaves the file system as it was. */
  lemma ClosedAgain<H>(s0: Spec.Fs<H>, s: Spec.Fs<H>, s': Spec.Fs<H>, h: H, id: nat, pos: nat)
    requires Spec.Valid(s0) && s0.handles == map[] && Reading(s0, s, h, id, pos)
    requires Spec.Step(s, Spec.Close(h), Spec.Void, s')
    ensures s' == s0
  {
    var c := s.(handles := s.handles - {h});
    assert c == s0;
    forall id | id in s0.files ensures Spec.Linked(s0, id) { assert !Spec.IsOpen(s0, id); }
  }

  /** The next sector of a file that is open. */
  lemma ReadChunk<H>(s0: Spec.Fs<H>, s: Spec.Fs<H>, s': Spec.Fs<H>, h: H, id: nat, k: nat, n: nat, r: Spec.Result<H>)
    requires id in s0.files && Reading(s0, s, h, id, SECTOR_SIZE * k)
    requires 0 < n <= SECTOR_SIZE && SECTOR_SIZE * k + n <= |s0.files[id]| && (n < SECTOR_SIZE ==> SECTOR_SIZE * k + n == |s0.files[id]|)
    requires Spec.Step(s, Spec.Read(h, n), r, s')
    ensures r.Bytes? && |r.bytes| == n && r.bytes + Zeros(SECTOR_SIZE - n) == DataSector(s0.files[id], k)
    ensures Reading(s0, s', h, id, SECTOR_SIZE * k + n)
  {}
}
