/** Loading an executable into a process (userprog/process.c). */
module Loader {
  import opened Bytes
  import opened Words
  import opened Palloc
  import opened Paging
  import opened PageTables
  import opened Process
  import opened Elf

  /** What file_read delivers at a position. */
  function Readable(data: seq<byte>, pos: nat, n: nat): nat {
    if pos >= |data| then 0 else Min(n, |data| - pos)
  }

  /** One page of load_segment: a frame, filled from the file and with zeros, installed at upage. */
  method LoadPage(p: Proc, data: seq<byte>, pos: nat, upage: nat, pageReadBytes: nat, writable: bool) returns (ok: bool)
    requires p.Settled() && upage < PHYS_BASE && upage % PAGE_SIZE == 0 && pageReadBytes <= PAGE_SIZE
    modifies p`tables, p`frames, p`loose, p.palloc.kernel.used.words, p.palloc.user.used.words
    ensures p.Valid() && p.loose == {}
    ensures !ok ==> p.Mem() == old(p.Mem())
    ensures ok <==>
      && Readable(data, pos, pageReadBytes) == pageReadBytes && upage / PAGE_SIZE !in old(p.Mem())
      && p.FitsIn(old(p.Mem()).Keys + {upage / PAGE_SIZE})
    ensures ok ==> p.Settled()
    ensures ok ==> p.Mem() == old(p.Mem())[upage / PAGE_SIZE := Page(FilledPage(data, pos, pageReadBytes), writable)]
  {
    hide ImageOk, Memory, View, DirsOk, SpaceOk, Dirs, FilledPage, KernelPage, Fits, Tight;
    ghost var m, n := p.Snap(), upage / PAGE_SIZE;
    RoomLeft(p, n);
    var kpage := TakeFrame(p, FilledPage(data, pos, pageReadBytes));
    if kpage == 0 { return false; }
    if Readable(data, pos, pageReadBytes) != pageReadBytes {
      ReturnFrame(p, kpage);
      return false;
    }
    ok := p.InstallPage(upage, kpage, writable);
    if ok {
      HasDirs(p.Snap());
      StaysTight(m, p.Snap(), n, Page(FilledPage(data, pos, pageReadBytes), writable));
    } else {
      ReturnFrame(p, kpage);
    }
  }

  lemma StaysTight(m: Image, m': Image, n: nat, page: Page)
    requires ImageOk(m) && ImageOk(m') && Tight(m) && Memory(m') == Memory(m)[n := page]
    requires Shaped(m.space) && Shaped(m'.space) && Dirs(m'.space) == Dirs(m.space) + {n / ENTRIES}
    ensures Tight(m')
  {
    hide ImageOk, Memory, Dirs;
    DirsMore(Memory(m).Keys, n);
    assert Memory(m').Keys == Memory(m).Keys + {n};
  }

  /** A page of the user pool, with what is read into it. */
  method TakeFrame(p: Proc, bytes: seq<byte>) returns (kpage: nat)
    requires p.Valid() && p.loose == {} && |bytes| == PAGE_SIZE
    modifies p`frames, p`loose, p.palloc.kernel.used.words, p.palloc.user.used.words
    ensures p.Valid() && p.Mem() == old(p.Mem()) && p.Snap().space == old(p.Snap().space) && p.palloc.KernelUsed() == old(p.palloc.KernelUsed())
    ensures kpage != 0 <==> old(|p.palloc.UserUsed()|) < p.palloc.user.used.bitCnt
    ensures kpage == 0 ==> p.loose == {}
    ensures kpage != 0 ==> p.loose == {kpage} && KernelPage(kpage) && kpage in p.frames && p.frames[kpage] == bytes
  {
    hide ImageOk, Memory, View, DirsOk, SpaceOk;
    ghost var m := p.Snap();
    kpage := p.palloc.GetPage(true);
    if kpage == 0 {
      assert p.Snap() == m;
      return;
    }
    p.frames := p.frames[kpage := bytes];
    p.loose := p.loose + {kpage};
    FrameTaken(m, p.Snap(), kpage, bytes);
  }

  method ReturnFrame(p: Proc, kpage: nat)
    requires p.Valid() && p.loose == {kpage}
    modifies p`frames, p`loose, p.palloc.kernel.used.words, p.palloc.user.used.words
    ensures p.Valid() && p.Mem() == old(p.Mem()) && p.loose == {}
  {
    hide Memory, View, DirsOk, SpaceOk, FramesOf;
    ghost var m := p.Snap();
    p.palloc.FreePage(kpage);
    p.frames := p.frames - {kpage};
    p.loose := p.loose - {kpage};
    FrameReturned(m, p.Snap(), kpage);
  }

  lemma RoomLeft(p: Proc, n: nat)
    requires p.Settled()
    ensures Shaped(p.Snap().space)
    ensures n !in p.Mem() ==>
      (p.FitsIn(p.Mem().Keys + {n}) <==>
        && |p.palloc.UserUsed()| < p.palloc.user.used.bitCnt
        && (n / ENTRIES in Dirs(p.Snap().space) || |p.palloc.KernelUsed()| < p.palloc.kernel.used.bitCnt))
  {
    hide ImageOk, Memory, View, SpaceOk, Dirs, Fits, Tight;
    HasDirs(p.Snap());
    UsedWithin(p.palloc);
    if n !in p.Mem() { RoomForOne(p.Snap(), p.palloc.kernel.used.bitCnt, p.palloc.user.used.bitCnt, n); }
  }

  function FilledPage(data: seq<byte>, pos: nat, n: nat): (page: seq<byte>)
    requires n <= PAGE_SIZE
    ensures |page| == PAGE_SIZE
    ensures forall i :: 0 <= i < PAGE_SIZE ==> page[i] == if i < n && pos + i < |data| then data[pos + i] else 0
  {
    seq<byte>(PAGE_SIZE, i requires 0 <= i < PAGE_SIZE => if i < n && pos + i < |data| then data[pos + i] else 0)
  }

  /** The page that step j of load_segment fills is page j of the segment. */
  lemma StepPage(data: seq<byte>, ofs: nat, readBytes: nat, j: nat, pos: nat, n: nat)
    requires n == (if readBytes <= PAGE_SIZE * j then 0 else Min(readBytes - PAGE_SIZE * j, PAGE_SIZE))
    requires n > 0 ==> pos == ofs + PAGE_SIZE * j
    ensures FilledPage(data, pos, n) == SegmentPage(data, ofs, readBytes, j)
  {}

  lemma SettledFits(p: Proc)
    requires p.Settled()
    ensures p.FitsIn(p.Mem().Keys)
  {
    hide ImageOk, Memory, View, SpaceOk, Dirs, Fits, Tight;
    UsedWithin(p.palloc);
    TakenFits(p.Snap(), p.palloc.kernel.used.bitCnt, p.palloc.user.used.bitCnt);
  }

  /** How much of a segment has been loaded. */
  ghost predicate Loading(mem0: map<nat, Page>, mem: map<nat, Page>, n0: nat, cnt: nat, data: seq<byte>, ofs: nat, readBytes: nat, writable: bool) {
    && Grew(mem0, mem) && SegmentIn(mem, n0, cnt, data, ofs, readBytes, writable)
    && mem.Keys == mem0.Keys + Span(n0, cnt) && mem0.Keys !! Span(n0, cnt)
    && (Min(readBytes, PAGE_SIZE * cnt) > 0 ==> ofs + Min(readBytes, PAGE_SIZE * cnt) <= |data|)
  }

  /** The bytes that step j of load_segment reads. */
  predicate IsStep(ofs: nat, readBytes: nat, j: nat, pos: nat, n: nat) {
    && n == (if readBytes <= PAGE_SIZE * j then 0 else Min(readBytes - PAGE_SIZE * j, PAGE_SIZE))
    && (n > 0 ==> pos == ofs + PAGE_SIZE * j)
  }

  lemma LoadingStep(mem0: map<nat, Page>, mem: map<nat, Page>, n0: nat, j: nat, data: seq<byte>, ofs: nat, readBytes: nat, pos: nat, n: nat, writable: bool)
    requires Loading(mem0, mem, n0, j, data, ofs, readBytes, writable) && n0 + j !in mem
    requires IsStep(ofs, readBytes, j, pos, n) && Readable(data, pos, n) == n
    ensures Loading(mem0, mem[n0 + j := Page(FilledPage(data, pos, n), writable)], n0, j + 1, data, ofs, readBytes, writable)
  {
    StepPage(data, ofs, readBytes, j, pos, n);
    var mem' := mem[n0 + j := Page(FilledPage(data, pos, n), writable)];
    hide FilledPage, SegmentPage;
    assert mem'.Keys == mem.Keys + {n0 + j} && Span(n0, j + 1) == Span(n0, j) + {n0 + j};
    forall i | 0 <= i < j + 1 ensures Elf.PageIn(mem', n0, i, data, ofs, readBytes, writable) {
      if i < j { assert Elf.PageIn(mem, n0, i, data, ofs, readBytes, writable); }
    }
  }

  /** What a segment needs: its bytes in the file, its pages not in use, and room for them. */
  ghost predicate Whole(kernelRoom: int, userRoom: int, pages: set<nat>, n0: nat, cnt: nat, data: seq<byte>, ofs: nat, readBytes: nat) {
    (readBytes > 0 ==> ofs + readBytes <= |data|) && pages !! Span(n0, cnt) && Fits(kernelRoom, userRoom, pages + Span(n0, cnt))
  }

  /** Then each of its pages can be loaded. */
  lemma StepWorks(kernelRoom: int, userRoom: int, mem0: map<nat, Page>, mem: map<nat, Page>, n0: nat, j: nat, cnt: nat, data: seq<byte>, ofs: nat, readBytes: nat, pos: nat, n: nat, writable: bool)
    requires Loading(mem0, mem, n0, j, data, ofs, readBytes, writable) && j < cnt && IsStep(ofs, readBytes, j, pos, n)
    ensures Whole(kernelRoom, userRoom, mem0.Keys, n0, cnt, data, ofs, readBytes) ==>
      Readable(data, pos, n) == n && n0 + j !in mem && Fits(kernelRoom, userRoom, mem.Keys + {n0 + j})
  {
    hide Grew, SegmentIn, Fits, Span;
    StepReads(data, ofs, readBytes, j, pos, n);
    if Whole(kernelRoom, userRoom, mem0.Keys, n0, cnt, data, ofs, readBytes) {
      OneOfSpan(mem0.Keys, n0, j, cnt);
      FitsLess(kernelRoom, userRoom, mem.Keys + {n0 + j}, mem0.Keys + Span(n0, cnt));
    }
  }

  lemma StepReads(data: seq<byte>, ofs: nat, readBytes: nat, j: nat, pos: nat, n: nat)
    requires IsStep(ofs, readBytes, j, pos, n)
    ensures (readBytes > 0 ==> ofs + readBytes <= |data|) ==> Readable(data, pos, n) == n
  {}

  lemma OneOfSpan(pages: set<nat>, n0: nat, j: nat, cnt: nat)
    requires j < cnt
    ensures pages + Span(n0, j) + {n0 + j} <= pages + Span(n0, cnt)
    ensures pages !! Span(n0, cnt) ==> n0 + j !in pages + Span(n0, j)
  {
    var a, b := Span(n0, j), Span(n0, cnt);
    assert n0 + j in b && n0 + j !in a && a <= b;
    hide Span;
  }

  /** load_segment: all its pages, or a failure that leaves what was there. */
  method LoadSegment(p: Proc, data: seq<byte>, ofs: nat, upage: nat, readBytes: nat, zeroBytes: nat, writable: bool) returns (ok: bool)
    requires p.Settled() && (readBytes + zeroBytes) % PAGE_SIZE == 0 && upage % PAGE_SIZE == 0
    requires upage + readBytes + zeroBytes <= PHYS_BASE
    modifies p`tables, p`frames, p`loose, p.palloc.kernel.used.words, p.palloc.user.used.words
    ensures p.Valid() && p.loose == {} && Grew(old(p.Mem()), p.Mem())
    ensures ok <==> Whole(p.KernelRoom(), p.UserRoom(), old(p.Mem()).Keys, upage / PAGE_SIZE, (readBytes + zeroBytes) / PAGE_SIZE, data, ofs, readBytes)
    ensures ok ==>
      && p.Settled() && SegmentIn(p.Mem(), upage / PAGE_SIZE, (readBytes + zeroBytes) / PAGE_SIZE, data, ofs, readBytes, writable)
      && p.Mem().Keys == old(p.Mem()).Keys + Span(upage / PAGE_SIZE, (readBytes + zeroBytes) / PAGE_SIZE)
  {
    hide Proc.Valid, Proc.Mem, Loading, FilledPage, Whole, Fits, Tight, Readable, ImageOk;
    ghost var mem0, total, n0 := p.Mem(), readBytes + zeroBytes, upage / PAGE_SIZE;
    ghost var j := 0;
    var r: nat, z: nat, up: nat, pos: nat := readBytes, zeroBytes, upage, ofs;
    LoadingStart(mem0, n0, data, ofs, readBytes, writable);
    while r > 0 || z > 0
      invariant p.Settled() && Loading(mem0, p.Mem(), n0, j, data, ofs, readBytes, writable)
      invariant r + z == total - PAGE_SIZE * j && up == upage + PAGE_SIZE * j
      invariant r == if readBytes <= PAGE_SIZE * j then 0 else readBytes - PAGE_SIZE * j
      invariant r > 0 ==> pos == ofs + PAGE_SIZE * j
      decreases r + z
    {
      var pageReadBytes := if r < PAGE_SIZE then r else PAGE_SIZE;
      var pageZeroBytes := PAGE_SIZE - pageReadBytes;
      ghost var mem := p.Mem();
      StepWorks(p.KernelRoom(), p.UserRoom(), mem0, mem, n0, j, total / PAGE_SIZE, data, ofs, readBytes, pos, pageReadBytes, writable);
      var done := LoadPage(p, data, pos, up, pageReadBytes, writable);
      if !done {
        LoadingMeans(mem0, mem, n0, j, data, ofs, readBytes, writable);
        return false;
      }
      LoadingStep(mem0, mem, n0, j, data, ofs, readBytes, pos, pageReadBytes, writable);
      j := j + 1;
      r, z, up, pos := r - pageReadBytes, z - pageZeroBytes, up + PAGE_SIZE, pos + pageReadBytes;
    }
    LoadingMeans(mem0, p.Mem(), n0, j, data, ofs, readBytes, writable);
    SettledFits(p);
    LoadingDone(p.KernelRoom(), p.UserRoom(), mem0, p.Mem(), n0, j, data, ofs, readBytes, writable);
    ok := true;
  }

  lemma LoadingStart(mem: map<nat, Page>, n0: nat, data: seq<byte>, ofs: nat, readBytes: nat, writable: bool)
    ensures Loading(mem, mem, n0, 0, data, ofs, readBytes, writable)
  {}

  lemma LoadingMeans(mem0: map<nat, Page>, mem: map<nat, Page>, n0: nat, j: nat, data: seq<byte>, ofs: nat, readBytes: nat, writable: bool)
    requires Loading(mem0, mem, n0, j, data, ofs, readBytes, writable)
    ensures Grew(mem0, mem) && SegmentIn(mem, n0, j, data, ofs, readBytes, writable) && mem.Keys == mem0.Keys + Span(n0, j)
  {}

  lemma LoadingDone(kernelRoom: int, userRoom: int, mem0: map<nat, Page>, mem: map<nat, Page>, n0: nat, cnt: nat, data: seq<byte>, ofs: nat, readBytes: nat, writable: bool)
    requires Loading(mem0, mem, n0, cnt, data, ofs, readBytes, writable) && Fits(kernelRoom, userRoom, mem.Keys) && readBytes <= PAGE_SIZE * cnt
    ensures Whole(kernelRoom, userRoom, mem0.Keys, n0, cnt, data, ofs, readBytes)
  {
    hide Grew, SegmentIn, Fits;
  }

  /** setup_stack: a page of zeros below PHYS_BASE. */
  method SetupStack(p: Proc) returns (ok: bool)
    requires p.Settled()
    modifies p`tables, p`frames, p`loose, p.palloc.kernel.used.words, p.palloc.user.used.words
    ensures p.Valid() && p.loose == {} && Grew(old(p.Mem()), p.Mem())
    ensures ok <==> USER_PAGES - 1 !in old(p.Mem()) && p.FitsIn(old(p.Mem()).Keys + {USER_PAGES - 1})
    ensures ok ==> p.Mem() == old(p.Mem())[USER_PAGES - 1 := Page(SegmentPage([], 0, 0, 0), true)]
  {
    hide Proc.Valid, Proc.Mem, Proc.Settled, Proc.FitsIn, FilledPage, SegmentPage;
    ok := LoadPage(p, [], 0, PHYS_BASE - PAGE_SIZE, 0, true);
    StepPage([], 0, 0, 0, 0, 0);
  }

  /** The pages that a header asks for. */
  ghost function SegmentPages(h: Phdr): set<nat> {
    if h.kind == PT_LOAD then Span(h.vaddr / PAGE_SIZE, SegmentSize(h) / PAGE_SIZE) else {}
  }

  /** A header that load accepts, its segment wholly in the file. */
  predicate HeaderOk(data: seq<byte>, h: Phdr) {
    && h.kind !in {PT_DYNAMIC, PT_INTERP, PT_SHLIB}
    && (h.kind == PT_LOAD ==> ValidSegment(h, |data|) && h.offset + h.filesz <= |data|)
  }

  /** One program header: the body of the loop in load. */
  method LoadHeader(p: Proc, data: seq<byte>, h: Phdr) returns (ok: bool)
    requires p.Settled() && Words32(h)
    modifies p`tables, p`frames, p`loose, p.palloc.kernel.used.words, p.palloc.user.used.words
    ensures p.Valid() && p.loose == {} && Grew(old(p.Mem()), p.Mem())
    ensures ok <==> HeaderOk(data, h) && old(p.Mem()).Keys !! SegmentPages(h) && p.FitsIn(old(p.Mem()).Keys + SegmentPages(h))
    ensures ok ==> p.Settled() && Honoured(p.Mem(), data, h) && p.Mem().Keys == old(p.Mem()).Keys + SegmentPages(h)
  {
    hide Proc.Valid, Proc.Mem, Tight, Loaded, SegmentIn, ValidSegment, And, SegmentSize, ReadBytes, RoundUp32, Words32, MayWrite, Fits, Span;
    if h.kind == PT_DYNAMIC || h.kind == PT_INTERP || h.kind == PT_SHLIB { return false; }
    if h.kind != PT_LOAD {
      SettledFits(p);
      assert p.Mem().Keys + SegmentPages(h) == p.Mem().Keys;
      return true;
    }
    if !ValidSegment(h, |data|) { return false; }
    HeaderNumbers(h, |data|);
    var writable := And(h.flags, PF_W) != 0;
    var filePage, memPage, pageOffset := And(h.offset, PTE_ADDR), And(h.vaddr, PTE_ADDR), And(h.vaddr, PGMASK);
    var readBytes, zeroBytes := 0, RoundUp32((pageOffset + h.memsz) % TWO32);
    if h.filesz > 0 {
      readBytes := (pageOffset + h.filesz) % TWO32;
      zeroBytes := zeroBytes - readBytes;
    }
    SomeRead(h);
    InFile(h, data);
    ok := LoadSegment(p, data, filePage, memPage, readBytes, zeroBytes, writable);
    if ok { PagesAreSegment(p.Mem(), data, h); }
  }

  /** The bytes that load reads are in the file just when the segment's are. */
  lemma InFile(h: Phdr, data: seq<byte>)
    requires Words32(h) && ValidSegment(h, |data|)
    ensures (ReadBytes(h) > 0 ==> h.offset - h.offset % PAGE_SIZE + ReadBytes(h) <= |data|) <==> h.offset + h.filesz <= |data|
  {
    ValidSegmentMeans(h, |data|);
    hide ValidSegment;
  }

  /** ROUND_UP to a page, in 32 bits. */
  function RoundUp32(x: nat): nat { (x + PAGE_SIZE - 1) % TWO32 / PAGE_SIZE * PAGE_SIZE }

  lemma HeaderNumbers(h: Phdr, length: nat)
    requires Words32(h) && ValidSegment(h, length)
    ensures (And(h.flags, PF_W) != 0) == MayWrite(h)
    ensures And(h.offset, PTE_ADDR) == h.offset - h.offset % PAGE_SIZE
    ensures And(h.vaddr, PTE_ADDR) == h.vaddr - h.vaddr % PAGE_SIZE && And(h.vaddr, PGMASK) == h.vaddr % PAGE_SIZE
    ensures var po := h.vaddr % PAGE_SIZE;
      && RoundUp32((po + h.memsz) % TWO32) == SegmentSize(h) && (h.filesz > 0 ==> (po + h.filesz) % TWO32 == ReadBytes(h))
      && ReadBytes(h) <= SegmentSize(h) && SegmentSize(h) % PAGE_SIZE == 0 && h.vaddr - po + SegmentSize(h) <= PHYS_BASE
  {
    hide And, ValidSegment, SegmentSize, ReadBytes;
    NoWrap(h, length);
    SizesAre(h, length);
    FlagBits(h.flags);
    AddrBits(h.offset);
    AddrBits(h.vaddr);
    PgOfsIs(h.vaddr);
  }

  lemma SomeRead(h: Phdr)
    ensures ReadBytes(h) == 0 <==> h.filesz == 0
  {}

  lemma SizesAre(h: Phdr, length: nat)
    requires Words32(h) && ValidSegment(h, length)
    ensures var po := h.vaddr % PAGE_SIZE;
      RoundUp32((po + h.memsz) % TWO32) == SegmentSize(h) && (h.filesz > 0 ==> (po + h.filesz) % TWO32 == ReadBytes(h))
  {
    hide ValidSegment, Words32;
    ValidSegmentMeans(h, length);
    NoWrap(h, length);
    var x := h.vaddr % PAGE_SIZE + h.memsz;
    assert x % TWO32 == x && (x + PAGE_SIZE - 1) % TWO32 == x + PAGE_SIZE - 1;
  }

  /** A file offset is a signed 32-bit number. */
  function Offset32(x: nat): int { if x < TWO32 / 2 then x else x - TWO32 }

  /** Reading one program header, at a file offset. */
  method ReadHeader(data: seq<byte>, fileOfs: int) returns (ok: bool, h: Phdr)
    ensures ok ==> 0 <= fileOfs && fileOfs + PHDR_SIZE <= |data| && h == PhdrAt(data, fileOfs)
    ensures !ok ==> fileOfs < 0 || fileOfs + PHDR_SIZE > |data|
  {
    if fileOfs < 0 || fileOfs > |data| { return false, Phdr(0, 0, 0, 0, 0, 0); }
    if Readable(data, fileOfs, PHDR_SIZE) != PHDR_SIZE { return false, Phdr(0, 0, 0, 0, 0, 0); }
    return true, PhdrAt(data, fileOfs);
  }

  /** The pages that the first headers ask for. */
  ghost function PagesUpTo(data: seq<byte>, i: nat): set<nat>
    requires |data| >= EHDR_SIZE
  {
    if i == 0 then {} else PagesUpTo(data, i - 1) + if HeaderIn(data, i - 1) then SegmentPages(Header(data, i - 1)) else {}
  }

  /** The first headers are in the file, accepted, and their pages do not overlap. */
  ghost predicate Acceptable(data: seq<byte>, i: nat)
    requires |data| >= EHDR_SIZE
  {
    i == 0 ||
    (&& Acceptable(data, i - 1) && PhOff(data) < TWO32 / 2 && HeaderIn(data, i - 1)
     && HeaderOk(data, Header(data, i - 1)) && PagesUpTo(data, i - 1) !! SegmentPages(Header(data, i - 1)))
  }

  lemma {:induction false} UpToLess(data: seq<byte>, i: nat, n: nat)
    requires |data| >= EHDR_SIZE && i <= n
    ensures PagesUpTo(data, i) <= PagesUpTo(data, n) && (Acceptable(data, n) ==> Acceptable(data, i))
  {
    if i < n { UpToLess(data, i, n - 1); }
  }

  lemma FitsUpTo(p: Proc, data: seq<byte>, i: nat, n: nat)
    requires |data| >= EHDR_SIZE && i <= n
    ensures Acceptable(data, n) && p.FitsIn(PagesUpTo(data, n)) ==> Acceptable(data, i) && p.FitsIn(PagesUpTo(data, i))
  {
    hide Acceptable, PagesUpTo, Fits;
    UpToLess(data, i, n);
    if p.FitsIn(PagesUpTo(data, n)) { FitsLess(p.KernelRoom(), p.UserRoom(), PagesUpTo(data, i), PagesUpTo(data, n)); }
  }

  /** One more header. */
  lemma OneHeader(data: seq<byte>, i: nat)
    requires |data| >= EHDR_SIZE && Acceptable(data, i)
    ensures Acceptable(data, i + 1) <==>
      && PhOff(data) < TWO32 / 2 && HeaderIn(data, i)
      && HeaderOk(data, Header(data, i)) && PagesUpTo(data, i) !! SegmentPages(Header(data, i))
    ensures HeaderIn(data, i) ==> PagesUpTo(data, i + 1) == PagesUpTo(data, i) + SegmentPages(Header(data, i))
  {
    hide HeaderIn, HeaderOk, Header;
  }

  /** The loop over the program headers. */
  method LoadHeaders(p: Proc, data: seq<byte>) returns (ok: bool)
    requires p.Settled() && EhdrOk(data) && p.Mem() == map[]
    modifies p`tables, p`frames, p`loose, p.palloc.kernel.used.words, p.palloc.user.used.words
    ensures p.Valid() && p.loose == {}
    ensures ok <==> Acceptable(data, PhNum(data)) && p.FitsIn(PagesUpTo(data, PhNum(data)))
    ensures ok ==> p.Settled() && HeadersDone(p.Mem(), data, PhNum(data)) && p.Mem().Keys == PagesUpTo(data, PhNum(data))
  {
    hide Proc.Valid, Proc.Mem, Tight, EhdrOk, HeadersDone, OfSegment, Honoured, HeaderOk, SegmentPages, Header, HeaderIn, PhdrAt, PhOff, PhNum, Offset32, Words32, Acceptable, PagesUpTo, Fits;
    HeaderSize(data);
    var fileOfs := Offset32(PhOff(data));
    NoHeaders(data);
    SettledFits(p);
    for i := 0 to PhNum(data)
      invariant p.Settled() && HeadersDone(p.Mem(), data, i)
      invariant p.Mem().Keys == PagesUpTo(data, i) && Acceptable(data, i) && p.FitsIn(PagesUpTo(data, i))
      invariant fileOfs == Offset32(PhOff(data)) + PHDR_SIZE * i && (i > 0 ==> Offset32(PhOff(data)) == PhOff(data))
    {
      ghost var mem := p.Mem();
      OneHeader(data, i);
      FitsUpTo(p, data, i + 1, PhNum(data));
      HeaderPlace(data, i);
      var read, h := ReadHeader(data, fileOfs);
      if !read { return false; }
      AtHeader(data, i, fileOfs, h);
      fileOfs := fileOfs + PHDR_SIZE;
      var done := LoadHeader(p, data, h);
      if !done { return false; }
      OnlySegment(mem, p.Mem(), h);
      HeaderStep(mem, p.Mem(), data, i);
    }
    ok := true;
  }

  lemma OnlySegment(mem: map<nat, Page>, mem': map<nat, Page>, h: Phdr)
    requires mem'.Keys == mem.Keys + SegmentPages(h)
    ensures forall n :: n in mem' ==> n in mem || OfSegment(h, n)
  {}

  lemma HeaderPlace(data: seq<byte>, i: nat)
    requires |data| >= EHDR_SIZE && (i > 0 ==> Offset32(PhOff(data)) == PhOff(data))
    ensures PhOff(data) < TWO32 / 2 && HeaderIn(data, i) <==>
      var o := Offset32(PhOff(data)) + PHDR_SIZE * i; 0 <= o && o + PHDR_SIZE <= |data|
  {}

  lemma AtHeader(data: seq<byte>, i: nat, fileOfs: nat, h: Phdr)
    requires |data| >= EHDR_SIZE && fileOfs + PHDR_SIZE <= |data| && h == PhdrAt(data, fileOfs)
    requires fileOfs == Offset32(PhOff(data)) + PHDR_SIZE * i && (i > 0 ==> Offset32(PhOff(data)) == PhOff(data))
    ensures Offset32(PhOff(data)) == PhOff(data) && HeaderIn(data, i) && h == Header(data, i)
  {}

  lemma NoHeaders(data: seq<byte>)
    requires |data| >= EHDR_SIZE
    ensures HeadersDone(map[], data, 0) && PagesUpTo(data, 0) == {} && Acceptable(data, 0)
  {}

  /** What filesys_open finds. */
  datatype Executable = Missing | File(data: seq<byte>)

  /** All that load asks for, of the file and of the pools. */
  ghost predicate Loadable(p: Proc, file: Executable)
    reads p`kernelOthers, p`userOthers
  {
    && file.File? && EhdrOk(file.data) && Acceptable(file.data, PhNum(file.data))
    && USER_PAGES - 1 !in PagesUpTo(file.data, PhNum(file.data))
    && p.FitsIn(PagesUpTo(file.data, PhNum(file.data)) + {USER_PAGES - 1})
  }

  /** load. A failure may leave a part of the executable in memory. */
  method Load(p: Proc, file: Executable) returns (success: bool, eip: nat, esp: nat)
    requires p.Bare()
    modifies p`pd, p`tables, p`frames, p`loose, p.palloc.kernel.used.words, p.palloc.user.used.words
    ensures p.loose == {} && (p.Valid() || p.Bare())
    ensures success <==> Loadable(p, file)
    ensures success ==>
      && p.Valid() && Started(p.Mem(), file.data, PHYS_BASE - PAGE_SIZE)
      && eip == Entry(file.data) && esp == PHYS_BASE
  {
    hide Proc.Valid, Proc.Mem, EhdrOk, HeadersDone, Started, SegmentPage, Word32, Half, Acceptable, PagesUpTo, Fits;
    success, eip, esp := false, 0, 0;
    NoRoom(p, file);
    var created := p.PagedirCreate();
    if !created { return; }
    if file.Missing? { return; }
    if !EhdrOk(file.data) { return; }
    HeaderSize(file.data);
    LessStack(p, PagesUpTo(file.data, PhNum(file.data)));
    var done := LoadHeaders(p, file.data);
    if !done { return; }
    ghost var mem := p.Mem();
    done := SetupStack(p);
    if !done { return; }
    StackAdded(mem, p.Mem(), file.data, USER_PAGES - 1);
    return true, Entry(file.data), PHYS_BASE;
  }

  /** Not even the directory fits. */
  lemma NoRoom(p: Proc, file: Executable)
    requires p.Bare()
    ensures Loadable(p, file) ==> |p.palloc.KernelUsed()| < p.palloc.kernel.used.bitCnt
  {
    hide Acceptable, PagesUpTo, EhdrOk;
  }

  lemma LessStack(p: Proc, pages: set<nat>)
    ensures p.FitsIn(pages + {USER_PAGES - 1}) ==> p.FitsIn(pages)
  {
    if p.FitsIn(pages + {USER_PAGES - 1}) { FitsLess(p.KernelRoom(), p.UserRoom(), pages, pages + {USER_PAGES - 1}); }
  }

  lemma HeaderSize(data: seq<byte>)
    requires EhdrOk(data)
    ensures |data| >= EHDR_SIZE
  {}

  /**
   * A process that is loaded, exactly when it can be, and then exits:
   * m is what it was in between. Whatever the load did, every page that
   * it took comes back.
   */
  method LoadThenExit(p: Proc, file: Executable) returns (success: bool, eip: nat, esp: nat, ghost m: Image)
    requires p.Bare()
    modifies p`pd, p`tables, p`frames, p`loose, p.palloc.kernel.used.words, p.palloc.user.used.words
    ensures success <==> old(Loadable(p, file))
    ensures success ==>
      && ImageOk(m) && m.loose == {} && Started(Memory(m), file.data, PHYS_BASE - PAGE_SIZE)
      && eip == Entry(file.data) && esp == PHYS_BASE
      && m.kernelOthers == old(p.palloc.KernelUsed()) && m.userOthers == old(p.palloc.UserUsed())
      && |m.kernelUsed| == |m.kernelOthers| + 1 + |Dirs(m.space)| && |m.userUsed| == |m.userOthers| + |Memory(m).Keys|
    ensures p.Bare()
    ensures p.palloc.KernelUsed() == old(p.palloc.KernelUsed()) && p.palloc.UserUsed() == old(p.palloc.UserUsed())
  {
    hide ImageOk, Memory, Started, Loadable, Dirs;
    success, eip, esp := Load(p, file);
    m := p.Snap();
    if success { PagesTaken(m); }
    p.ProcessExit();
  }
}
