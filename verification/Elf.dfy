/**
 * Executables (the ELF structures and the checks of userprog/process.c).
 * A file is the sequence of its bytes.
 */
module Elf {
  import opened Bytes
  import opened Words
  import opened Paging
  import opened Process

  const EHDR_SIZE := 52
  const PHDR_SIZE := 32
  const PT_LOAD := 1
  const PT_DYNAMIC := 2
  const PT_INTERP := 3
  const PT_SHLIB := 5
  const PF_W := 2

  function Half(data: seq<byte>, o: nat): nat
    requires o + 2 <= |data|
  {
    (data[o] as int) + 256 * (data[o + 1] as int)
  }

  function Word32(data: seq<byte>, o: nat): nat
    requires o + 4 <= |data|
  {
    FromLE32(data[o..o + 4])
  }

  datatype Phdr = Phdr(kind: nat, offset: nat, vaddr: nat, filesz: nat, memsz: nat, flags: nat)

  function PhdrAt(data: seq<byte>, o: nat): Phdr
    requires o + PHDR_SIZE <= |data|
  {
    Phdr(Word32(data, o), Word32(data, o + 4), Word32(data, o + 8), Word32(data, o + 16), Word32(data, o + 20), Word32(data, o + 24))
  }

  predicate Words32(h: Phdr) {
    h.kind < TWO32 && h.offset < TWO32 && h.vaddr < TWO32 && h.filesz < TWO32 && h.memsz < TWO32 && h.flags < TWO32
  }

  /** The executable header, as load accepts it. */
  predicate EhdrOk(data: seq<byte>) {
    && |data| >= EHDR_SIZE
    && data[..7] == [0x7F, 0x45, 0x4C, 0x46, 1, 1, 1]
    && Half(data, 16) == 2 && Half(data, 18) == 3 && Word32(data, 20) == 1
    && Half(data, 42) == PHDR_SIZE && Half(data, 44) <= 1024
  }

  function PhOff(data: seq<byte>): nat
    requires |data| >= EHDR_SIZE
  {
    Word32(data, 28)
  }

  function PhNum(data: seq<byte>): nat
    requires |data| >= EHDR_SIZE
  {
    Half(data, 44)
  }

  function Entry(data: seq<byte>): nat
    requires |data| >= EHDR_SIZE
  {
    Word32(data, 24)
  }

  // ---------------------------------------------------------- how headers lie in a file

  function LE16(n: nat): (b: seq<byte>)
    requires n < 0x1_0000
    ensures |b| == 2
  {
    [n % 256, n / 256]
  }

  /** The fields of an executable header, in their order. */
  datatype Ehdr = Ehdr(ident: seq<byte>, kind: nat, machine: nat, version: nat, entry: nat, phoff: nat, shoff: nat, flags: nat,
                       ehsize: nat, phentsize: nat, phnum: nat, shentsize: nat, shnum: nat, shstrndx: nat)

  predicate Fitting(e: Ehdr) {
    && |e.ident| == 16 && e.kind < 0x1_0000 && e.machine < 0x1_0000 && e.version < TWO32 && e.entry < TWO32 && e.phoff < TWO32
    && e.shoff < TWO32 && e.flags < TWO32 && e.ehsize < 0x1_0000 && e.phentsize < 0x1_0000 && e.phnum < 0x1_0000
    && e.shentsize < 0x1_0000 && e.shnum < 0x1_0000 && e.shstrndx < 0x1_0000
  }

  /** The bytes of an executable header, one field after the other. */
  function EhdrBytes(e: Ehdr): (b: seq<byte>)
    requires Fitting(e)
    ensures |b| == EHDR_SIZE
  {
    e.ident + LE16(e.kind) + LE16(e.machine) + LE32(e.version) + LE32(e.entry) + LE32(e.phoff) + LE32(e.shoff) + LE32(e.flags)
    + LE16(e.ehsize) + LE16(e.phentsize) + LE16(e.phnum) + LE16(e.shentsize) + LE16(e.shnum) + LE16(e.shstrndx)
  }

  /** The bytes of a program header. */
  function PhdrBytes(h: Phdr, paddr: nat, align: nat): (b: seq<byte>)
    requires Words32(h) && paddr < TWO32 && align < TWO32
    ensures |b| == PHDR_SIZE
  {
    LE32(h.kind) + LE32(h.offset) + LE32(h.vaddr) + LE32(paddr) + LE32(h.filesz) + LE32(h.memsz) + LE32(h.flags) + LE32(align)
  }

  lemma WordIs(data: seq<byte>, o: nat, n: nat)
    requires n < TWO32 && o + 4 <= |data| && data[o..o + 4] == LE32(n)
    ensures Word32(data, o) == n
  {
    LE32RoundTrip(n);
  }

  lemma HalfIs(data: seq<byte>, o: nat, n: nat)
    requires n < 0x1_0000 && o + 2 <= |data| && data[o..o + 2] == LE16(n)
    ensures Half(data, o) == n
  {
    assert data[o] == data[o..o + 2][0] && data[o + 1] == data[o..o + 2][1];
  }

  /** What load reads from the start of a file is what the fields of its header say, and it accepts just those it should. */
  lemma EhdrRead(e: Ehdr, rest: seq<byte>)
    requires Fitting(e)
    ensures var data := EhdrBytes(e) + rest;
      && Entry(data) == e.entry && PhOff(data) == e.phoff && PhNum(data) == e.phnum
      && (EhdrOk(data) <==>
            && e.ident[..7] == [0x7F, 0x45, 0x4C, 0x46, 1, 1, 1] && e.kind == 2 && e.machine == 3 && e.version == 1
            && e.phentsize == 32 && e.phnum <= 1024)
  {
    var data := EhdrBytes(e) + rest;
    assert data[..7] == e.ident[..7];
    assert data[16..18] == LE16(e.kind) && data[18..20] == LE16(e.machine) && data[20..24] == LE32(e.version);
    assert data[24..28] == LE32(e.entry) && data[28..32] == LE32(e.phoff);
    assert data[42..44] == LE16(e.phentsize) && data[44..46] == LE16(e.phnum);
    HalfIs(data, 16, e.kind);
    HalfIs(data, 18, e.machine);
    WordIs(data, 20, e.version);
    WordIs(data, 24, e.entry);
    WordIs(data, 28, e.phoff);
    HalfIs(data, 42, e.phentsize);
    HalfIs(data, 44, e.phnum);
  }

  lemma WordWithin(before: seq<byte>, b: seq<byte>, rest: seq<byte>, i: nat, n: nat)
    requires n < TWO32 && i + 4 <= |b| && b[i..i + 4] == LE32(n)
    ensures Word32(before + b + rest, |before| + i) == n
  {
    var data, o := before + b + rest, |before| + i;
    assert data[o..o + 4] == b[i..i + 4];
    WordIs(data, o, n);
  }

  /** A program header, wherever it lies. */
  lemma PhdrRead(before: seq<byte>, h: Phdr, paddr: nat, align: nat, rest: seq<byte>)
    requires Words32(h) && paddr < TWO32 && align < TWO32
    ensures PhdrAt(before + PhdrBytes(h, paddr, align) + rest, |before|) == h
  {
    var b := PhdrBytes(h, paddr, align);
    assert b[0..4] == LE32(h.kind) && b[4..8] == LE32(h.offset) && b[8..12] == LE32(h.vaddr);
    assert b[16..20] == LE32(h.filesz) && b[20..24] == LE32(h.memsz) && b[24..28] == LE32(h.flags);
    hide PhdrBytes, LE32;
    WordWithin(before, b, rest, 0, h.kind);
    WordWithin(before, b, rest, 4, h.offset);
    WordWithin(before, b, rest, 8, h.vaddr);
    WordWithin(before, b, rest, 16, h.filesz);
    WordWithin(before, b, rest, 20, h.memsz);
    WordWithin(before, b, rest, 24, h.flags);
  }

  /** A program header with the two fields that load does not look at. */
  datatype Row = Row(h: Phdr, paddr: nat, align: nat)

  predicate RowOk(r: Row) { Words32(r.h) && r.paddr < TWO32 && r.align < TWO32 }

  /** The program header table: one header after the other. */
  function TableBytes(rows: seq<Row>): (b: seq<byte>)
    requires forall i :: 0 <= i < |rows| ==> RowOk(rows[i])
    ensures |b| == PHDR_SIZE * |rows|
  {
    if rows == [] then []
    else
      var n := |rows| - 1;
      assert RowOk(rows[n]);
      TableBytes(rows[..n]) + PhdrBytes(rows[n].h, rows[n].paddr, rows[n].align)
  }

  lemma {:induction false} RowAt(rows: seq<Row>, i: nat)
    requires i < |rows| && forall k :: 0 <= k < |rows| ==> RowOk(rows[k])
    ensures RowOk(rows[i]) && TableBytes(rows)[PHDR_SIZE * i..PHDR_SIZE * (i + 1)] == PhdrBytes(rows[i].h, rows[i].paddr, rows[i].align)
  {
    hide PhdrBytes, RowOk;
    var n := |rows| - 1;
    if i < n {
      RowAt(rows[..n], i);
      assert rows[..n][i] == rows[i];
    }
  }

  lemma Regrouped(before: seq<byte>, a: seq<byte>, b: seq<byte>, c: seq<byte>, rest: seq<byte>)
    ensures before + (a + b + c) + rest == (before + a) + b + (c + rest)
  {}

  lemma RowWithin(before: seq<byte>, t: seq<byte>, rest: seq<byte>, o: nat, r: Row)
    requires RowOk(r) && o + PHDR_SIZE <= |t| && t[o..o + PHDR_SIZE] == PhdrBytes(r.h, r.paddr, r.align)
    ensures PhdrAt(before + t + rest, |before| + o) == r.h
  {
    hide PhdrBytes, PhdrAt;
    var a, b, c := t[..o], t[o..o + PHDR_SIZE], t[o + PHDR_SIZE..];
    assert t == a + b + c;
    Regrouped(before, a, b, c, rest);
    PhdrRead(before + a, r.h, r.paddr, r.align, c + rest);
  }

  /** In a file with the headers laid out so, header i of the table is the i-th one, wherever the table lies. */
  lemma TableRead(before: seq<byte>, rows: seq<Row>, rest: seq<byte>, i: nat)
    requires i < |rows| && forall k :: 0 <= k < |rows| ==> RowOk(rows[k])
    ensures PhdrAt(before + TableBytes(rows) + rest, |before| + PHDR_SIZE * i) == rows[i].h
  {
    hide PhdrBytes, TableBytes, PhdrAt, RowOk;
    RowAt(rows, i);
    RowWithin(before, TableBytes(rows), rest, PHDR_SIZE * i, rows[i]);
  }

  /** validate_segment, with its sums taken in 32 bits. */
  predicate ValidSegment(h: Phdr, length: nat) {
    && And(h.offset, PGMASK) == And(h.vaddr, PGMASK)
    && h.offset <= length
    && h.memsz >= h.filesz
    && h.memsz != 0
    && h.vaddr < PHYS_BASE
    && (h.vaddr + h.memsz) % TWO32 < PHYS_BASE
    && (h.vaddr + h.memsz) % TWO32 >= h.vaddr
    && h.vaddr >= PAGE_SIZE
  }

  /** What passing the check means, without wrap-around. */
  lemma ValidSegmentMeans(h: Phdr, length: nat)
    requires Words32(h)
    ensures ValidSegment(h, length) <==>
      && h.offset % PAGE_SIZE == h.vaddr % PAGE_SIZE && h.filesz <= h.memsz && h.memsz > 0 && h.offset <= length
      && PAGE_SIZE <= h.vaddr && h.vaddr + h.memsz < PHYS_BASE
  {
    PgOfsIs(h.offset);
    PgOfsIs(h.vaddr);
    hide And;
  }

  // ------------------------------------------------------------ what a segment holds

  /** Byte k of the pages of a segment: file bytes first, then zeros. */
  function SegmentByte(data: seq<byte>, ofs: nat, readBytes: nat, k: nat): byte {
    if k < readBytes && ofs + k < |data| then data[ofs + k] else 0
  }

  function SegmentPage(data: seq<byte>, ofs: nat, readBytes: nat, j: nat): (p: seq<byte>)
    ensures |p| == PAGE_SIZE
    ensures forall i :: 0 <= i < PAGE_SIZE ==> p[i] == SegmentByte(data, ofs, readBytes, PAGE_SIZE * j + i)
  {
    seq<byte>(PAGE_SIZE, i requires 0 <= i < PAGE_SIZE => SegmentByte(data, ofs, readBytes, PAGE_SIZE * j + i))
  }

  /** The byte that memory holds at a user address, and whether it may be written. */
  ghost predicate Holds(mem: map<nat, Page>, a: nat, b: byte, writable: bool) {
    && a / PAGE_SIZE in mem && mem[a / PAGE_SIZE].writable == writable
    && |mem[a / PAGE_SIZE].bytes| == PAGE_SIZE && mem[a / PAGE_SIZE].bytes[a % PAGE_SIZE] == b
  }

  /** Bit 1 of the flags. */
  predicate MayWrite(h: Phdr) { h.flags / 2 % 2 == 1 }

  /** The segment is in memory: p_filesz bytes of the file, then zeros up to p_memsz. */
  ghost predicate Loaded(mem: map<nat, Page>, data: seq<byte>, h: Phdr) {
    && h.offset + h.filesz <= |data|
    && forall i :: 0 <= i < h.memsz ==> LoadedAt(mem, data, h, i)
  }

  ghost predicate LoadedAt(mem: map<nat, Page>, data: seq<byte>, h: Phdr, i: nat)
    requires h.offset + h.filesz <= |data|
  {
    Holds(mem, h.vaddr + i, if i < h.filesz then data[h.offset + i] else 0, MayWrite(h))
  }

  /** Nothing that was in memory has changed. */
  ghost predicate Grew(mem: map<nat, Page>, mem': map<nat, Page>) {
    forall n :: n in mem ==> n in mem' && mem'[n] == mem[n]
  }

  /** The pages of a segment, from page n0 on, are in memory. */
  ghost predicate SegmentIn(mem: map<nat, Page>, n0: nat, cnt: nat, data: seq<byte>, ofs: nat, readBytes: nat, writable: bool) {
    forall j :: 0 <= j < cnt ==> PageIn(mem, n0, j, data, ofs, readBytes, writable)
  }

  ghost predicate PageIn(mem: map<nat, Page>, n0: nat, j: nat, data: seq<byte>, ofs: nat, readBytes: nat, writable: bool) {
    n0 + j in mem && mem[n0 + j] == Page(SegmentPage(data, ofs, readBytes, j), writable)
  }

  /** How load cuts a segment into pages. */
  function ReadBytes(h: Phdr): nat { if h.filesz > 0 then h.vaddr % PAGE_SIZE + h.filesz else 0 }
  function SegmentSize(h: Phdr): nat { (h.vaddr % PAGE_SIZE + h.memsz + PAGE_SIZE - 1) / PAGE_SIZE * PAGE_SIZE }

  /** The pages that load fills are the segment that the header describes. */
  lemma PagesAreSegment(mem: map<nat, Page>, data: seq<byte>, h: Phdr)
    requires Words32(h) && ValidSegment(h, |data|)
    requires h.filesz > 0 ==> h.offset - h.offset % PAGE_SIZE + ReadBytes(h) <= |data|
    requires SegmentIn(mem, h.vaddr / PAGE_SIZE, SegmentSize(h) / PAGE_SIZE, data, h.offset - h.offset % PAGE_SIZE, ReadBytes(h), MayWrite(h))
    ensures Loaded(mem, data, h)
  {
    hide ValidSegment, Words32, SegmentIn, SegmentSize;
    ValidSegmentMeans(h, |data|);
    var po, ofs := h.vaddr % PAGE_SIZE, h.offset - h.offset % PAGE_SIZE;
    assert h.offset + h.filesz <= |data|;
    forall i | 0 <= i < h.memsz ensures LoadedAt(mem, data, h, i) {
      var k := po + i;
      var j := k / PAGE_SIZE;
      PageOfByte(h, i);
      InSegment(mem, h.vaddr / PAGE_SIZE, SegmentSize(h) / PAGE_SIZE, j, data, ofs, ReadBytes(h), MayWrite(h));
      assert PAGE_SIZE * j + k % PAGE_SIZE == k;
    }
  }

  lemma InSegment(mem: map<nat, Page>, n0: nat, cnt: nat, j: nat, data: seq<byte>, ofs: nat, readBytes: nat, writable: bool)
    requires SegmentIn(mem, n0, cnt, data, ofs, readBytes, writable) && j < cnt
    ensures PageIn(mem, n0, j, data, ofs, readBytes, writable)
  {}

  lemma PageOfByte(h: Phdr, i: nat)
    requires i < h.memsz
    ensures var k := h.vaddr % PAGE_SIZE + i;
      && (h.vaddr + i) / PAGE_SIZE == h.vaddr / PAGE_SIZE + k / PAGE_SIZE && (h.vaddr + i) % PAGE_SIZE == k % PAGE_SIZE
      && k / PAGE_SIZE < SegmentSize(h) / PAGE_SIZE
  {}

  /** No sum or rounding in load wraps around, and the last page of the segment is a user page. */
  lemma NoWrap(h: Phdr, length: nat)
    requires Words32(h) && ValidSegment(h, length)
    ensures var po := h.vaddr % PAGE_SIZE;
      && ReadBytes(h) <= SegmentSize(h) && SegmentSize(h) % PAGE_SIZE == 0
      && h.vaddr - po + SegmentSize(h) <= PHYS_BASE && po + h.memsz + PAGE_SIZE - 1 < TWO32
  {
    hide ValidSegment, Words32;
    ValidSegmentMeans(h, length);
    var po := h.vaddr % PAGE_SIZE;
    RoundedUp(po + h.memsz, PHYS_BASE - (h.vaddr - po));
  }

  lemma RoundedUp(x: nat, bound: nat)
    requires x <= bound && bound % PAGE_SIZE == 0
    ensures x <= (x + PAGE_SIZE - 1) / PAGE_SIZE * PAGE_SIZE <= bound && (x + PAGE_SIZE - 1) / PAGE_SIZE * PAGE_SIZE % PAGE_SIZE == 0
  {}

  // ------------------------------------------------------------ the whole executable

  /** Program header i lies in the file. */
  predicate HeaderIn(data: seq<byte>, i: nat)
    requires |data| >= EHDR_SIZE
  {
    PhOff(data) + PHDR_SIZE * i + PHDR_SIZE <= |data|
  }

  function Header(data: seq<byte>, i: nat): (h: Phdr)
    requires |data| >= EHDR_SIZE && HeaderIn(data, i)
    ensures Words32(h)
  {
    PhdrAt(data, PhOff(data) + PHDR_SIZE * i)
  }

  /** Page n belongs to the segment. */
  predicate OfSegment(h: Phdr, n: nat) {
    h.kind == PT_LOAD && h.vaddr / PAGE_SIZE <= n < h.vaddr / PAGE_SIZE + SegmentSize(h) / PAGE_SIZE
  }

  /** What a header asks for has been done. */
  ghost predicate Honoured(mem: map<nat, Page>, data: seq<byte>, h: Phdr) {
    && h.kind !in {PT_DYNAMIC, PT_INTERP, PT_SHLIB}
    && (h.kind == PT_LOAD ==> ValidSegment(h, |data|) && Loaded(mem, data, h))
  }

  ghost predicate HonouredAt(mem: map<nat, Page>, data: seq<byte>, i: nat)
    requires |data| >= EHDR_SIZE
  {
    HeaderIn(data, i) && Honoured(mem, data, Header(data, i))
  }

  /** The first cnt headers are honoured, and memory holds nothing else. */
  ghost predicate HeadersDone(mem: map<nat, Page>, data: seq<byte>, cnt: nat)
    requires |data| >= EHDR_SIZE
  {
    && (forall i :: 0 <= i < cnt ==> HonouredAt(mem, data, i))
    && forall n :: n in mem ==> PageAsked(data, cnt, n)
  }

  ghost predicate PageAsked(data: seq<byte>, cnt: nat, n: nat)
    requires |data| >= EHDR_SIZE
  {
    exists i :: 0 <= i < cnt && HeaderIn(data, i) && OfSegment(Header(data, i), n)
  }

  lemma LoadedStays(mem: map<nat, Page>, mem': map<nat, Page>, data: seq<byte>, h: Phdr)
    requires Grew(mem, mem') && Loaded(mem, data, h)
    ensures Loaded(mem', data, h)
  {
    forall i | 0 <= i < h.memsz ensures LoadedAt(mem', data, h, i) {
      assert LoadedAt(mem, data, h, i);
    }
  }

  lemma HonouredStays(mem: map<nat, Page>, mem': map<nat, Page>, data: seq<byte>, h: Phdr)
    requires Grew(mem, mem') && Honoured(mem, data, h)
    ensures Honoured(mem', data, h)
  {
    hide Grew, Loaded;
    if h.kind == PT_LOAD { LoadedStays(mem, mem', data, h); }
  }

  /** One more header. */
  lemma HeaderStep(mem: map<nat, Page>, mem': map<nat, Page>, data: seq<byte>, i: nat)
    requires |data| >= EHDR_SIZE && HeadersDone(mem, data, i) && HeaderIn(data, i)
    requires Grew(mem, mem') && Honoured(mem', data, Header(data, i))
    requires forall n :: n in mem' ==> n in mem || OfSegment(Header(data, i), n)
    ensures HeadersDone(mem', data, i + 1)
  {
    hide Honoured, Header, HeaderIn, OfSegment;
    forall k | 0 <= k < i + 1 ensures HonouredAt(mem', data, k) {
      if k < i {
        assert HonouredAt(mem, data, k);
        HonouredStays(mem, mem', data, Header(data, k));
      }
    }
    forall n | n in mem' ensures PageAsked(data, i + 1, n) {
      if n in mem { assert PageAsked(data, i, n); }
    }
  }

  /** What a process finds when it starts: its segments, a stack of zeros, and nothing else. */
  ghost predicate Started(mem: map<nat, Page>, data: seq<byte>, stack: nat) {
    && EhdrOk(data)
    && (forall i :: 0 <= i < PhNum(data) ==> HonouredAt(mem, data, i))
    && (forall a :: stack <= a < stack + PAGE_SIZE ==> Holds(mem, a, 0, true))
    && forall n :: n in mem && n != stack / PAGE_SIZE ==> PageAsked(data, PhNum(data), n)
  }

  lemma StackAdded(mem: map<nat, Page>, mem': map<nat, Page>, data: seq<byte>, n: nat)
    requires EhdrOk(data) && HeadersDone(mem, data, PhNum(data)) && n !in mem
    requires mem' == mem[n := Page(SegmentPage([], 0, 0, 0), true)]
    ensures Started(mem', data, n * PAGE_SIZE)
  {
    assert Grew(mem, mem');
    hide Honoured, EhdrOk;
    forall i | 0 <= i < PhNum(data) ensures HonouredAt(mem', data, i) {
      assert HonouredAt(mem, data, i);
      HonouredStays(mem, mem', data, Header(data, i));
    }
  }
}
