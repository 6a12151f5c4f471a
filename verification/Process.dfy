/**
 * The memory of a user process (userprog/pagedir.c and the loading of
 * executables in userprog/process.c). A process has a page directory and
 * page tables in pages of the kernel pool and frames in pages of the
 * user pool; their contents are kept by address.
 */
module Process {
  import opened Bytes
  import opened Palloc
  import opened Paging
  import opened PageTables

  /** loose frames are taken from the pool but no user page is mapped to them. */
  datatype Image = Image(
    space: Space, frames: map<nat, seq<byte>>, loose: set<nat>,
    kernelUsed: set<nat>, userUsed: set<nat>, kernelOthers: set<nat>, userOthers: set<nat>)

  ghost function FramesOf(v: map<nat, Mapping>): set<nat> { set n | n in v :: v[n].frame }

  ghost predicate ImageOk(m: Image) {
    && SpaceOk(m.space) && m.space.pd != 0
    && m.frames.Keys == FramesOf(View(m.space)) + m.loose && FramesOf(View(m.space)) !! m.loose
    && (forall f :: f in m.frames ==> |m.frames[f]| == PAGE_SIZE)
    && m.kernelUsed == m.kernelOthers + m.space.tables.Keys && m.kernelOthers !! m.space.tables.Keys
    && m.userUsed == m.userOthers + m.frames.Keys && m.userOthers !! m.frames.Keys
  }

  /** A page as the process sees it. */
  datatype Page = Page(bytes: seq<byte>, writable: bool)

  /** What the process sees of each of its pages. */
  ghost function Memory(m: Image): map<nat, Page>
    requires ImageOk(m)
  {
    MemOf(View(m.space), m.frames)
  }

  ghost function MemOf(v: map<nat, Mapping>, frames: map<nat, seq<byte>>): map<nat, Page> {
    map n | n in v && v[n].frame in frames :: Page(frames[v[n].frame], v[n].writable)
  }

  lemma MemSame(v: map<nat, Mapping>, frames: map<nat, seq<byte>>, frames': map<nat, seq<byte>>)
    requires FramesOf(v) <= frames.Keys && FramesOf(v) <= frames'.Keys
    requires forall f :: f in FramesOf(v) ==> frames'[f] == frames[f]
    ensures MemOf(v, frames') == MemOf(v, frames)
  {
    forall n | n in v ensures v[n].frame in FramesOf(v) {}
  }

  lemma MemAdded(v: map<nat, Mapping>, frames: map<nat, seq<byte>>, n: nat, x: Mapping)
    requires FramesOf(v) <= frames.Keys && n !in v && x.frame in frames
    ensures MemOf(v[n := x], frames) == MemOf(v, frames)[n := Page(frames[x.frame], x.writable)]
  {
    forall k | k in v ensures v[k].frame in FramesOf(v) {}
  }

  /** What user code finds at an address, through the processor: just the bytes of its memory, writable as that says. */
  lemma UserSees(m: Image, va: nat)
    requires ImageOk(m) && va < PHYS_BASE
    ensures var n, ofs, w := va / PAGE_SIZE, va % PAGE_SIZE, Walk(m.space, va);
      && (w.Some? <==> n in Memory(m))
      && (w.Some? ==>
            var f := w.value.0 - ofs;
            f in m.frames && m.frames[f][ofs] == Memory(m)[n].bytes[ofs] && w.value.1 == Memory(m)[n].writable)
  {
    var v := View(m.space);
    WalkIs(m.space, va);
    hide Walk, View, SpaceOk;
    forall n | n in v ensures v[n].frame in FramesOf(v) {}
  }

  // --------------------------------------------------------- how many pages it takes

  /** The directory entries that some pages need. */
  ghost function DirsOf(pages: set<nat>): set<nat> { set n | n in pages :: n / ENTRIES }

  /** The pages of a process, and the directory and page tables they need, are no more than there is room for. */
  ghost predicate Fits(kernelRoom: int, userRoom: int, pages: set<nat>) {
    |pages| <= userRoom && 1 + |DirsOf(pages)| <= kernelRoom
  }

  lemma FitsLess(kernelRoom: int, userRoom: int, pages: set<nat>, more: set<nat>)
    requires pages <= more && Fits(kernelRoom, userRoom, more)
    ensures Fits(kernelRoom, userRoom, pages)
  {
    SubsetSize(pages, more);
    SubsetSize(DirsOf(pages), DirsOf(more));
  }

  /** Every page table holds an entry of a mapped page. */
  ghost predicate Tight(m: Image)
    requires ImageOk(m)
  {
    Dirs(m.space) == DirsOf(Memory(m).Keys)
  }

  lemma {:induction false} FramesCount(v: map<nat, Mapping>)
    requires forall a, b :: a in v && b in v && v[a].frame == v[b].frame ==> a == b
    ensures |FramesOf(v)| == |v.Keys|
  {
    var m := map n | n in v :: v[n].frame;
    assert m.Keys == v.Keys;
    ImageSize(m);
    assert m.Values == FramesOf(v);
  }

  lemma MemKeys(m: Image)
    requires ImageOk(m)
    ensures Memory(m).Keys == View(m.space).Keys
  {
    var v := View(m.space);
    forall n | n in v ensures v[n].frame in FramesOf(v) {}
    assert MemOf(v, m.frames).Keys == v.Keys;
  }

  /** The process has one page of the kernel pool for its directory and for each page table, and one of the user pool for each of its pages. */
  lemma PagesTaken(m: Image)
    requires ImageOk(m) && m.loose == {}
    ensures |m.kernelUsed| == |m.kernelOthers| + 1 + |Dirs(m.space)|
    ensures |m.userUsed| == |m.userOthers| + |Memory(m).Keys|
  {
    hide View, DirsOk, FramesOf, MemOf, SpaceOk;
    HasDirs(m);
    OkView(m.space);
    TablesCount(m.space);
    FramesCount(View(m.space));
    MemKeys(m);
    hide ImageOk;
    Sum(m.kernelUsed, m.kernelOthers, m.space.tables.Keys);
    Sum(m.userUsed, m.userOthers, m.frames.Keys);
  }

  lemma Sum(u: set<nat>, a: set<nat>, b: set<nat>)
    requires u == a + b && a !! b
    ensures |u| == |a| + |b|
  {}

  lemma DirsMore(pages: set<nat>, n: nat)
    ensures DirsOf(pages + {n}) == DirsOf(pages) + {n / ENTRIES}
  {
    forall d | d in DirsOf(pages) ensures d in DirsOf(pages + {n}) {
      var k :| k in pages && k / ENTRIES == d;
      assert k in pages + {n};
    }
    assert n in pages + {n};
  }

  /** Whether there are pages left for one more page of the process. */
  lemma RoomForOne(m: Image, kernelCnt: nat, userCnt: nat, n: nat)
    requires ImageOk(m) && m.loose == {} && Tight(m) && n !in Memory(m)
    requires |m.kernelUsed| <= kernelCnt && |m.userUsed| <= userCnt
    ensures Fits(kernelCnt - |m.kernelOthers|, userCnt - |m.userOthers|, Memory(m).Keys + {n}) <==>
      |m.userUsed| < userCnt && (n / ENTRIES in Dirs(m.space) || |m.kernelUsed| < kernelCnt)
  {
    hide ImageOk, Memory, Dirs, DirsOf, SpaceOk, DirsOk;
    HasDirs(m);
    PagesTaken(m);
    DirsMore(Memory(m).Keys, n);
    OneMore(Dirs(m.space), n / ENTRIES);
    OneMore(Memory(m).Keys, n);
  }

  /** What the process has fits. */
  lemma TakenFits(m: Image, kernelCnt: nat, userCnt: nat)
    requires ImageOk(m) && m.loose == {} && Tight(m) && |m.kernelUsed| <= kernelCnt && |m.userUsed| <= userCnt
    ensures Fits(kernelCnt - |m.kernelOthers|, userCnt - |m.userOthers|, Memory(m).Keys)
  {
    hide ImageOk, Memory, Dirs, DirsOf, SpaceOk, DirsOk;
    HasDirs(m);
    PagesTaken(m);
  }

  lemma OneMore(s: set<nat>, x: nat)
    ensures |s + {x}| == if x in s then |s| else |s| + 1
  {
    assert x in s ==> s + {x} == s;
  }

  // ---------------------------------------------------------- steps on images

  lemma HasDirs(m: Image)
    requires ImageOk(m)
    ensures SpaceOk(m.space) && DirsOk(m.space)
  {}

  lemma HasDirsOk(s: Space)
    requires SpaceOk(s)
    ensures DirsOk(s)
  {}

  lemma LessTable(used: set<nat>, others: set<nat>, ts: set<nat>, rest: set<nat>, pt: nat, pd: nat)
    requires used == others + ts + {pd} && ts == rest + {pt} && pt !in rest && pt != pd && pt !in others
    ensures pt in used && used - {pt} == others + rest + {pd}
  {}

  lemma LooseFramed(m: Image, f: nat)
    requires ImageOk(m) && f in m.loose
    ensures f in m.frames
  {}

  lemma SomeFrame(s: Space, n: nat)
    requires SpaceOk(s)
    ensures DirsOk(s) && (n in View(s) ==> View(s)[n].frame > 0)
  {
    OkView(s);
    hide DirsOk, View;
  }

  lemma AtDir(s: Space, d: nat)
    requires DirsOk(s) && d < USER_DIRS
    ensures Shaped(s) && |s.tables[s.pd]| == ENTRIES && (d in Dirs(s) <==> Pde(s, d) != 0)
    ensures Pde(s, d) != 0 ==> PdeGetPt(Pde(s, d)) != 0 && Dirs(s) + {d} == Dirs(s)
  {
    assert DirOk(s, d);
  }

  /** A frame is taken from the user pool, with any contents. */
  lemma FrameTaken(m: Image, m': Image, f: nat, bytes: seq<byte>)
    requires ImageOk(m) && f !in m.userUsed && |bytes| == PAGE_SIZE
    requires m' == m.(frames := m.frames[f := bytes], loose := m.loose + {f}, userUsed := m.userUsed + {f})
    ensures ImageOk(m') && Memory(m') == Memory(m)
  {
    hide SpaceOk, DirsOk, View, FramesOf, MemOf;
    HasDirs(m);
    var v := View(m.space);
    MemSame(v, m.frames, m'.frames);
  }

  /** A loose frame goes back. */
  lemma FrameReturned(m: Image, m': Image, f: nat)
    requires ImageOk(m) && f in m.loose
    requires m' == m.(frames := m.frames - {f}, loose := m.loose - {f}, userUsed := m.userUsed - {f})
    ensures ImageOk(m') && Memory(m') == Memory(m)
  {
    hide SpaceOk, DirsOk, View, FramesOf, MemOf;
    HasDirs(m);
    var v := View(m.space);
    MemSame(v, m.frames, m'.frames);
  }

  /** A page table is added. */
  lemma TableTaken(m: Image, m': Image, d: nat, pt: nat)
    requires ImageOk(m) && d < USER_DIRS && Pde(m.space, d) == 0 && KernelPage(pt) && pt !in m.kernelUsed
    requires m' == m.(space := AddTable(m.space, d, pt), kernelUsed := m.kernelUsed + {pt})
    ensures ImageOk(m') && Memory(m') == Memory(m) && View(m'.space) == View(m.space) && Pde(m'.space, d) != 0
    ensures Dirs(m'.space) == Dirs(m.space) + {d}
  {
    var v := View(m.space);
    assert AddTable(m.space, d, pt).tables.Keys == m.space.tables.Keys + {pt};
    AddTableOk(m.space, d, pt);
    assert d in Dirs(m'.space);
    hide SpaceOk, View, AddTable, KernelPage, FramesOf, MemOf;
  }

  /** A page is mapped to a loose frame. */
  lemma PageMapped(m: Image, m': Image, n: nat, f: nat, writable: bool)
    requires ImageOk(m) && n < USER_PAGES && Pde(m.space, n / ENTRIES) != 0 && !Mapped(m.space, n) && f in m.loose && KernelPage(f)
    requires DirOk(m.space, n / ENTRIES)
    requires m' == m.(space := SetPte(m.space, n, PteCreateUser(f, writable)), loose := m.loose - {f})
    ensures ImageOk(m') && View(m'.space) == View(m.space)[n := Mapping(f, writable)] && Dirs(m'.space) == Dirs(m.space)
    ensures Memory(m') == Memory(m)[n := Page(m.frames[f], writable)]
  {
    hide SpaceOk, DirsOk, View, SetPte, Mapped, PteCreateUser, Pde, DirOk, KernelPage, FramesOf, MemOf;
    HasDirs(m);
    var v := View(m.space);
    FrameUnmapped(m.space, v, n, f);
    MapOk(m.space, n, f, writable);
    FramesAdded(v, n, Mapping(f, writable));
    MemAdded(v, m.frames, n, Mapping(f, writable));
  }

  lemma FrameUnmapped(s: Space, v: map<nat, Mapping>, n: nat, f: nat)
    requires DirsOk(s) && v == View(s) && n < USER_PAGES && !Mapped(s, n) && f !in FramesOf(v)
    ensures n !in v && forall k :: k in v ==> v[k].frame != f
  {
    forall k | k in v ensures v[k].frame != f { assert v[k].frame in FramesOf(v); }
  }

  lemma FramesAdded(v: map<nat, Mapping>, n: nat, x: Mapping)
    requires n !in v
    ensures FramesOf(v[n := x]) == FramesOf(v) + {x.frame}
  {
    var v' := v[n := x];
    forall f | f in FramesOf(v) ensures f in FramesOf(v') {
      var k :| k in v && v[k].frame == f;
      assert k in v' && v'[k] == v[k];
    }
    assert v'[n].frame in FramesOf(v');
  }

  /** An empty directory translates nothing. */
  lemma EmptyDirectory(pd: nat, dir: seq<nat>)
    requires TableOk(dir) && forall d :: 0 <= d < USER_DIRS ==> dir[d] == 0
    ensures SpaceOk(Space(pd, map[pd := dir])) && View(Space(pd, map[pd := dir])) == map[]
  {
    var s := Space(pd, map[pd := dir]);
    assert DirsOk(s);
    FlagBits(0);
    hide Present;
    assert forall n :: 0 <= n < USER_PAGES ==> Pte(s, n) == 0;
    assert forall n: nat :: !Mapped(s, n);
  }

  lemma EmptyImage(m: Image, pd: nat, dir: seq<nat>)
    requires TableOk(dir) && forall d :: 0 <= d < USER_DIRS ==> dir[d] == 0
    requires m == Image(Space(pd, map[pd := dir]), map[], {}, m.kernelOthers + {pd}, m.userOthers, m.kernelOthers, m.userOthers)
    requires pd != 0 && pd !in m.kernelOthers
    ensures ImageOk(m) && Memory(m) == map[] && Tight(m)
  {
    EmptyDirectory(pd, dir);
    hide SpaceOk, View;
  }

  lemma PageNumbers(va: nat)
    requires va < PHYS_BASE
    ensures va / PAGE_SIZE < USER_PAGES && PdNo(va) == va / PAGE_SIZE / ENTRIES < USER_DIRS && PtNo(va) == va / PAGE_SIZE % ENTRIES
  {
    PtNoIs(va);
    hide PtNo;
  }

  class Proc {
    const palloc: PageAllocator

    /** init_page_dir: kernel mappings, and no user mapping. */
    const initDir: seq<nat>

    var pd: nat
    var tables: map<nat, seq<nat>>
    var frames: map<nat, seq<byte>>

    ghost var loose: set<nat>
    ghost var kernelOthers: set<nat>
    ghost var userOthers: set<nat>

    ghost predicate Ready() {
      && palloc.Valid() && PHYS_BASE <= palloc.kernel.base
      && TableOk(initDir) && forall d :: 0 <= d < USER_DIRS ==> initDir[d] == 0
    }

    ghost function Snap(): Image
      requires Ready()
      reads this, palloc.kernel.used.words, palloc.user.used.words
    {
      Image(Space(pd, tables), frames, loose, palloc.KernelUsed(), palloc.UserUsed(), kernelOthers, userOthers)
    }

    /** There is a page directory. */
    ghost predicate Valid()
      reads this, palloc.kernel.used.words, palloc.user.used.words
    {
      Ready() && ImageOk(Snap())
    }

    /** The memory that the process sees. */
    ghost function Mem(): map<nat, Page>
      requires Valid()
      reads this, palloc.kernel.used.words, palloc.user.used.words
    {
      Memory(Snap())
    }

    /** The translation of its addresses. */
    ghost function Translation(): map<nat, Mapping>
      requires Valid()
      reads this, palloc.kernel.used.words, palloc.user.used.words
    {
      View(Snap().space)
    }

    ghost function FrameAt(f: nat): seq<byte>
      reads this`frames
    {
      if f in frames then frames[f] else []
    }

    /** The directory entries that have a page table. */
    ghost function Tables(): set<nat>
      requires Valid()
      reads this, palloc.kernel.used.words, palloc.user.used.words
    {
      Dirs(Snap().space)
    }

    /** No page is taken but for what the process sees. */
    ghost predicate Settled()
      reads this, palloc.kernel.used.words, palloc.user.used.words
    {
      Valid() && loose == {} && Tight(Snap())
    }

    /** What other code left of the pools is enough for the pages. */
    ghost predicate FitsIn(pages: set<nat>)
      reads this`kernelOthers, this`userOthers
    {
      Fits(KernelRoom(), UserRoom(), pages)
    }

    ghost function KernelRoom(): int
      reads this`kernelOthers
    {
      palloc.kernel.used.bitCnt - |kernelOthers|
    }

    ghost function UserRoom(): int
      reads this`userOthers
    {
      palloc.user.used.bitCnt - |userOthers|
    }

    /** There is none, and the process has no page at all. */
    ghost predicate Bare()
      reads this, palloc.kernel.used.words, palloc.user.used.words
    {
      && Ready() && pd == 0 && tables == map[] && frames == map[] && loose == {}
      && palloc.KernelUsed() == kernelOthers && palloc.UserUsed() == userOthers
    }

    constructor (palloc: PageAllocator, initDir: seq<nat>)
      requires palloc.Valid() && PHYS_BASE <= palloc.kernel.base
      requires TableOk(initDir) && forall d :: 0 <= d < USER_DIRS ==> initDir[d] == 0
      ensures Bare() && this.palloc == palloc
    {
      this.palloc, this.initDir := palloc, initDir;
      pd, tables, frames, loose := 0, map[], map[], {};
      kernelOthers, userOthers := palloc.KernelUsed(), palloc.UserUsed();
    }

    /** pagedir_create. */
    method PagedirCreate() returns (ok: bool)
      requires Bare()
      modifies this`pd, this`tables, palloc.kernel.used.words, palloc.user.used.words
      ensures !ok ==> Bare()
      ensures ok <==> old(|palloc.KernelUsed()|) < palloc.kernel.used.bitCnt
      ensures ok ==> Valid() && Mem() == map[] && Tight(Snap()) && loose == {}
    {
      hide ImageOk, SpaceOk, DirsOk, View, Tight, Memory, TableOk;
      pd := palloc.GetPage(false);
      if pd == 0 { return false; }
      tables := map[pd := initDir];
      EmptyImage(Snap(), pd, initDir);
      ok := true;
    }

    /** lookup_page: the page table that holds the entry of a user address, or 0, and its index there. */
    method LookupPage(vaddr: nat, create: bool) returns (pt: nat, idx: nat)
      requires Valid() && vaddr < PHYS_BASE
      modifies this`tables, palloc.kernel.used.words, palloc.user.used.words
      ensures Valid() && Translation() == old(Translation()) && Mem() == old(Mem())
      ensures !create ==> Snap() == old(Snap())
      ensures palloc.UserUsed() == old(palloc.UserUsed())
      ensures pt == 0 ==> Snap() == old(Snap())
      ensures create ==> (pt == 0 <==> vaddr / PAGE_SIZE / ENTRIES !in old(Tables()) && old(|palloc.KernelUsed()|) >= palloc.kernel.used.bitCnt)
      ensures pt != 0 ==> Tables() == old(Tables()) + {vaddr / PAGE_SIZE / ENTRIES}
      ensures !create ==> (pt == 0 <==> Pde(Snap().space, vaddr / PAGE_SIZE / ENTRIES) == 0)
      ensures pt != 0 ==>
        && Pde(Snap().space, vaddr / PAGE_SIZE / ENTRIES) != 0
        && pt == PdeGetPt(Pde(Snap().space, vaddr / PAGE_SIZE / ENTRIES)) && idx == vaddr / PAGE_SIZE % ENTRIES
    {
      hide ImageOk, SpaceOk, DirsOk, View, Memory, KernelPage, PdeGetPt, PdeCreate, FramesOf, PtNo, PdNo;
      PageNumbers(vaddr);
      HasDirs(Snap());
      var d := PdNo(vaddr);
      AtDir(Snap().space, d);
      if tables[pd][d] == 0 {
        if !create { return 0, 0; }
        var ok := AddTableAt(d);
        if !ok { return 0, 0; }
        HasDirs(Snap());
        AtDir(Snap().space, d);
      }
      return PdeGetPt(tables[pd][d]), PtNo(vaddr);
    }

    /** The part of lookup_page that makes a page table. */
    method AddTableAt(d: nat) returns (ok: bool)
      requires Valid() && d < USER_DIRS && Pde(Snap().space, d) == 0
      modifies this`tables, palloc.kernel.used.words, palloc.user.used.words
      ensures Valid() && Translation() == old(Translation()) && Mem() == old(Mem())
      ensures palloc.UserUsed() == old(palloc.UserUsed())
      ensures ok <==> old(|palloc.KernelUsed()|) < palloc.kernel.used.bitCnt
      ensures !ok ==> Snap() == old(Snap())
      ensures ok ==> Tables() == old(Tables()) + {d} && Pde(Snap().space, d) != 0
    {
      hide ImageOk, SpaceOk, DirsOk, View, Memory, PdeCreate, FramesOf, Dirs, TableOk, PageAllocator.KernelUsed, PageAllocator.UserUsed;
      ghost var m := Snap();
      HasDirs(m);
      AtDir(m.space, d);
      var pt := palloc.GetPage(false);
      if pt == 0 { return false; }
      var dir: seq<nat> := Updated(tables[pd], d, PdeCreate(pt));
      tables := tables[pd := dir][pt := ZeroTable()];
      assert KernelPage(pt);
      TableTaken(m, Snap(), d, pt);
      ok := true;
    }

    /** pagedir_set_page, for a page that is not mapped and a frame that no page is mapped to. */
    method SetPage(upage: nat, kpage: nat, writable: bool) returns (ok: bool)
      requires Valid() && upage < PHYS_BASE && upage % PAGE_SIZE == 0 && upage / PAGE_SIZE !in Translation()
      requires kpage in loose && KernelPage(kpage)
      modifies this`tables, this`loose, palloc.kernel.used.words, palloc.user.used.words
      ensures Valid() && palloc.UserUsed() == old(palloc.UserUsed())
      ensures !ok ==> Snap() == old(Snap())
      ensures ok <==> upage / PAGE_SIZE / ENTRIES in old(Tables()) || old(|palloc.KernelUsed()|) < palloc.kernel.used.bitCnt
      ensures ok ==> Tables() == old(Tables()) + {upage / PAGE_SIZE / ENTRIES}
      ensures ok ==> Translation() == old(Translation())[upage / PAGE_SIZE := Mapping(kpage, writable)]
      ensures ok ==> loose == old(loose) - {kpage} && Mem() == old(Mem())[upage / PAGE_SIZE := Page(FrameAt(kpage), writable)]
    {
      hide ImageOk, SpaceOk, DirsOk, View, Present, PteCreateUser, PdeGetPt, FramesOf, Dirs;
      LooseFramed(Snap(), kpage);
      var pt, idx := LookupPage(upage, true);
      if pt == 0 { return false; }
      ghost var m := Snap();
      ghost var n := upage / PAGE_SIZE;
      HasDirs(m);
      DirAt(m.space, n);
      TableAt(m.space, n / ENTRIES);
      NotMapped(m.space, n);
      tables := tables[pt := Updated(tables[pt], idx, PteCreateUser(kpage, writable))];
      loose := loose - {kpage};
      PageMapped(m, Snap(), n, kpage, writable);
      ok := true;
    }

    /** pagedir_get_page: where a user address lies in kernel memory, or 0. */
    method GetPage(uaddr: nat) returns (kaddr: nat)
      requires Valid() && uaddr < PHYS_BASE
      modifies this`tables, palloc.kernel.used.words, palloc.user.used.words
      ensures Valid() && Snap() == old(Snap())
      ensures var v := Translation();
        kaddr == if uaddr / PAGE_SIZE in v then v[uaddr / PAGE_SIZE].frame + uaddr % PAGE_SIZE else 0
    {
      hide ImageOk, SpaceOk, DirsOk, View, Present, PteGetPage, PdeGetPt, PgOfs;
      var pt, idx := LookupPage(uaddr, false);
      ghost var n := uaddr / PAGE_SIZE;
      HasDirs(Snap());
      DirAt(Snap().space, n);
      EntryFound(Snap().space, n);
      PgOfsIs(uaddr);
      if pt != 0 && Present(tables[pt][idx]) {
        return PteGetPage(tables[pt][idx]) + PgOfs(uaddr);
      }
      return 0;
    }

    /** pagedir_clear_page: the page is gone from the translation; its frame is still taken. */
    method ClearPage(upage: nat)
      requires Valid() && upage < PHYS_BASE && upage % PAGE_SIZE == 0
      modifies this`tables, this`loose, palloc.kernel.used.words, palloc.user.used.words
      ensures Valid() && Translation() == old(Translation()) - {upage / PAGE_SIZE}
      ensures Mem() == old(Mem()) - {upage / PAGE_SIZE}
    {
      hide ImageOk, SpaceOk, DirsOk, View, Present, NotPresent, KernelPage, PdeGetPt, FramesOf;
      var pt, idx := LookupPage(upage, false);
      ghost var n := upage / PAGE_SIZE;
      ghost var m := Snap();
      HasDirs(m);
      DirAt(m.space, n);
      ghost var v := View(m.space);
      EntryFound(m.space, n);
      if pt != 0 && Present(tables[pt][idx]) {
        tables := tables[pt := Updated(tables[pt], idx, NotPresent(tables[pt][idx]))];
        loose := loose + {v[n].frame};
        PageUnmapped(m, Snap(), n);
      } else {
        NotThere(m, n);
      }
    }

    /** install_page: refuses a page that is already mapped. */
    method InstallPage(upage: nat, kpage: nat, writable: bool) returns (ok: bool)
      requires Valid() && upage < PHYS_BASE && upage % PAGE_SIZE == 0 && kpage in loose && KernelPage(kpage)
      modifies this`tables, this`loose, palloc.kernel.used.words, palloc.user.used.words
      ensures Valid() && palloc.UserUsed() == old(palloc.UserUsed())
      ensures !ok ==> Snap() == old(Snap())
      ensures ok <==>
        && upage / PAGE_SIZE !in old(Mem())
        && (upage / PAGE_SIZE / ENTRIES in old(Tables()) || old(|palloc.KernelUsed()|) < palloc.kernel.used.bitCnt)
      ensures ok ==> loose == old(loose) - {kpage}
      ensures ok ==> Tables() == old(Tables()) + {upage / PAGE_SIZE / ENTRIES}
      ensures ok ==> Mem() == old(Mem())[upage / PAGE_SIZE := Page(FrameAt(kpage), writable)]
    {
      hide ImageOk, SpaceOk, DirsOk, View, FramesOf, Dirs, KernelPage, Memory;
      ghost var m := Snap();
      HasDirs(m);
      MemKeys(m);
      SomeFrame(m.space, upage / PAGE_SIZE);
      var mapped := GetPage(upage);
      if mapped != 0 { return false; }
      ok := SetPage(upage, kpage, writable);
    }

    /** The pages still to be freed: the frames of user pages from n on. */
    ghost predicate LeftFrom(v: map<nat, Mapping>, n: nat)
      requires Ready()
      reads this, palloc.user.used.words
    {
      && palloc.UserUsed() == userOthers + loose + FramesFrom(v, n)
      && frames.Keys == loose + FramesFrom(v, n)
    }

    /** Frees the frame of user page n, if it is mapped. */
    method FreeFrame(pte: nat, ghost v: map<nat, Mapping>, ghost n: nat)
      requires Ready() && LeftFrom(v, n) && userOthers + loose !! FramesOf(v)
      requires forall a, b :: a in v && b in v && v[a].frame == v[b].frame ==> a == b
      requires (Present(pte) <==> n in v) && (n in v ==> PteGetPage(pte) == v[n].frame)
      modifies this`frames, palloc.kernel.used.words, palloc.user.used.words
      ensures palloc.KernelUsed() == old(palloc.KernelUsed()) && LeftFrom(v, n + 1)
    {
      FramesStep(v, n);
      hide FramesFrom, FramesOf, Present, PteGetPage;
      if Present(pte) {
        palloc.FreePage(PteGetPage(pte));
        frames := frames - {PteGetPage(pte)};
      }
    }

    /** Frees the frames of the pages that one page table maps. */
    method FreeFrames(pt: nat, d: nat, ghost s: Space, ghost v: map<nat, Mapping>)
      requires Ready() && s == Space(pd, tables) && SpaceOk(s) && v == View(s)
      requires d < USER_DIRS && Pde(s, d) != 0 && pt == PdeGetPt(Pde(s, d))
      requires userOthers + loose !! FramesOf(v) && LeftFrom(v, d * ENTRIES)
      modifies this`frames, palloc.kernel.used.words, palloc.user.used.words
      ensures palloc.KernelUsed() == old(palloc.KernelUsed()) && LeftFrom(v, (d + 1) * ENTRIES)
    {
      hide SpaceOk, View, FramesOf, LeftFrom, Present, PteGetPage;
      TableAt(s, d);
      OkView(s);
      for t := 0 to ENTRIES
        invariant palloc.KernelUsed() == old(palloc.KernelUsed()) && LeftFrom(v, d * ENTRIES + t)
      {
        EntryAt(s, d, t);
        FreeFrame(tables[pt][t], v, d * ENTRIES + t);
      }
    }

    /** Frees one page table and the frames of the pages it maps, if there is one. */
    method FreeTable(d: nat, ghost s: Space, ghost v: map<nat, Mapping>)
      requires Ready() && s == Space(pd, tables) && SpaceOk(s) && v == View(s) && d < USER_DIRS
      requires userOthers + loose !! FramesOf(v) && LeftFrom(v, d * ENTRIES)
      requires kernelOthers !! s.tables.Keys && palloc.KernelUsed() == kernelOthers + TablesFrom(s, d) + {pd}
      modifies this`frames, palloc.kernel.used.words, palloc.user.used.words
      ensures LeftFrom(v, (d + 1) * ENTRIES) && palloc.KernelUsed() == kernelOthers + TablesFrom(s, d + 1) + {pd}
    {
      hide SpaceOk, DirsOk, View, TablesFrom, FramesOf, FramesFrom, Present, PdeGetPt;
      HasDirsOk(s);
      AtDir(s, d);
      DirPresent(s, d);
      TablesStep(s, d);
      FramesSkip(s, d);
      if Present(tables[pd][d]) {
        var pt := PdeGetPt(tables[pd][d]);
        FreeFrames(pt, d, s, v);
        LessTable(palloc.KernelUsed(), kernelOthers, TablesFrom(s, d), TablesFrom(s, d + 1), pt, pd);
        palloc.FreePage(pt);
      }
    }

    method FreeTables(ghost s: Space, ghost v: map<nat, Mapping>)
      requires Ready() && s == Space(pd, tables) && SpaceOk(s) && v == View(s)
      requires userOthers + loose !! FramesOf(v) && LeftFrom(v, 0)
      requires kernelOthers !! s.tables.Keys && palloc.KernelUsed() == kernelOthers + TablesFrom(s, 0) + {pd}
      modifies this`frames, palloc.kernel.used.words, palloc.user.used.words
      ensures LeftFrom(v, USER_PAGES) && palloc.KernelUsed() == kernelOthers + TablesFrom(s, USER_DIRS) + {pd}
    {
      hide SpaceOk, DirsOk, View, TablesFrom, FramesOf, LeftFrom;
      HasDirsOk(s);
      for d := 0 to USER_DIRS
        invariant LeftFrom(v, d * ENTRIES) && palloc.KernelUsed() == kernelOthers + TablesFrom(s, d) + {pd}
      {
        FreeTable(d, s, v);
      }
    }

    /** pagedir_destroy: every frame, every page table and the directory go back. */
    method PagedirDestroy()
      requires Valid()
      modifies this`pd, this`tables, this`frames, palloc.kernel.used.words, palloc.user.used.words
      ensures pd == 0 && tables == map[] && frames.Keys == loose
      ensures palloc.KernelUsed() == kernelOthers && palloc.UserUsed() == userOthers + loose
    {
      hide ImageOk, SpaceOk, DirsOk, View, TablesFrom, FramesOf, FramesFrom;
      ghost var v := AllToFree(Snap());
      FreeTables(Space(pd, tables), v);
      palloc.FreePage(pd);
      pd, tables := 0, map[];
    }

    /** process_exit. */
    method ProcessExit()
      requires Valid() || Bare()
      modifies this`pd, this`tables, this`frames, palloc.kernel.used.words, palloc.user.used.words
      ensures pd == 0 && frames.Keys == loose && palloc.KernelUsed() == kernelOthers && palloc.UserUsed() == userOthers + loose
      ensures loose == {} ==> Bare()
    {
      if pd != 0 {
        PagedirDestroy();
        assert loose == {} ==> frames == map[];
      }
    }
  }

  /** A page leaves the translation and its frame becomes loose. */
  lemma PageUnmapped(m: Image, m': Image, n: nat)
    requires ImageOk(m) && n < USER_PAGES && Mapped(m.space, n) && Pde(m.space, n / ENTRIES) != 0 && DirOk(m.space, n / ENTRIES)
    requires m' == m.(space := SetPte(m.space, n, NotPresent(Pte(m.space, n))), loose := m.loose + {View(m.space)[n].frame})
    ensures ImageOk(m') && View(m'.space) == View(m.space) - {n} && Memory(m') == Memory(m) - {n}
  {
    hide SpaceOk, DirsOk, View, SetPte, Mapped, NotPresent, Pde, DirOk, KernelPage, FramesOf, MemOf;
    HasDirs(m);
    var v := View(m.space);
    MappedIn(m.space, n);
    OkView(m.space);
    UnmapOk(m.space, n);
    FramesRemoved(v, n);
    MemRemoved(v, m.frames, n);
  }

  lemma MappedIn(s: Space, n: nat)
    requires DirsOk(s) && n < USER_PAGES && Mapped(s, n)
    ensures n in View(s)
  {}

  lemma NotMapped(s: Space, n: nat)
    requires DirsOk(s) && n < USER_PAGES && n !in View(s)
    ensures !Mapped(s, n)
  {}

  /** Where the entry of page n is, and when the page is mapped. */
  lemma EntryFound(s: Space, n: nat)
    requires SpaceOk(s) && DirsOk(s) && n < USER_PAGES && DirOk(s, n / ENTRIES)
    ensures Pde(s, n / ENTRIES) == 0 ==> n !in View(s)
    ensures Pde(s, n / ENTRIES) != 0 ==>
      var pt := PdeGetPt(Pde(s, n / ENTRIES));
      && pt in s.tables && |s.tables[pt]| == ENTRIES && Pte(s, n) == s.tables[pt][n % ENTRIES]
      && (n in View(s) <==> Mapped(s, n)) && (Mapped(s, n) <==> Present(Pte(s, n)))
      && (n in View(s) ==> View(s)[n] == Mapping(PteGetPage(Pte(s, n)), Writable(Pte(s, n))))
  {
    FlagBits(0);
  }

  lemma MemRemoved(v: map<nat, Mapping>, frames: map<nat, seq<byte>>, n: nat)
    ensures MemOf(v - {n}, frames) == MemOf(v, frames) - {n}
  {}

  lemma NotThere(m: Image, n: nat)
    requires ImageOk(m) && n !in View(m.space)
    ensures View(m.space) - {n} == View(m.space) && Memory(m) - {n} == Memory(m)
  {
    var v := View(m.space);
    hide ImageOk, View;
  }

  lemma FramesRemoved(v: map<nat, Mapping>, n: nat)
    requires n in v && forall a, b :: a in v && b in v && v[a].frame == v[b].frame ==> a == b
    ensures FramesOf(v - {n}) == FramesOf(v) - {v[n].frame} && v[n].frame in FramesOf(v)
  {
    var v' := v - {n};
    forall f | f in FramesOf(v) && f != v[n].frame ensures f in FramesOf(v') {
      var k :| k in v && v[k].frame == f;
      assert k in v' && v'[k] == v[k];
    }
  }

  // ------------------------------------------------------- what is still to free

  ghost function TablesFrom(s: Space, d: nat): set<nat>
    requires DirsOk(s)
  {
    set e | d <= e < USER_DIRS && Pde(s, e) != 0 :: PdeGetPt(Pde(s, e))
  }

  ghost function FramesFrom(v: map<nat, Mapping>, n: nat): set<nat> { set k | k in v && k >= n :: v[k].frame }

  /** At first all the pages of the process are to be freed, and in the end none. */
  lemma AllToFree(m: Image) returns (v: map<nat, Mapping>)
    requires ImageOk(m)
    ensures var s := m.space;
      && SpaceOk(s) && DirsOk(s) && v == View(s) && m.userOthers + m.loose !! FramesOf(v)
      && m.kernelOthers !! s.tables.Keys && s.pd !in m.kernelOthers
      && m.kernelUsed == m.kernelOthers + TablesFrom(s, 0) + {s.pd} && TablesFrom(s, USER_DIRS) == {}
      && m.userUsed == m.userOthers + m.loose + FramesFrom(v, 0) && FramesFrom(v, USER_PAGES) == {}
      && m.frames.Keys == m.loose + FramesFrom(v, 0)
  {
    v := View(m.space);
    TablesFromStart(m.space);
    FramesFromStart(v);
    TablesFromEnd(m.space);
    FramesFromEnd(v);
    hide View, TablesFrom, FramesOf, FramesFrom;
  }

  lemma TablesFromStart(s: Space)
    requires SpaceOk(s)
    ensures s.tables.Keys == TablesFrom(s, 0) + {s.pd}
  {
    forall x | x in s.tables && x != s.pd ensures x in TablesFrom(s, 0) {
      var d :| 0 <= d < USER_DIRS && Pde(s, d) != 0 && PdeGetPt(Pde(s, d)) == x;
    }
    forall x | x in TablesFrom(s, 0) ensures x in s.tables {
      var d :| 0 <= d < USER_DIRS && Pde(s, d) != 0 && PdeGetPt(Pde(s, d)) == x;
      assert DirOk(s, d);
    }
  }

  lemma TablesFromEnd(s: Space)
    requires DirsOk(s)
    ensures TablesFrom(s, USER_DIRS) == {}
  {}

  lemma TablesStep(s: Space, d: nat)
    requires SpaceOk(s) && d < USER_DIRS
    ensures Pde(s, d) == 0 ==> TablesFrom(s, d) == TablesFrom(s, d + 1)
    ensures Pde(s, d) != 0 ==>
      && TablesFrom(s, d) == TablesFrom(s, d + 1) + {PdeGetPt(Pde(s, d))}
      && PdeGetPt(Pde(s, d)) !in TablesFrom(s, d + 1) && PdeGetPt(Pde(s, d)) != s.pd && PdeGetPt(Pde(s, d)) in s.tables
  {
    assert DirOk(s, d);
  }

  lemma FramesFromStart(v: map<nat, Mapping>)
    ensures FramesFrom(v, 0) == FramesOf(v)
  {}

  lemma FramesFromEnd(v: map<nat, Mapping>)
    requires forall k :: k in v ==> k < USER_PAGES
    ensures FramesFrom(v, USER_PAGES) == {}
  {}

  lemma FramesStep(v: map<nat, Mapping>, n: nat)
    requires forall a, b :: a in v && b in v && v[a].frame == v[b].frame ==> a == b
    ensures n !in v ==> FramesFrom(v, n) == FramesFrom(v, n + 1)
    ensures n in v ==> FramesFrom(v, n) == FramesFrom(v, n + 1) + {v[n].frame} && v[n].frame !in FramesFrom(v, n + 1) && v[n].frame in FramesOf(v)
  {}

  /** A directory entry is present just when it is not 0. */
  lemma DirPresent(s: Space, d: nat)
    requires SpaceOk(s) && d < USER_DIRS
    ensures Present(Pde(s, d)) <==> Pde(s, d) != 0
  {
    assert DirOk(s, d);
    FlagBits(0);
    if Pde(s, d) != 0 { PdeRoundTrip(PdeGetPt(Pde(s, d))); }
  }

  lemma TableAt(s: Space, d: nat)
    requires SpaceOk(s) && d < USER_DIRS && Pde(s, d) != 0
    ensures PdeGetPt(Pde(s, d)) in s.tables && TableOk(s.tables[PdeGetPt(Pde(s, d))])
  {
    assert DirOk(s, d);
  }

  lemma EntryAt(s: Space, d: nat, t: nat)
    requires SpaceOk(s) && d < USER_DIRS && Pde(s, d) != 0 && t < ENTRIES && PdeGetPt(Pde(s, d)) in s.tables && TableOk(s.tables[PdeGetPt(Pde(s, d))])
    ensures var e := s.tables[PdeGetPt(Pde(s, d))][t];
      && (Present(e) <==> d * ENTRIES + t in View(s))
      && (Present(e) ==> PteGetPage(e) == View(s)[d * ENTRIES + t].frame)
  {
    var n := d * ENTRIES + t;
    assert n / ENTRIES == d && n % ENTRIES == t;
    assert DirOk(s, d);
    hide PdeGetPt, Present, PteGetPage;
  }

  /** Without a page table no page of its span is mapped. */
  lemma FramesSkip(s: Space, d: nat)
    requires SpaceOk(s) && d < USER_DIRS
    ensures Pde(s, d) == 0 ==> FramesFrom(View(s), d * ENTRIES) == FramesFrom(View(s), (d + 1) * ENTRIES)
  {
    if Pde(s, d) == 0 {
      FlagBits(0);
      forall n | n in View(s) ensures !(d * ENTRIES <= n < (d + 1) * ENTRIES) {
        assert n / ENTRIES == d ==> Pte(s, n) == 0;
      }
    }
  }
}
