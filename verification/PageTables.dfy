/**
 * A two-level page directory (userprog/pagedir.c) as a value: the words
 * of the directory and of the page tables, by kernel address. A user
 * page is known by its number; its entry is found through the directory.
 */
module PageTables {
  import opened Bytes
  import opened Options
  import opened Paging

  const ENTRIES := 1024

  /** Directory entries below pd_no (PHYS_BASE), and the user pages they span. */
  const USER_DIRS := 768
  const USER_PAGES := 768 * 1024

  datatype Space = Space(pd: nat, tables: map<nat, seq<nat>>)

  datatype Mapping = Mapping(frame: nat, writable: bool)

  predicate TableOk(t: seq<nat>) { |t| == ENTRIES && forall i :: 0 <= i < ENTRIES ==> t[i] < TWO32 }

  predicate Shaped(s: Space) { s.pd in s.tables && forall x :: x in s.tables ==> TableOk(s.tables[x]) }

  function Pde(s: Space, d: nat): nat
    requires Shaped(s) && d < ENTRIES
  {
    s.tables[s.pd][d]
  }

  /** The directory entry is absent, or that of a page table. */
  predicate DirOk(s: Space, d: nat)
    requires Shaped(s) && d < ENTRIES
  {
    var e := Pde(s, d);
    e == 0 || (KernelPage(PdeGetPt(e)) && e == PdeCreate(PdeGetPt(e)) && PdeGetPt(e) in s.tables && PdeGetPt(e) != s.pd)
  }

  ghost predicate DirsOk(s: Space) {
    && Shaped(s) && (forall d :: 0 <= d < USER_DIRS ==> DirOk(s, d))
    && (forall d, e :: 0 <= d < USER_DIRS && 0 <= e < USER_DIRS && Pde(s, d) != 0 && Pde(s, e) != 0 && PdeGetPt(Pde(s, d)) == PdeGetPt(Pde(s, e)) ==> d == e)
    && (forall x :: x in s.tables && x != s.pd ==> exists d :: 0 <= d < USER_DIRS && Pde(s, d) != 0 && PdeGetPt(Pde(s, d)) == x)
  }

  /** The page table entry of user page n; 0 where there is no page table. */
  function Pte(s: Space, n: nat): nat
    requires DirsOk(s) && n < USER_PAGES
  {
    var e := Pde(s, n / ENTRIES);
    if e == 0 then 0 else assert DirOk(s, n / ENTRIES); s.tables[PdeGetPt(e)][n % ENTRIES]
  }

  predicate Mapped(s: Space, n: nat)
    requires DirsOk(s)
  {
    n < USER_PAGES && Present(Pte(s, n))
  }

  /** User code may use the pages that are mapped. */
  ghost predicate AllUser(s: Space)
    requires DirsOk(s)
  {
    forall n :: Mapped(s, n) ==> User(Pte(s, n))
  }

  ghost predicate SpaceOk(s: Space) {
    && DirsOk(s) && AllUser(s)
    && (forall n :: Mapped(s, n) ==> KernelPage(PteGetPage(Pte(s, n))))
    && (forall n, m :: Mapped(s, n) && Mapped(s, m) && PteGetPage(Pte(s, n)) == PteGetPage(Pte(s, m)) ==> n == m)
  }

  /** The translation that the tables stand for. */
  ghost function View(s: Space): map<nat, Mapping>
    requires DirsOk(s)
  {
    map n | 0 <= n < USER_PAGES && Mapped(s, n) :: Mapping(PteGetPage(Pte(s, n)), Writable(Pte(s, n)))
  }

  /** The directory entries that have a page table. */
  ghost function Dirs(s: Space): set<nat>
    requires Shaped(s)
  {
    set d | 0 <= d < USER_DIRS && Pde(s, d) != 0
  }

  lemma {:induction false} ImageSize(m: map<nat, nat>)
    requires forall a, b :: a in m && b in m && m[a] == m[b] ==> a == b
    ensures |m.Values| == |m.Keys|
    decreases |m.Keys|
  {
    if a :| a in m {
      var m' := m - {a};
      assert m'.Keys == m.Keys - {a};
      ImageSize(m');
      forall x | x in m.Values && x != m[a] ensures x in m'.Values {
        var k :| k in m && m[k] == x;
        assert k in m' && m'[k] == x;
      }
      assert m'.Values == m.Values - {m[a]} && m[a] in m.Values;
    } else {
      assert m.Values == {} && m.Keys == {};
    }
  }

  /** There is the directory, and one page table for each of its entries. */
  lemma TablesCount(s: Space)
    requires DirsOk(s)
    ensures |s.tables.Keys| == 1 + |Dirs(s)|
  {
    var m := map d | d in Dirs(s) :: PdeGetPt(Pde(s, d));
    assert m.Keys == Dirs(s);
    ImageSize(m);
    forall x | x in s.tables && x != s.pd ensures x in m.Values {
      var d :| 0 <= d < USER_DIRS && Pde(s, d) != 0 && PdeGetPt(Pde(s, d)) == x;
      assert d in m && m[d] == x;
    }
    forall x | x in m.Values ensures x in s.tables && x != s.pd {
      var d :| d in m && m[d] == x;
      assert DirOk(s, d);
    }
    assert s.tables.Keys - {s.pd} == m.Values;
  }

  // ------------------------------------------------------------ a new page table

  function ZeroTable(): (t: seq<nat>)
    ensures TableOk(t) && forall i :: 0 <= i < ENTRIES ==> t[i] == 0
  {
    seq(ENTRIES, _ => 0)
  }

  function AddTable(s: Space, d: nat, pt: nat): Space
    requires Shaped(s) && d < ENTRIES && pt >= PHYS_BASE
  {
    s.(tables := s.tables[s.pd := Updated(s.tables[s.pd], d, PdeCreate(pt))][pt := ZeroTable()])
  }

  lemma AddTableDirs(s: Space, d: nat, pt: nat)
    requires DirsOk(s) && d < USER_DIRS && Pde(s, d) == 0 && KernelPage(pt) && pt !in s.tables
    ensures DirsOk(AddTable(s, d, pt))
    ensures forall c :: 0 <= c < USER_DIRS ==> Pde(AddTable(s, d, pt), c) == if c == d then PdeCreate(pt) else Pde(s, c)
    ensures PdeCreate(pt) != 0 && PdeGetPt(PdeCreate(pt)) == pt
  {
    var s' := AddTable(s, d, pt);
    PdeRoundTrip(pt);
    hide PdeCreate, PdeGetPt, KernelPage;
    forall c | 0 <= c < USER_DIRS ensures DirOk(s', c) { assert DirOk(s, c); }
    forall b, c | 0 <= b < USER_DIRS && 0 <= c < USER_DIRS && Pde(s', b) != 0 && Pde(s', c) != 0 && PdeGetPt(Pde(s', b)) == PdeGetPt(Pde(s', c))
      ensures b == c
    {
      assert DirOk(s, b) && DirOk(s, c);
    }
    forall x | x in s'.tables && x != s'.pd ensures exists c :: 0 <= c < USER_DIRS && Pde(s', c) != 0 && PdeGetPt(Pde(s', c)) == x {
      if x == pt {
        assert Pde(s', d) == PdeCreate(pt);
      } else {
        var c :| 0 <= c < USER_DIRS && Pde(s, c) != 0 && PdeGetPt(Pde(s, c)) == x;
        assert Pde(s', c) == Pde(s, c);
      }
    }
  }

  /** A new page table is empty: it translates nothing. */
  lemma AddTablePte(s: Space, d: nat, pt: nat, n: nat)
    requires DirsOk(s) && d < USER_DIRS && Pde(s, d) == 0 && KernelPage(pt) && pt !in s.tables && n < USER_PAGES
    requires DirsOk(AddTable(s, d, pt))
    ensures Pte(AddTable(s, d, pt), n) == Pte(s, n)
  {
    PdeRoundTrip(pt);
    hide PdeCreate, PdeGetPt, KernelPage;
    assert DirOk(s, n / ENTRIES);
  }

  lemma AddTableOk(s: Space, d: nat, pt: nat)
    requires SpaceOk(s) && d < USER_DIRS && Pde(s, d) == 0 && KernelPage(pt) && pt !in s.tables
    ensures SpaceOk(AddTable(s, d, pt)) && View(AddTable(s, d, pt)) == View(s) && Dirs(AddTable(s, d, pt)) == Dirs(s) + {d}
  {
    AddTableDirs(s, d, pt);
    assert Dirs(AddTable(s, d, pt)) == Dirs(s) + {d};
    forall n | 0 <= n < USER_PAGES ensures Pte(AddTable(s, d, pt), n) == Pte(s, n) { AddTablePte(s, d, pt, n); }
    hide DirsOk, Pte, AddTable, KernelPage, PteGetPage;
  }

  // ------------------------------------------------------------------- entries

  function Updated(t: seq<nat>, i: nat, e: nat): (r: seq<nat>)
    requires i < |t|
    ensures |r| == |t|
  {
    t[i := e]
  }

  function SetPte(s: Space, n: nat, e: nat): (s': Space)
    requires DirsOk(s) && n < USER_PAGES && Pde(s, n / ENTRIES) != 0 && DirOk(s, n / ENTRIES)
    ensures s'.pd == s.pd
  {
    var pt := PdeGetPt(Pde(s, n / ENTRIES));
    s.(tables := s.tables[pt := Updated(s.tables[pt], n % ENTRIES, e)])
  }

  lemma SetPteDirs(s: Space, n: nat, e: nat)
    requires DirsOk(s) && n < USER_PAGES && Pde(s, n / ENTRIES) != 0 && e < TWO32
    ensures DirsOk(SetPte(s, n, e)) && SetPte(s, n, e).tables.Keys == s.tables.Keys
    ensures forall c :: 0 <= c < USER_DIRS ==> Pde(SetPte(s, n, e), c) == Pde(s, c)
  {
    var s' := SetPte(s, n, e);
    assert DirOk(s, n / ENTRIES);
    hide PdeCreate, PdeGetPt, KernelPage;
    assert forall c :: 0 <= c < ENTRIES ==> Pde(s', c) == Pde(s, c);
    forall c | 0 <= c < USER_DIRS ensures DirOk(s', c) { assert DirOk(s, c); }
    forall x | x in s'.tables && x != s'.pd ensures exists c :: 0 <= c < USER_DIRS && Pde(s', c) != 0 && PdeGetPt(Pde(s', c)) == x {
      var c :| 0 <= c < USER_DIRS && Pde(s, c) != 0 && PdeGetPt(Pde(s, c)) == x;
      assert Pde(s', c) == Pde(s, c);
    }
  }

  /** Only the entry of page n changes. */
  lemma SetPteAt(s: Space, n: nat, e: nat, m: nat)
    requires DirsOk(s) && n < USER_PAGES && m < USER_PAGES && Pde(s, n / ENTRIES) != 0 && e < TWO32 && DirsOk(SetPte(s, n, e))
    ensures Pte(SetPte(s, n, e), m) == if m == n then e else Pte(s, m)
  {
    SetPteDirs(s, n, e);
    hide PdeCreate, PdeGetPt, KernelPage;
    assert DirOk(s, n / ENTRIES) && DirOk(s, m / ENTRIES);
    assert m / ENTRIES == n / ENTRIES && m % ENTRIES == n % ENTRIES ==> m == n;
  }

  lemma SetPteAll(s: Space, n: nat, e: nat)
    requires DirsOk(s) && n < USER_PAGES && Pde(s, n / ENTRIES) != 0 && DirOk(s, n / ENTRIES) && e < TWO32
    ensures DirsOk(SetPte(s, n, e)) && SetPte(s, n, e).tables.Keys == s.tables.Keys && Dirs(SetPte(s, n, e)) == Dirs(s)
    ensures forall m :: 0 <= m < USER_PAGES ==> Pte(SetPte(s, n, e), m) == if m == n then e else Pte(s, m)
  {
    SetPteDirs(s, n, e);
    hide DirsOk, SetPte, Pte, Pde, DirOk;
    forall m | 0 <= m < USER_PAGES ensures Pte(SetPte(s, n, e), m) == if m == n then e else Pte(s, m) { SetPteAt(s, n, e, m); }
  }

  lemma DirAt(s: Space, n: nat)
    requires DirsOk(s) && n < USER_PAGES
    ensures DirOk(s, n / ENTRIES)
  {}

  /** What one new entry does to the translation. */
  lemma EntrySet(s: Space, s': Space, n: nat, e: nat)
    requires DirsOk(s) && DirsOk(s') && n < USER_PAGES
    requires forall m :: 0 <= m < USER_PAGES ==> Pte(s', m) == if m == n then e else Pte(s, m)
    ensures View(s') == if Present(e) then View(s)[n := Mapping(PteGetPage(e), Writable(e))] else View(s) - {n}
  {
    hide DirsOk, Pte, PteGetPage, Present, Writable;
    assert forall m :: 0 <= m < USER_PAGES && m != n ==> (Mapped(s', m) <==> Mapped(s, m));
    assert Mapped(s', n) <==> Present(e);
  }

  /** SpaceOk in terms of the translation. */
  lemma ViewOk(s: Space)
    requires DirsOk(s) && AllUser(s)
    requires forall n :: n in View(s) ==> KernelPage(View(s)[n].frame)
    requires forall n, m :: n in View(s) && m in View(s) && View(s)[n].frame == View(s)[m].frame ==> n == m
    ensures SpaceOk(s)
  {
    hide DirsOk, Pte, PteGetPage, Present, Writable, KernelPage, AllUser;
    assert forall n :: Mapped(s, n) ==> n in View(s) && View(s)[n].frame == PteGetPage(Pte(s, n));
  }

  lemma OkView(s: Space)
    requires SpaceOk(s)
    ensures forall n :: n in View(s) ==> KernelPage(View(s)[n].frame)
    ensures forall n, m :: n in View(s) && m in View(s) && View(s)[n].frame == View(s)[m].frame ==> n == m
  {
    hide DirsOk, Pte, PteGetPage, Present, Writable, KernelPage;
  }

  lemma UserSet(s: Space, s': Space, n: nat, e: nat)
    requires DirsOk(s) && DirsOk(s') && AllUser(s) && (Present(e) ==> User(e))
    requires forall m :: 0 <= m < USER_PAGES ==> Pte(s', m) == if m == n then e else Pte(s, m)
    ensures AllUser(s')
  {
    hide DirsOk, Pte, Present, User;
    forall m | Mapped(s', m) ensures User(Pte(s', m)) { assert m != n ==> Mapped(s, m); }
  }

  /** Mapping a page that was not mapped, to a frame that no page was mapped to. */
  lemma MapOk(s: Space, n: nat, frame: nat, writable: bool)
    requires SpaceOk(s) && n < USER_PAGES && Pde(s, n / ENTRIES) != 0 && !Mapped(s, n) && KernelPage(frame)
    requires forall m :: m in View(s) ==> View(s)[m].frame != frame
    ensures DirOk(s, n / ENTRIES)
    ensures var s' := SetPte(s, n, PteCreateUser(frame, writable));
      SpaceOk(s') && View(s') == View(s)[n := Mapping(frame, writable)] && s'.tables.Keys == s.tables.Keys && Dirs(s') == Dirs(s)
  {
    DirAt(s, n);
    OkView(s);
    hide DirsOk, Pte, SetPte, KernelPage, PteGetPage, PteCreateUser, Present, Writable, View, Mapped, DirOk;
    var e := PteCreateUser(frame, writable);
    PteRoundTrip(frame, writable);
    SetPteAll(s, n, e);
    UserSet(s, SetPte(s, n, e), n, e);
    EntrySet(s, SetPte(s, n, e), n, e);
    ViewOk(SetPte(s, n, e));
  }

  lemma MappedEntry(s: Space, n: nat)
    requires DirsOk(s) && n < USER_PAGES && Mapped(s, n)
    ensures DirOk(s, n / ENTRIES) && Pde(s, n / ENTRIES) != 0 && Pte(s, n) < TWO32
  {
    FlagBits(0);
    assert DirOk(s, n / ENTRIES);
    hide PdeGetPt, PdeCreate;
  }

  /** Clearing the present bit removes one page from the translation. */
  lemma UnmapOk(s: Space, n: nat)
    requires SpaceOk(s) && n < USER_PAGES && Mapped(s, n)
    ensures Pde(s, n / ENTRIES) != 0 && DirOk(s, n / ENTRIES)
    ensures var s' := SetPte(s, n, NotPresent(Pte(s, n)));
      SpaceOk(s') && View(s') == View(s) - {n} && s'.tables.Keys == s.tables.Keys
  {
    MappedEntry(s, n);
    OkView(s);
    hide DirOk, DirsOk, Pte, SetPte, KernelPage, PteGetPage, Present, Writable, NotPresent, View, Mapped;
    var w := Pte(s, n);
    var e := NotPresent(w);
    NotPresentIs(w);
    SetPteAll(s, n, e);
    UserSet(s, SetPte(s, n, e), n, e);
    EntrySet(s, SetPte(s, n, e), n, e);
    ViewOk(SetPte(s, n, e));
  }

  // ------------------------------------------------------ what the processor does

  /**
   * How the processor translates an address that user code uses: through
   * the words of the directory and of the page table, whose bits 0, 1 and
   * 2 say present, writable and user. The kernel address of the byte, and
   * whether it may be written; nothing when it faults.
   */
  function Walk(s: Space, va: nat): Option<(nat, bool)>
    requires Shaped(s) && va < TWO32
  {
    var pde := s.tables[s.pd][va / 0x40_0000];
    var pt := pde / 4096 * 4096 + PHYS_BASE;
    if pde % 2 == 0 || pde / 4 % 2 == 0 || pt !in s.tables then None
    else
      var pte := s.tables[pt][va / 4096 % 1024];
      if pte % 2 == 0 || pte / 4 % 2 == 0 then None
      else Some((pte / 4096 * 4096 + PHYS_BASE + va % 4096, pde / 2 % 2 == 1 && pte / 2 % 2 == 1))
  }

  lemma PdeBits(s: Space, d: nat)
    requires DirsOk(s) && d < USER_DIRS
    ensures var e := Pde(s, d);
      if e == 0 then e % 2 == 0
      else e % 2 == 1 && e / 4 % 2 == 1 && e / 2 % 2 == 1 && PdeGetPt(e) == e / 4096 * 4096 + PHYS_BASE && PdeGetPt(e) in s.tables
  {
    var e := Pde(s, d);
    assert DirOk(s, d);
    if e != 0 {
      hide PdeGetPt, PdeCreate;
      PdeIs(PdeGetPt(e));
    }
  }

  /** The processor finds just the pages of the translation, each byte where it is, and lets them be written as it says. */
  lemma WalkIs(s: Space, va: nat)
    requires SpaceOk(s) && va < PHYS_BASE
    ensures var n := va / PAGE_SIZE;
      Walk(s, va) == if n in View(s) then Some((View(s)[n].frame + va % PAGE_SIZE, View(s)[n].writable)) else None
  {
    var n, d := va / PAGE_SIZE, va / 0x40_0000;
    assert n / ENTRIES == d && n < USER_PAGES && d < USER_DIRS;
    PdeBits(s, d);
    FlagBits(0);
    if Pde(s, d) != 0 {
      var e := Pte(s, n);
      FlagBits(e);
      AddrBits(e);
    }
    hide DirsOk, PdeGetPt, Present, Writable, User, KernelPage;
  }
}
