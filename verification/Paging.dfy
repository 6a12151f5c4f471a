/**
 * Virtual addresses and page table entries (threads/vaddr.h and
 * threads/pte.h): the bit-field expressions, and what they come to.
 */
module Paging {
  import opened Bytes
  import opened Words

  const PAGE_SIZE := 4096
  const PHYS_BASE := 0xC000_0000

  /** Bits 0 to 11 and bits 12 to 21 of an address. */
  const PGMASK := 0x0000_0FFF
  const PTMASK := 0x003F_F000

  const PTE_P := 1
  const PTE_W := 2
  const PTE_U := 4
  const PTE_ADDR := 0xFFFF_F000

  function PgOfs(va: nat): nat { And(va, PGMASK) }
  function PtNo(va: nat): nat { And(va, PTMASK) / PAGE_SIZE }
  function PdNo(va: nat): nat { va / 0x40_0000 }

  function Vtop(va: nat): nat
    requires va >= PHYS_BASE
  {
    va - PHYS_BASE
  }

  function Ptov(pa: nat): nat { pa + PHYS_BASE }

  function PdeCreate(pt: nat): nat
    requires pt >= PHYS_BASE
  {
    Or(Or(Or(Vtop(pt), PTE_U), PTE_P), PTE_W)
  }

  function PdeGetPt(pde: nat): nat { Ptov(And(pde, PTE_ADDR)) }

  function PteCreateKernel(page: nat, writable: bool): nat
    requires page >= PHYS_BASE
  {
    Or(Or(Vtop(page), PTE_P), if writable then PTE_W else 0)
  }

  function PteCreateUser(page: nat, writable: bool): nat
    requires page >= PHYS_BASE
  {
    Or(PteCreateKernel(page, writable), PTE_U)
  }

  function PteGetPage(pte: nat): nat { Ptov(And(pte, PTE_ADDR)) }

  predicate Present(pte: nat) { And(pte, PTE_P) != 0 }
  predicate Writable(pte: nat) { And(pte, PTE_W) != 0 }
  predicate User(pte: nat) { And(pte, PTE_U) != 0 }

  // --------------------------------------------------------- masks are arithmetic

  // Shifts and low bits, one binary digit at a time.

  function Shr(x: nat, n: nat): nat { if n == 0 then x else Shr(x / 2, n - 1) }
  function Shl(x: nat, n: nat): nat { if n == 0 then x else 2 * Shl(x, n - 1) }
  function Low(x: nat, n: nat): nat { if n == 0 then 0 else x % 2 + 2 * Low(x / 2, n - 1) }
  function Ones(n: nat): nat { if n == 0 then 0 else 1 + 2 * Ones(n - 1) }

  lemma {:induction false} AndOnes(x: nat, n: nat)
    ensures And(x, Ones(n)) == Low(x, n)
  {
    if n > 0 {
      AndOnes(x / 2, n - 1);
      if x == 0 { LowZero(n); } else { assert Ones(n) % 2 == 1 && Ones(n) / 2 == Ones(n - 1); }
    }
  }

  lemma {:induction false} LowZero(n: nat)
    ensures Low(0, n) == 0
  {
    if n > 0 { LowZero(n - 1); }
  }

  lemma AndEven(x: nat, h: nat)
    ensures And(x, 2 * h) == 2 * And(x / 2, h)
  {
    if x > 0 && h > 0 {
      assert (2 * h) % 2 == 0 && (2 * h) / 2 == h;
      assert x % 2 * ((2 * h) % 2) == 0;
    } else if h > 0 {
      assert x / 2 == 0;
    }
  }

  /** A mask of higher bits looks at the shifted word. */
  lemma {:induction false} AndShl(x: nat, c: nat, n: nat)
    ensures And(x, Shl(c, n)) == Shl(And(Shr(x, n), c), n)
  {
    if n > 0 {
      AndEven(x, Shl(c, n - 1));
      AndShl(x / 2, c, n - 1);
    }
  }

  /** Flags go into bits that an aligned address leaves clear. */
  lemma {:induction false} OrFlags(a: nat, f: nat, n: nat)
    requires Low(a, n) == 0 && f < Shl(1, n)
    ensures Or(a, f) == a + f
  {
    if a != 0 && f != 0 {
      OrFlags(a / 2, f / 2, n - 1);
    }
  }

  lemma {:induction false} ShrTwice(x: nat, a: nat, b: nat)
    ensures Shr(x, a + b) == Shr(Shr(x, a), b)
  {
    if a > 0 { ShrTwice(x / 2, a - 1, b); }
  }

  lemma {:induction false} LowTwice(x: nat, a: nat, b: nat)
    ensures Low(x, a + b) == Low(x, a) + Shl(Low(Shr(x, a), b), a)
  {
    if a > 0 { LowTwice(x / 2, a - 1, b); }
  }

  lemma {:induction false} ShlTwice(x: nat, a: nat, b: nat)
    ensures Shl(x, a + b) == Shl(Shl(x, a), b)
  {
    if b > 0 { ShlTwice(x, a, b - 1); }
  }

  /** Shifting by n divides and multiplies by c. */
  ghost predicate ShiftsBy(n: nat, c: nat) {
    c > 0 && forall x: nat :: Shr(x, n) == x / c && Low(x, n) == x % c && Shl(x, n) == c * x
  }

  lemma ShiftBy1()
    ensures ShiftsBy(1, 2)
  {
    forall x: nat ensures Shr(x, 1) == x / 2 && Low(x, 1) == x % 2 && Shl(x, 1) == 2 * x {
      assert Shr(x / 2, 0) == x / 2 && Low(x / 2, 0) == 0 && Shl(x, 0) == x;
    }
  }

  lemma ShiftBy2()
    ensures ShiftsBy(2, 4)
  {
    ShiftBy1();
    forall x: nat ensures Shr(x, 2) == x / 4 && Low(x, 2) == x % 4 && Shl(x, 2) == 4 * x {
      Compose(x, 1, 1);
      hide Shr, Low, Shl;
    }
  }

  lemma ShiftBy4()
    ensures ShiftsBy(4, 16)
  {
    ShiftBy2();
    forall x: nat ensures Shr(x, 4) == x / 16 && Low(x, 4) == x % 16 && Shl(x, 4) == 16 * x {
      Compose(x, 2, 2);
      hide Shr, Low, Shl;
    }
  }

  lemma ShiftBy8()
    ensures ShiftsBy(8, 256)
  {
    ShiftBy4();
    forall x: nat ensures Shr(x, 8) == x / 256 && Low(x, 8) == x % 256 && Shl(x, 8) == 256 * x {
      Compose(x, 4, 4);
      hide Shr, Low, Shl;
    }
  }

  lemma ShiftBy10()
    ensures ShiftsBy(10, 1024)
  {
    ShiftBy8();
    ShiftBy2();
    forall x: nat ensures Shr(x, 10) == x / 1024 && Low(x, 10) == x % 1024 && Shl(x, 10) == 1024 * x {
      Compose(x, 8, 2);
      hide Shr, Low, Shl;
    }
  }

  lemma ShiftBy12()
    ensures ShiftsBy(12, PAGE_SIZE)
  {
    ShiftBy8();
    ShiftBy4();
    forall x: nat ensures Shr(x, 12) == x / PAGE_SIZE && Low(x, 12) == x % PAGE_SIZE && Shl(x, 12) == PAGE_SIZE * x {
      Compose(x, 8, 4);
      hide Shr, Low, Shl;
    }
  }

  lemma Compose(x: nat, a: nat, b: nat)
    ensures Shr(x, a + b) == Shr(Shr(x, a), b) && Shl(x, a + b) == Shl(Shl(x, a), b)
    ensures Low(x, a + b) == Low(x, a) + Shl(Low(Shr(x, a), b), a)
  {
    ShrTwice(x, a, b);
    ShlTwice(x, a, b);
    LowTwice(x, a, b);
  }

  lemma {:induction false} LowAll(x: nat, n: nat)
    requires x < Shl(1, n)
    ensures Low(x, n) == x
  {
    if n > 0 { LowAll(x / 2, n - 1); }
  }

  lemma OnesValues()
    ensures Ones(1) == 1 && Ones(10) == 1023 && Ones(12) == PGMASK && Ones(20) == 0xF_FFFF
  {
    assert Ones(4) == 15;
    assert Ones(8) == 255;
    assert Ones(12) == 4095;
    assert Ones(16) == 0xFFFF;
  }

  // ---------------------------------------------------- the expressions, in numbers

  lemma PgOfsIs(va: nat)
    ensures PgOfs(va) == va % PAGE_SIZE
  {
    OnesValues();
    AndOnes(va, 12);
    ShiftBy12();
  }

  lemma PtNoIs(va: nat)
    ensures PtNo(va) == va / PAGE_SIZE % 1024
  {
    hide Shr, Shl, Low, Ones, And;
    OnesValues();
    ShiftBy12();
    ShiftBy10();
    assert Shl(1023, 12) == PTMASK;
    AndShl(va, 1023, 12);
    AndOnes(va / PAGE_SIZE, 10);
  }

  lemma AddrBits(w: nat)
    requires w < TWO32
    ensures And(w, PTE_ADDR) == w - w % PAGE_SIZE
  {
    hide Shr, Shl, Low, Ones, And;
    OnesValues();
    ShiftBy12();
    ShiftBy8();
    assert Shl(0xF_FFFF, 12) == PTE_ADDR;
    AndShl(w, 0xF_FFFF, 12);
    ShlTwice(1, 12, 8);
    LowAll(w / PAGE_SIZE, 20);
    AndOnes(w / PAGE_SIZE, 20);
  }

  lemma FlagBits(w: nat)
    ensures Present(w) <==> w % 2 == 1
    ensures Writable(w) <==> w / 2 % 2 == 1
    ensures User(w) <==> w / 4 % 2 == 1
  {
    hide Shr, Shl, Low, Ones, And;
    OnesValues();
    ShiftBy1();
    AndOnes(w, 1);
    AndEven(w, 1);
    AndOnes(w / 2, 1);
    AndEven(w, 2);
    AndEven(w / 2, 1);
    AndOnes(w / 4, 1);
    assert w / 2 / 2 == w / 4;
  }

  predicate KernelPage(a: nat) { PHYS_BASE <= a < TWO32 && a % PAGE_SIZE == 0 }

  /** The word for a page: its physical address, with bits 0 and 2, and bit 1 if it may be written. */
  lemma PteIs(page: nat, writable: bool)
    requires KernelPage(page)
    ensures PteCreateUser(page, writable) == page - PHYS_BASE + 1 + 4 + if writable then 2 else 0
  {
    hide Or, And;
    var a, w := Vtop(page), if writable then PTE_W else 0;
    assert a % PAGE_SIZE == 0;
    OrAligned(a, PTE_P);
    if writable { OrWriteOdd(a + 1); } else { OrNothing(a + 1); }
    OrUser(a + 1 + w);
  }

  /** What an entry for a page holds: its frame, that it is present and the user's, and whether it may be written. */
  lemma PteRoundTrip(page: nat, writable: bool)
    requires KernelPage(page)
    ensures var e := PteCreateUser(page, writable);
      && e < TWO32 && e != 0 && Present(e) && User(e) && (Writable(e) <==> writable) && PteGetPage(e) == page
  {
    hide Or, And, PteCreateUser;
    PteIs(page, writable);
    var e := PteCreateUser(page, writable);
    FlagBits(e);
    AddrBits(e);
  }

  lemma OrNothing(a: nat)
    ensures Or(a, 0) == a
  {}

  lemma OrHalf(a: nat, b: nat)
    requires a > 0 && b > 0
    ensures Or(a, b) == (if a % 2 == 1 || b % 2 == 1 then 1 else 0) + 2 * Or(a / 2, b / 2)
  {}

  lemma OrUser(a: nat)
    requires a % 8 == 1 || a % 8 == 3
    ensures Or(a, PTE_U) == a + PTE_U
  {
    hide Or;
    var q := a / 8;
    assert a / 2 == 4 * q + a % 8 / 2 && a / 4 == 2 * q;
    OrHalf(a, 4);
    if a / 2 == 0 {
      OrZero(2);
    } else {
      OrHalf(a / 2, 2);
      OrLow(2 * q);
    }
  }

  lemma OrZero(b: nat)
    ensures Or(0, b) == b
  {}

  lemma OrLow(a: nat)
    requires a % 2 == 0
    ensures Or(a, 1) == a + 1
  {
    hide Or, Low, Shl, Shr;
    ShiftBy1();
    OrFlags(a, 1, 1);
  }

  /** The word for a page table: its physical address, with bits 0, 1 and 2. */
  lemma PdeIs(pt: nat)
    requires KernelPage(pt)
    ensures PdeCreate(pt) == pt - PHYS_BASE + 1 + 2 + 4
  {
    hide Or;
    DirFlags(Vtop(pt));
  }

  /** What a directory entry for a page table holds: the table, and that it is present, the user's and writable. */
  lemma PdeRoundTrip(pt: nat)
    requires KernelPage(pt)
    ensures var e := PdeCreate(pt);
      e < TWO32 && e != 0 && Present(e) && User(e) && Writable(e) && PdeGetPt(e) == pt
  {
    hide Or, And, PdeCreate;
    PdeIs(pt);
    FlagBits(PdeCreate(pt));
    AddrBits(PdeCreate(pt));
  }

  lemma DirFlags(a: nat)
    requires a % PAGE_SIZE == 0
    ensures Or(Or(Or(a, PTE_U), PTE_P), PTE_W) == a + 7
  {
    hide Or;
    OrAligned(a, PTE_U);
    var k := a / PAGE_SIZE;
    assert a == PAGE_SIZE * k;
    OrPresent(PAGE_SIZE * k + 4);
    OrWriteOdd(PAGE_SIZE * k + 5);
  }

  lemma OrAligned(a: nat, f: nat)
    requires a % PAGE_SIZE == 0 && f < PAGE_SIZE
    ensures Or(a, f) == a + f
  {
    hide Or, Low, Shl, Shr;
    ShiftBy12();
    OrFlags(a, f, 12);
  }

  lemma OrPresent(a: nat)
    requires a % 4 == 0
    ensures Or(a, PTE_P) == a + 1
  {
    hide Or, Low, Shl, Shr;
    ShiftBy2();
    OrFlags(a, PTE_P, 2);
  }

  lemma OrWriteOdd(a: nat)
    requires a % 4 == 1
    ensures Or(a, PTE_W) == a + 2
  {
    OrHalf(a, PTE_W);
    OrLow(a / 2);
  }

  /** `pte & ~PTE_P`. */
  function NotPresent(pte: nat): nat { And(pte, 0xFFFF_FFFE) }

  lemma NotPresentIs(w: nat)
    requires w < TWO32
    ensures !Present(NotPresent(w)) && NotPresent(w) < TWO32
  {
    AndEven(w, 0x7FFF_FFFF);
    AndBound(w / 2, 0x7FFF_FFFF);
    FlagBits(NotPresent(w));
  }
}
