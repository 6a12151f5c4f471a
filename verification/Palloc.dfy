/** The page allocator (threads/palloc.c): two pools of pages with a used map each. */
module Palloc {
  import opened Bytes
  import opened Bitmaps

  const PGSIZE := 4096

  ghost predicate HasRun(bits: seq<bool>, cnt: nat) { exists i: nat :: IsRun(bits, i, cnt, false) }

  /** cnt numbers from p on. */
  function Span(p: nat, cnt: nat): (s: set<nat>)
    ensures forall x :: x in s <==> p <= x < p + cnt
  {
    if cnt == 0 then {} else Span(p, cnt - 1) + {p + cnt - 1}
  }

  /** A pool of pages that starts at base; base and all its pages are addresses. */
  class Pool {
    const base: nat
    const used: Bitmap

    ghost predicate Valid() { used.Valid() && base > 0 && base % PGSIZE == 0 && base + PGSIZE * used.bitCnt <= TWO32 }

    constructor (base: nat, pageCnt: nat)
      requires base > 0 && base % PGSIZE == 0 && base + PGSIZE * pageCnt <= TWO32
      ensures Valid() && this.base == base && used.bitCnt == pageCnt && fresh(used) && fresh(used.words)
      ensures used.Bits() == seq(pageCnt, _ => false)
    {
      this.base := base;
      used := new Bitmap(pageCnt);
    }

    /** palloc_get_multiple: the first run of free pages, or 0. */
    method GetMultiple(cnt: nat) returns (pages: nat)
      requires Valid()
      modifies used.words
      ensures cnt == 0 ==> pages == 0
      ensures pages == 0 ==> used.Bits() == old(used.Bits())
      ensures cnt > 0 ==> (pages != 0 <==> HasRun(old(used.Bits()), cnt))
      ensures pages != 0 ==> exists p: nat ::
        && pages == base + PGSIZE * p && IsRun(old(used.Bits()), p, cnt, false)
        && used.Bits() == SetRange(old(used.Bits()), p, cnt, true)
    {
      if cnt == 0 { return 0; }
      var r := used.ScanAndFlip(0, cnt, false);
      match r
      case Found(idx) => pages := base + PGSIZE * idx;
      case BitmapError => pages := 0;
    }

    /** palloc_free_multiple, for pages of this pool that are in use. */
    method FreeMultiple(pages: nat, cnt: nat)
      requires Valid() && pages % PGSIZE == 0
      requires pages != 0 ==> base <= pages && IsRun(used.Bits(), (pages - base) / PGSIZE, cnt, true)
      modifies used.words
      ensures used.Bits() == if pages == 0 then old(used.Bits()) else SetRange(old(used.Bits()), (pages - base) / PGSIZE, cnt, false)
    {
      if pages == 0 || cnt == 0 {
        assert pages != 0 ==> used.Bits() == SetRange(used.Bits(), (pages - base) / PGSIZE, 0, false);
        return;
      }
      var pageIdx := pages / PGSIZE - base / PGSIZE;
      assert pageIdx == (pages - base) / PGSIZE;
      used.SetMultiple(pageIdx, cnt, false);
    }
  }

  // ------------------------------------------------------------ pages as addresses

  /** page_from_pool, for the address of a page. */
  predicate FromPool(pool: Pool, page: nat) {
    page / PGSIZE >= pool.base / PGSIZE && page / PGSIZE < pool.base / PGSIZE + pool.used.bitCnt
  }

  /** The addresses of the pages that are marked. */
  ghost function Pages(base: nat, bits: seq<bool>): set<nat> {
    set p: nat | p < |bits| && bits[p] :: base + PGSIZE * p
  }

  lemma PagesSet(base: nat, bits: seq<bool>, p: nat, value: bool)
    requires p < |bits|
    ensures var bits' := SetRange(bits, p, 1, value);
      Pages(base, bits') == if value then Pages(base, bits) + {base + PGSIZE * p} else Pages(base, bits) - {base + PGSIZE * p}
  {
    var bits' := SetRange(bits, p, 1, value);
    forall q: nat | q < |bits| && q != p ensures bits'[q] == bits[q] {}
    assert bits'[p] == value;
    forall a | a in Pages(base, bits) && a != base + PGSIZE * p ensures a in Pages(base, bits') {
      var q: nat :| q < |bits| && bits[q] && a == base + PGSIZE * q;
      assert bits'[q];
    }
    forall a | a in Pages(base, bits') && a != base + PGSIZE * p ensures a in Pages(base, bits) {
      var q: nat :| q < |bits'| && bits'[q] && a == base + PGSIZE * q;
      assert bits[q];
    }
  }

  lemma PagesAt(base: nat, bits: seq<bool>, p: nat)
    requires p < |bits|
    ensures base + PGSIZE * p in Pages(base, bits) <==> bits[p]
  {
    if base + PGSIZE * p in Pages(base, bits) {
      var q: nat :| q < |bits| && bits[q] && base + PGSIZE * p == base + PGSIZE * q;
    }
  }

  lemma PageIn(base: nat, bits: seq<bool>, page: nat) returns (p: nat)
    requires page in Pages(base, bits)
    ensures p < |bits| && bits[p] && page == base + PGSIZE * p && (page - base) / PGSIZE == p
  {
    p :| p < |bits| && bits[p] && page == base + PGSIZE * p;
  }

  ghost function AllPages(base: nat, n: nat): (s: set<nat>)
    ensures |s| == n && forall a :: a in s ==> a < base + PGSIZE * n
  {
    if n == 0 then {} else AllPages(base, n - 1) + {base + PGSIZE * (n - 1)}
  }

  lemma {:induction false} InAllPages(base: nat, n: nat, p: nat)
    requires p < n
    ensures base + PGSIZE * p in AllPages(base, n)
  {
    if p < n - 1 { InAllPages(base, n - 1, p); }
  }

  /** There is a free page just when not all pages are marked. */
  lemma SomePageFree(base: nat, bits: seq<bool>)
    ensures HasRun(bits, 1) <==> |Pages(base, bits)| < |bits|
    ensures |Pages(base, bits)| <= |bits|
  {
    var all, used := AllPages(base, |bits|), Pages(base, bits);
    forall p: nat | p < |bits| ensures base + PGSIZE * p in all { InAllPages(base, |bits|, p); }
    SubsetSize(used, all);
    if i: nat :| IsRun(bits, i, 1, false) {
      assert !bits[i];
      PagesAt(base, bits, i);
      SubsetSize(used, all - {base + PGSIZE * i});
    } else {
      forall p: nat | p < |bits| ensures bits[p] { assert !IsRun(bits, p, 1, false); }
      AllMarked(base, bits, |bits|);
      SubsetSize(all, used);
    }
  }

  lemma {:induction false} AllMarked(base: nat, bits: seq<bool>, n: nat)
    requires n <= |bits| && forall p :: 0 <= p < |bits| ==> bits[p]
    ensures AllPages(base, n) <= Pages(base, bits)
  {
    if n > 0 {
      AllMarked(base, bits, n - 1);
      PagesAt(base, bits, n - 1);
    }
  }

  lemma {:induction false} SubsetSize(a: set<nat>, b: set<nat>)
    requires a <= b
    ensures |a| <= |b|
  {
    if a != {} {
      var x :| x in a;
      SubsetSize(a - {x}, b - {x});
    }
  }

  method GetOne(pool: Pool) returns (page: nat)
    requires pool.Valid()
    modifies pool.used.words
    ensures page != 0 <==> old(|Pages(pool.base, pool.used.Bits())|) < pool.used.bitCnt
    ensures page == 0 ==> Pages(pool.base, pool.used.Bits()) == old(Pages(pool.base, pool.used.Bits()))
    ensures page != 0 ==>
      && page % PGSIZE == 0 && pool.base <= page < TWO32
      && page !in old(Pages(pool.base, pool.used.Bits()))
      && Pages(pool.base, pool.used.Bits()) == old(Pages(pool.base, pool.used.Bits())) + {page}
  {
    hide Pages, HasRun;
    ghost var bits := pool.used.Bits();
    SomePageFree(pool.base, bits);
    page := pool.GetMultiple(1);
    if page != 0 {
      ghost var p: nat :| page == pool.base + PGSIZE * p && IsRun(bits, p, 1, false) && pool.used.Bits() == SetRange(bits, p, 1, true);
      PagesSet(pool.base, bits, p, true);
      PagesAt(pool.base, bits, p);
    }
  }

  method FreeOne(pool: Pool, page: nat)
    requires pool.Valid() && page in Pages(pool.base, pool.used.Bits())
    modifies pool.used.words
    ensures Pages(pool.base, pool.used.Bits()) == old(Pages(pool.base, pool.used.Bits())) - {page}
  {
    ghost var bits := pool.used.Bits();
    ghost var p := PageIn(pool.base, bits, page);
    hide Pages;
    pool.FreeMultiple(page, 1);
    PagesSet(pool.base, bits, p, false);
  }

  /** page_from_pool tells the pools apart. */
  lemma InOnePool(a: PageAllocator, page: nat)
    requires a.Valid() && (page in a.KernelUsed() || page in a.UserUsed())
    ensures page % PGSIZE == 0
    ensures FromPool(a.kernel, page) ==> page in a.KernelUsed() && page !in a.UserUsed()
    ensures !FromPool(a.kernel, page) ==> page in a.UserUsed() && page !in a.KernelUsed()
  {
    if page in a.KernelUsed() { var p := PageIn(a.kernel.base, a.kernel.used.Bits(), page); }
    if page in a.UserUsed() { var p := PageIn(a.user.base, a.user.used.Bits(), page); }
  }

  class PageAllocator {
    const kernel: Pool
    const user: Pool

    ghost predicate Valid() {
      && kernel.Valid() && user.Valid() && kernel.used.words != user.used.words
      && kernel.base + PGSIZE * kernel.used.bitCnt <= user.base
    }

    constructor (kernel: Pool, user: Pool)
      requires kernel.Valid() && user.Valid() && kernel.used.words != user.used.words
      requires kernel.base + PGSIZE * kernel.used.bitCnt <= user.base
      ensures Valid() && this.kernel == kernel && this.user == user
    {
      this.kernel, this.user := kernel, user;
    }

    ghost function KernelUsed(): set<nat>
      requires Valid()
      reads kernel.used.words
    {
      Pages(kernel.base, kernel.used.Bits())
    }

    ghost function UserUsed(): set<nat>
      requires Valid()
      reads user.used.words
    {
      Pages(user.base, user.used.Bits())
    }

    /** palloc_get_page: a page that was not in use, or 0 when all are. */
    method GetPage(fromUser: bool) returns (page: nat)
      requires Valid()
      modifies kernel.used.words, user.used.words
      ensures page != 0 <==> if fromUser then |old(UserUsed())| < user.used.bitCnt else |old(KernelUsed())| < kernel.used.bitCnt
      ensures page == 0 ==> KernelUsed() == old(KernelUsed()) && UserUsed() == old(UserUsed())
      ensures page != 0 ==> page % PGSIZE == 0 && page < TWO32 && page >= (if fromUser then user.base else kernel.base)
      ensures page != 0 && fromUser ==>
        KernelUsed() == old(KernelUsed()) && page !in old(UserUsed()) && UserUsed() == old(UserUsed()) + {page}
      ensures page != 0 && !fromUser ==>
        UserUsed() == old(UserUsed()) && page !in old(KernelUsed()) && KernelUsed() == old(KernelUsed()) + {page}
    {
      hide Pages;
      page := GetOne(if fromUser then user else kernel);
    }

    /** palloc_free_page, for a page that is in use; the pool is found from the address. */
    method FreePage(page: nat)
      requires Valid() && (page in KernelUsed() || page in UserUsed())
      modifies kernel.used.words, user.used.words
      ensures KernelUsed() == old(KernelUsed()) - {page} && UserUsed() == old(UserUsed()) - {page}
      ensures page in old(UserUsed()) ==> KernelUsed() == old(KernelUsed())
      ensures page in old(KernelUsed()) ==> UserUsed() == old(UserUsed())
    {
      hide Pages;
      InOnePool(this, page);
      if FromPool(kernel, page) {
        FreeOne(kernel, page);
      } else {
        FreeOne(user, page);
      }
    }
  }

  lemma UsedWithin(a: PageAllocator)
    requires a.Valid()
    ensures |a.KernelUsed()| <= a.kernel.used.bitCnt && |a.UserUsed()| <= a.user.used.bitCnt
  {
    SomePageFree(a.kernel.base, a.kernel.used.Bits());
    SomePageFree(a.user.base, a.user.used.Bits());
  }
}
