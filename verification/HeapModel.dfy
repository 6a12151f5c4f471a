/**
 * The block allocator of threads/malloc.c as a value: arenas of equal
 * blocks inside pages of the kernel pool, free lists of block addresses,
 * and the pages they take from the pool's used map. Addresses are
 * numbers; page p of the pool starts at base + PGSIZE * p.
 */
module HeapModel {
  import opened Bitmaps
  import opened Sequences
  import opened Palloc

  /** sizeof (struct arena). */
  const HEADER := 12

  /** The block sizes malloc_init makes descriptors for. */
  const SIZES: seq<nat> := [16, 32, 64, 128, 256, 512, 1024]

  function PerArena(size: nat): nat
    requires size > 0
  {
    (PGSIZE - HEADER) / size
  }

  /** An arena has as many blocks as fit behind its header. */
  lemma PerArenaMost(k: nat)
    requires k < |SIZES|
    ensures SIZES[k] > 0 && HEADER + SIZES[k] * PerArena(SIZES[k]) <= PGSIZE < HEADER + SIZES[k] * (PerArena(SIZES[k]) + 1)
  {}

  /** The header at the start of an arena: a descriptor and a count of free blocks, or a count of pages. */
  datatype Arena = Small(k: nat, freeCnt: nat) | Big(pages: nat)

  /** live maps each block handed out to the size asked for; others are pages taken by other code. */
  datatype Heap = Heap(
    base: nat, bits: seq<bool>, arenas: map<nat, Arena>, free: seq<seq<nat>>, live: map<nat, nat>, others: set<nat>)

  // ------------------------------------------------------------------ addresses

  function Page(h: Heap, p: nat): nat { h.base + PGSIZE * p }

  /** arena_to_block. */
  function BlockAt(h: Heap, p: nat, k: nat, i: nat): nat
    requires k < |SIZES|
  {
    Page(h, p) + HEADER + i * SIZES[k]
  }

  /** pg_round_down, as a page number of the pool. */
  function PageOf(h: Heap, a: nat): int { (a - h.base) / PGSIZE }

  lemma SizesFit(k: nat)
    requires k < |SIZES|
    ensures 16 <= SIZES[k] <= 1024 && 3 <= PerArena(SIZES[k]) <= 255
    ensures HEADER + PerArena(SIZES[k]) * SIZES[k] <= PGSIZE
  {}

  /** Blocks lie inside their page, past the header, and in order. */
  lemma BlockInside(h: Heap, p: nat, k: nat, i: nat)
    requires k < |SIZES| && i < PerArena(SIZES[k])
    ensures Page(h, p) + HEADER <= BlockAt(h, p, k, i) && BlockAt(h, p, k, i) + SIZES[k] <= Page(h, p + 1)
    ensures PageOf(h, BlockAt(h, p, k, i)) == p
  {
    SizesFit(k);
    assert (i + 1) * SIZES[k] <= PerArena(SIZES[k]) * SIZES[k];
    assert (i + 1) * SIZES[k] == i * SIZES[k] + SIZES[k];
    var o := HEADER + i * SIZES[k];
    assert 0 <= o < PGSIZE && BlockAt(h, p, k, i) - h.base == PGSIZE * p + o;
  }

  lemma BlocksApart(h: Heap, p: nat, k: nat, i: nat, j: nat)
    requires k < |SIZES| && i < j
    ensures BlockAt(h, p, k, i) + SIZES[k] <= BlockAt(h, p, k, j)
  {
    assert (i + 1) * SIZES[k] <= j * SIZES[k];
    assert (i + 1) * SIZES[k] == i * SIZES[k] + SIZES[k];
  }

  lemma SameBlock(h: Heap, p: nat, q: nat, k: nat, i: nat, j: nat)
    requires k < |SIZES| && i < PerArena(SIZES[k]) && j < PerArena(SIZES[k]) && BlockAt(h, p, k, i) == BlockAt(h, q, k, j)
    ensures p == q && i == j
  {
    BlockInside(h, p, k, i);
    BlockInside(h, q, k, j);
    if i < j { BlocksApart(h, p, k, i, j); }
    if j < i { BlocksApart(h, p, k, j, i); }
  }

  // ------------------------------------------------------------------ invariant

  function PagesOf(a: Arena): nat { if a.Small? then 1 else a.pages }

  predicate Covers(h: Heap, p: nat, x: nat) { p in h.arenas && p <= x < p + PagesOf(h.arenas[p]) }

  ghost predicate Covered(h: Heap, x: nat) { exists p :: Covers(h, p, x) }

  predicate HasSmall(h: Heap, p: nat, k: nat) { p in h.arenas && h.arenas[p].Small? && h.arenas[p].k == k }

  predicate IsBlock(h: Heap, b: int, p: int, k: int, i: int) {
    0 <= b && 0 <= p && 0 <= k < |SIZES| && 0 <= i && HasSmall(h, p, k) && i < PerArena(SIZES[k]) && b == BlockAt(h, p, k, i)
  }

  ghost predicate SmallBlock(h: Heap, b: int, k: int) { exists p, i :: IsBlock(h, b, p, k, i) }

  /** The block of a big arena. */
  predicate BigBlock(h: Heap, b: int, p: int) { 0 <= p && p in h.arenas && h.arenas[p].Big? && b == Page(h, p) + HEADER }

  /** The arenas' pages: inside the pool, apart from each other, and marked; so are those of others, and no more. */
  ghost predicate PagesOk(h: Heap) {
    && h.base > 0 && h.base % PGSIZE == 0
    && (forall p :: p in h.arenas ==> PagesOf(h.arenas[p]) >= 1 && p + PagesOf(h.arenas[p]) <= |h.bits|)
    && (forall p, q, x :: Covers(h, p, x) && Covers(h, q, x) ==> p == q)
    && (forall x :: x in h.others ==> x < |h.bits| && !Covered(h, x))
    && (forall x :: 0 <= x < |h.bits| ==> (h.bits[x] <==> x in h.others || Covered(h, x)))
  }

  /** A free list holds blocks of its size that are not handed out, each once. */
  ghost predicate ListOk(h: Heap, k: nat)
    requires k < |h.free|
  {
    NoDuplicates(h.free[k]) && forall b :: b in h.free[k] ==> SmallBlock(h, b, k) && b !in h.live
  }

  /** A live block is one of an arena and large enough for what was asked. */
  ghost predicate LiveOk(h: Heap, b: nat)
    requires b in h.live
  {
    || (exists k :: k < |SIZES| && SmallBlock(h, b, k) && h.live[b] <= SIZES[k])
    || (exists p :: BigBlock(h, b, p) && h.live[b] + HEADER <= PGSIZE * h.arenas[p].pages)
  }

  /** Every block of every arena is on its descriptor's list or handed out. */
  ghost predicate Accounted(h: Heap)
    requires |h.free| == |SIZES|
  {
    && (forall b, p, k, i :: IsBlock(h, b, p, k, i) ==> b in h.live || b in h.free[k])
    && (forall b, p :: BigBlock(h, b, p) ==> b in h.live)
  }

  ghost predicate BlocksOk(h: Heap) {
    && |h.free| == |SIZES|
    && (forall p :: p in h.arenas && h.arenas[p].Small? ==> h.arenas[p].k < |SIZES|)
    && (forall k :: 0 <= k < |SIZES| ==> ListOk(h, k))
    && Accounted(h)
    && (forall b :: b in h.live ==> LiveOk(h, b))
  }

  ghost function FreeIn(h: Heap, p: nat): (s: set<nat>)
    requires BlocksOk(h) && p in h.arenas && h.arenas[p].Small?
  {
    var k := h.arenas[p].k;
    set i | 0 <= i < PerArena(SIZES[k]) && BlockAt(h, p, k, i) in h.free[k]
  }

  /** free_cnt counts the arena's blocks on the list; only the arena at page x may be wholly free. */
  ghost predicate CountsOk(h: Heap, x: int) {
    && BlocksOk(h)
    && (forall p :: p in h.arenas && h.arenas[p].Small? ==>
          && h.arenas[p].freeCnt == |FreeIn(h, p)|
          && (p != x ==> h.arenas[p].freeCnt < PerArena(SIZES[h.arenas[p].k])))
  }

  ghost predicate OkBut(h: Heap, x: int) { PagesOk(h) && CountsOk(h, x) }

  /** The state between two operations: no wholly free arena. */
  ghost predicate Ok(h: Heap) { OkBut(h, -1) }

  // ------------------------------------------------------------ what it gives

  /** The page range that a live block lies in, past a header. */
  ghost predicate InPages(h: Heap, b: nat, p: nat) {
    && p in h.arenas && b in h.live
    && Page(h, p) + HEADER <= b && b + h.live[b] <= Page(h, p) + PGSIZE * PagesOf(h.arenas[p])
  }

  lemma LivePlace(h: Heap, b: nat) returns (p: nat)
    requires Ok(h) && b in h.live
    ensures InPages(h, b, p)
    ensures h.arenas[p].Big? ==> b == Page(h, p) + HEADER
    ensures h.arenas[p].Small? ==> exists i :: IsBlock(h, b, p, h.arenas[p].k, i) && h.live[b] <= SIZES[h.arenas[p].k]
  {
    if k :| 0 <= k < |SIZES| && SmallBlock(h, b, k) && h.live[b] <= SIZES[k] {
      var q, i :| IsBlock(h, b, q, k, i);
      p := q;
      BlockInside(h, p, k, i);
    } else {
      p :| BigBlock(h, b, p) && h.live[b] + HEADER <= PGSIZE * h.arenas[p].pages;
    }
  }

  /** Live blocks do not overlap. */
  lemma LiveApart(h: Heap, a: nat, b: nat)
    requires Ok(h) && a in h.live && b in h.live && a < b
    ensures a + h.live[a] <= b
  {
    var p := LivePlace(h, a);
    var q := LivePlace(h, b);
    if p == q && h.arenas[p].Small? {
      var k := h.arenas[p].k;
      var i :| IsBlock(h, a, p, k, i) && h.live[a] <= SIZES[k];
      var j :| IsBlock(h, b, p, k, j);
      hide Ok;
      BlocksInOrder(h, p, k, i, j);
    } else if p != q {
      ArenasApart(h, p, q);
    }
  }

  lemma BlocksInOrder(h: Heap, p: nat, k: nat, i: nat, j: nat)
    requires k < |SIZES| && BlockAt(h, p, k, i) < BlockAt(h, p, k, j)
    ensures BlockAt(h, p, k, i) + SIZES[k] <= BlockAt(h, p, k, j)
  {
    if i < j { BlocksApart(h, p, k, i, j); } else if j < i { BlocksApart(h, p, k, j, i); }
  }

  /** block_size: the bytes behind a block, which may be more than were asked for. */
  function Room(h: Heap, b: nat): (n: int) {
    var p := PageOf(h, b);
    if p !in h.arenas then 0
    else match h.arenas[p]
      case Small(k, _) => if k < |SIZES| then SIZES[k] else 0
      case Big(pages) => PGSIZE * pages - (b - h.base) % PGSIZE
  }

  lemma RoomInPages(h: Heap, b: nat, p: nat)
    requires InPages(h, b, p)
    requires h.arenas[p].Big? ==> b == Page(h, p) + HEADER
    requires h.arenas[p].Small? ==> exists i :: IsBlock(h, b, p, h.arenas[p].k, i) && h.live[b] <= SIZES[h.arenas[p].k]
    ensures PageOf(h, b) == p && h.live[b] <= Room(h, b) && b + Room(h, b) <= Page(h, p) + PGSIZE * PagesOf(h.arenas[p])
  {
    if h.arenas[p].Small? {
      var i :| IsBlock(h, b, p, h.arenas[p].k, i);
      BlockInside(h, p, h.arenas[p].k, i);
    } else {
      assert (b - h.base) % PGSIZE == HEADER && PageOf(h, b) == p;
    }
  }

  /** A live block, with all the bytes behind it, lies inside the pool. */
  lemma LiveInPool(h: Heap, b: nat)
    requires Ok(h) && b in h.live
    ensures h.base < b && h.live[b] <= Room(h, b) && b - h.base + Room(h, b) <= PGSIZE * |h.bits|
  {
    var p := LivePlace(h, b);
    RoomInPages(h, b, p);
  }

  /** All the bytes behind a live block are its own. */
  lemma RoomApart(h: Heap, b: nat, c: nat)
    requires Ok(h) && b in h.live && c in h.live && b != c
    ensures b + Room(h, b) <= c || c + h.live[c] <= b
  {
    if c < b {
      LiveApart(h, c, b);
    } else {
      var p := LivePlace(h, b);
      var q := LivePlace(h, c);
      RoomInPages(h, b, p);
      if p == q && h.arenas[p].Small? {
        var k := h.arenas[p].k;
        var i :| IsBlock(h, b, p, k, i);
        var j :| IsBlock(h, c, p, k, j);
        hide Ok;
        BlocksInOrder(h, p, k, i, j);
      } else if p != q {
        ArenasApart(h, p, q);
      }
    }
  }

  /** No live block lies in a page that is not marked. */
  lemma UnmarkedClear(h: Heap, p: nat, cnt: nat, c: nat)
    requires Ok(h) && c in h.live && IsRun(h.bits, p, cnt, false)
    ensures cnt > 0 ==> Page(h, p + cnt) <= c || c + h.live[c] <= Page(h, p)
  {
    var q := LivePlace(h, c);
    hide OkBut, IsRun;
    ArenaMarked(h, p, cnt, q);
  }

  lemma ArenaMarked(h: Heap, p: nat, cnt: nat, q: nat)
    requires Ok(h) && q in h.arenas && IsRun(h.bits, p, cnt, false)
    ensures cnt > 0 ==> p + cnt <= q || q + PagesOf(h.arenas[q]) <= p
  {
    hide CountsOk;
    var x := if p < q then q else p;
    assert Covers(h, q, x) ==> h.bits[x];
  }

  /** ... and are clear of every arena's header. */
  lemma LiveClearOfHeaders(h: Heap, b: nat, q: nat)
    requires Ok(h) && b in h.live && q in h.arenas
    ensures b + h.live[b] <= Page(h, q) || Page(h, q) + HEADER <= b
  {
    var p := LivePlace(h, b);
    if p != q { ArenasApart(h, p, q); }
  }

  lemma ArenasApart(h: Heap, p: nat, q: nat)
    requires PagesOk(h) && p in h.arenas && q in h.arenas && p != q
    ensures p + PagesOf(h.arenas[p]) <= q || q + PagesOf(h.arenas[q]) <= p
  {
    var x := if p < q then q else p;
    assert !(Covers(h, p, x) && Covers(h, q, x));
  }

  /** No arena is kept for nothing: each has a block that is handed out. */
  lemma ArenaInUse(h: Heap, p: nat)
    requires Ok(h) && p in h.arenas
    ensures exists b :: b in h.live && PageOf(h, b) == p
  {
    if h.arenas[p].Small? {
      var k := h.arenas[p].k;
      var i := Missing(PerArena(SIZES[k]), FreeIn(h, p));
      BlockInside(h, p, k, i);
      assert IsBlock(h, BlockAt(h, p, k, i), p, k, i);
    } else {
      assert BigBlock(h, Page(h, p) + HEADER, p);
      assert PageOf(h, Page(h, p) + HEADER) == p;
    }
  }

  lemma {:induction false} Missing(n: nat, s: set<nat>) returns (i: nat)
    requires |s| < n
    ensures i < n && i !in s
  {
    if n - 1 !in s { i := n - 1; } else { i := Missing(n - 1, s - {n - 1}); }
  }

  /** Once every block is freed, no arena is left and the used map marks only what others took. */
  lemma AllFreed(h: Heap)
    requires Ok(h) && h.live == map[]
    ensures h.arenas == map[] && (forall k :: 0 <= k < |SIZES| ==> h.free[k] == [])
    ensures forall x :: 0 <= x < |h.bits| ==> (h.bits[x] <==> x in h.others)
  {
    forall p ensures p !in h.arenas {
      if p in h.arenas { ArenaInUse(h, p); }
    }
    forall k | 0 <= k < |SIZES| ensures h.free[k] == [] {
      if h.free[k] != [] { FreeHasArena(h, k); }
    }
    assert h.arenas == map[];
  }

  lemma FreeHasArena(h: Heap, k: nat)
    requires BlocksOk(h) && k < |SIZES| && h.free[k] != []
    ensures exists p :: p in h.arenas
  {
    assert ListOk(h, k) && h.free[k][0] in h.free[k];
    assert SmallBlock(h, h.free[k][0], k);
  }

  // ------------------------------------------------------- a block is handed out

  /** The head of a free list becomes live: list_pop_front and free_cnt--. */
  ghost predicate Took(h: Heap, h': Heap, k: nat, p: nat, i: nat, size: nat) {
    && k < |SIZES| && |h.free| == |SIZES| && h.free[k] != [] && size <= SIZES[k]
    && IsBlock(h, h.free[k][0], p, k, i) && h.arenas[p].freeCnt > 0
    && h' == h.(free := h.free[k := h.free[k][1..]],
                arenas := h.arenas[p := Small(k, h.arenas[p].freeCnt - 1)],
                live := h.live[h.free[k][0] := size])
  }

  predicate Alike(a: Arena, a': Arena) {
    if a.Small? then a'.Small? && a'.k == a.k else a' == a
  }

  /** The arenas have the same places and shapes. */
  ghost predicate SameArenas(h: Heap, h': Heap) {
    && h'.base == h.base && h'.arenas.Keys == h.arenas.Keys
    && forall p :: p in h.arenas ==> Alike(h.arenas[p], h'.arenas[p])
  }

  lemma SamePages(h: Heap, h': Heap)
    requires PagesOk(h) && SameArenas(h, h') && h'.bits == h.bits && h'.others == h.others
    ensures PagesOk(h')
  {
    forall p, x ensures Covers(h', p, x) <==> Covers(h, p, x) {}
    forall x ensures Covered(h', x) <==> Covered(h, x) {
      if Covered(h, x) { var p :| Covers(h, p, x); assert Covers(h', p, x); }
      if Covered(h', x) { var p :| Covers(h', p, x); assert Covers(h, p, x); }
    }
  }

  lemma SameBlocks(h: Heap, h': Heap)
    requires SameArenas(h, h')
    ensures forall b, p, k, i :: IsBlock(h', b, p, k, i) <==> IsBlock(h, b, p, k, i)
    ensures forall b, k :: SmallBlock(h', b, k) <==> SmallBlock(h, b, k)
    ensures forall b, p :: BigBlock(h', b, p) <==> BigBlock(h, b, p)
  {
    forall b, p, k, i ensures IsBlock(h', b, p, k, i) <==> IsBlock(h, b, p, k, i) {}
    forall b, k ensures SmallBlock(h', b, k) <==> SmallBlock(h, b, k) {
      if SmallBlock(h, b, k) { var p, i :| IsBlock(h, b, p, k, i); assert IsBlock(h', b, p, k, i); }
      if SmallBlock(h', b, k) { var p, i :| IsBlock(h', b, p, k, i); assert IsBlock(h, b, p, k, i); }
    }
  }

  lemma TookBlocks(h: Heap, h': Heap, k: nat, p: nat, i: nat, size: nat)
    requires BlocksOk(h) && Took(h, h', k, p, i, size)
    ensures BlocksOk(h') && SameArenas(h, h')
  {
    SameBlocks(h, h');
    var b := h.free[k][0];
    assert ListOk(h, k) && b in h.free[k];
    TailKeeps(h.free[k]);
    assert SmallBlock(h, b, k);
    hide IsBlock, SmallBlock, BigBlock, NoDuplicates;
    forall c | 0 <= c < |SIZES| ensures ListOk(h', c) {
      assert ListOk(h, c);
      if c != k { ListsApart(h, b, k, c); }
    }
    forall a | a in h'.live ensures LiveOk(h', a) {
      if a != b { assert LiveOk(h, a); }
    }
  }

  /** A block has one size. */
  lemma ListsApart(h: Heap, b: nat, k: nat, c: nat)
    requires BlocksOk(h) && SmallBlock(h, b, k) && k != c && c < |SIZES|
    ensures b !in h.free[c]
  {
    var p, i :| IsBlock(h, b, p, k, i);
    BlockInside(h, p, k, i);
    if b in h.free[c] {
      assert ListOk(h, c);
      assert SmallBlock(h, b, c);
      var q, j :| IsBlock(h, b, q, c, j);
      BlockInside(h, q, c, j);
    }
  }

  lemma TookFrom(h: Heap, h': Heap, k: nat, p: nat, i: nat, size: nat)
    requires BlocksOk(h) && BlocksOk(h') && Took(h, h', k, p, i, size)
    ensures i in FreeIn(h, p) && FreeIn(h', p) == FreeIn(h, p) - {i}
    ensures forall a :: a != BlockAt(h, p, k, i) ==> (a in h'.free[k] <==> a in h.free[k])
  {
    var b := h.free[k][0];
    assert ListOk(h, k) && b in h.free[k];
    TailKeeps(h.free[k]);
    hide BlocksOk, ListOk;
    forall j | 0 <= j < PerArena(SIZES[k]) && j != i ensures BlockAt(h, p, k, j) != b {
      if BlockAt(h, p, k, j) == b { SameBlock(h, p, p, k, i, j); }
    }
  }

  lemma TookCounts(h: Heap, h': Heap, k: nat, p: nat, i: nat, size: nat, x: int)
    requires CountsOk(h, x) && BlocksOk(h') && Took(h, h', k, p, i, size) && (x == -1 || x == p)
    ensures CountsOk(h', -1)
  {
    TookFrom(h, h', k, p, i, size);
    FreeInBound(h, p);
    forall q | q in h'.arenas && h'.arenas[q].Small? && q != p ensures FreeIn(h', q) == FreeIn(h, q) {
      FreeElsewhere(h, h', q, p, k, i);
    }
    hide BlocksOk, FreeIn;
  }

  lemma FreeInBound(h: Heap, p: nat)
    requires BlocksOk(h) && p in h.arenas && h.arenas[p].Small?
    ensures |FreeIn(h, p)| <= PerArena(SIZES[h.arenas[p].k])
  {
    Bounded(PerArena(SIZES[h.arenas[p].k]), FreeIn(h, p));
  }

  ghost function Upto(n: nat): (s: set<nat>)
    ensures |s| == n && forall i :: i in s <==> 0 <= i < n
  {
    if n == 0 then {} else Upto(n - 1) + {n - 1}
  }

  lemma Bounded(n: nat, s: set<nat>)
    requires forall i :: i in s ==> 0 <= i < n
    ensures |s| <= n && (|s| == n ==> forall i :: 0 <= i < n ==> i in s)
  {
    assert s <= Upto(n);
    assert Upto(n) == s + (Upto(n) - s);
  }

  /** Other arenas' blocks stay where they are when one block of page p changes hands. */
  lemma FreeElsewhere(h: Heap, h': Heap, q: nat, p: nat, k: nat, i: nat)
    requires BlocksOk(h) && BlocksOk(h') && h'.base == h.base && k < |SIZES| && i < PerArena(SIZES[k])
    requires q != p && q in h.arenas && q in h'.arenas && h'.arenas[q] == h.arenas[q] && h.arenas[q].Small?
    requires forall c :: 0 <= c < |SIZES| && c != k ==> h'.free[c] == h.free[c]
    requires forall a :: a != BlockAt(h, p, k, i) ==> (a in h'.free[k] <==> a in h.free[k])
    ensures FreeIn(h', q) == FreeIn(h, q)
  {
    var c := h.arenas[q].k;
    forall j | 0 <= j < PerArena(SIZES[c]) ensures j in FreeIn(h', q) <==> j in FreeIn(h, q) {
      if c == k && BlockAt(h, q, k, j) == BlockAt(h, p, k, i) { SameBlock(h, q, p, k, j, i); }
    }
  }

  /** Handing out a block keeps the invariant, and mends an arena that was wholly free. */
  lemma TookOk(h: Heap, h': Heap, k: nat, p: nat, i: nat, size: nat, x: int)
    requires OkBut(h, x) && Took(h, h', k, p, i, size) && (x == -1 || x == p)
    ensures Ok(h') && h.free[k][0] !in h.live
  {
    assert ListOk(h, k) && h.free[k][0] in h.free[k];
    TookBlocks(h, h', k, p, i, size);
    TookCounts(h, h', k, p, i, size, x);
    SamePages(h, h');
  }

  // --------------------------------------------------------- a new arena

  /** A free page becomes an arena, and its blocks the whole of an empty list. */
  ghost predicate Made(h: Heap, h': Heap, k: nat, p: nat) {
    && k < |SIZES| && |h.free| == |SIZES| && h.free[k] == [] && p < |h.bits| && !h.bits[p]
    && h' == h.(bits := SetRange(h.bits, p, 1, true), arenas := h.arenas[p := Small(k, PerArena(SIZES[k]))],
                free := h.free[k := AllBlocks(h, p, k, PerArena(SIZES[k]))])
  }

  /** The blocks of an arena, in order. */
  function AllBlocks(h: Heap, p: nat, k: nat, n: nat): (s: seq<nat>)
    requires k < |SIZES|
    ensures |s| == n && forall i :: 0 <= i < n ==> s[i] == BlockAt(h, p, k, i)
  {
    if n == 0 then [] else AllBlocks(h, p, k, n - 1) + [BlockAt(h, p, k, n - 1)]
  }

  /** A page that is not marked belongs to no arena. */
  lemma UnmarkedFree(h: Heap, x: nat)
    requires PagesOk(h) && x < |h.bits| && !h.bits[x]
    ensures x !in h.others && !Covered(h, x)
  {}

  lemma MadePages(h: Heap, h': Heap, p: nat, a: Arena)
    requires PagesOk(h) && h'.base == h.base && h'.others == h.others && PagesOf(a) >= 1
    requires IsRun(h.bits, p, PagesOf(a), false)
    requires h'.bits == SetRange(h.bits, p, PagesOf(a), true) && h'.arenas == h.arenas[p := a]
    ensures PagesOk(h') && p !in h.arenas
  {
    assert p !in h.arenas by {
      assert !h.bits[p];
      UnmarkedFree(h, p);
      if p in h.arenas { assert Covers(h, p, p); }
    }
    forall x | p <= x < p + PagesOf(a) ensures x !in h.others && !Covered(h, x) { UnmarkedFree(h, x); }
    forall q: nat, x: nat ensures Covers(h', q, x) <==> Covers(h, q, x) || (q == p && p <= x < p + PagesOf(a)) {}
    forall x: nat ensures Covered(h', x) <==> Covered(h, x) || p <= x < p + PagesOf(a) {
      if Covered(h, x) { var q :| Covers(h, q, x); assert Covers(h', q, x); }
      if p <= x < p + PagesOf(a) { assert Covers(h', p, x); }
    }
    assert forall q, r, x :: Covers(h', q, x) && Covers(h', r, x) ==> q == r by {
      forall q, r, x | Covers(h', q, x) && Covers(h', r, x) ensures q == r {
        assert Covers(h, q, x) ==> Covered(h, x);
        assert Covers(h, r, x) ==> Covered(h, x);
      }
    }
  }

  lemma MadeBlocks(h: Heap, h': Heap, k: nat, p: nat)
    requires BlocksOk(h) && p !in h.arenas && Made(h, h', k, p)
    ensures BlocksOk(h')
  {
    var n := PerArena(SIZES[k]);
    forall b, q, c, i ensures IsBlock(h', b, q, c, i) <==> IsBlock(h, b, q, c, i) || (q == p && c == k && 0 <= i < n && b == BlockAt(h, p, k, i)) {}
    forall b, c | SmallBlock(h, b, c) ensures SmallBlock(h', b, c) {
      var q, i :| IsBlock(h, b, q, c, i);
      assert IsBlock(h', b, q, c, i);
    }
    forall b, q ensures BigBlock(h', b, q) <==> BigBlock(h, b, q) {}
    NewBlocksList(h, h', k, p);
    hide SmallBlock;
    forall c | 0 <= c < |SIZES| ensures ListOk(h', c) {
      assert ListOk(h, c);
    }
    forall a | a in h'.live ensures LiveOk(h', a) {
      assert LiveOk(h, a);
    }
    assert Accounted(h') by {
      forall b, q, c, i | IsBlock(h', b, q, c, i) ensures b in h'.live || b in h'.free[c] {
        if q == p { assert h'.free[k][i] == b; }
      }
    }
  }

  lemma NewBlocksList(h: Heap, h': Heap, k: nat, p: nat)
    requires BlocksOk(h) && p !in h.arenas && Made(h, h', k, p)
    ensures ListOk(h', k)
  {
    var n := PerArena(SIZES[k]);
    forall i, j | 0 <= i < j < n ensures h'.free[k][i] != h'.free[k][j] { BlocksApart(h, p, k, i, j); }
    forall b | b in h'.free[k] ensures SmallBlock(h', b, k) && b !in h'.live {
      var i :| 0 <= i < n && h'.free[k][i] == b;
      assert IsBlock(h', b, p, k, i);
      BlockInside(h, p, k, i);
      if b in h.live { LivePage(h, b); }
    }
  }

  /** A live block's page has an arena. */
  lemma LivePage(h: Heap, b: nat)
    requires BlocksOk(h) && b in h.live
    ensures PageOf(h, b) in h.arenas
  {
    assert LiveOk(h, b);
    if k :| k < |SIZES| && SmallBlock(h, b, k) && h.live[b] <= SIZES[k] {
      var q, i :| IsBlock(h, b, q, k, i);
      BlockInside(h, q, k, i);
    } else {
      var q :| BigBlock(h, b, q) && h.live[b] + HEADER <= PGSIZE * h.arenas[q].pages;
      assert PageOf(h, b) == q;
    }
  }

  lemma MadeElsewhere(h: Heap, h': Heap, k: nat, p: nat, q: nat)
    requires BlocksOk(h) && BlocksOk(h') && p !in h.arenas && Made(h, h', k, p) && q in h.arenas && h.arenas[q].Small?
    ensures FreeIn(h', q) == FreeIn(h, q)
  {
    var c := h.arenas[q].k;
    hide BlocksOk;
    forall j | 0 <= j < PerArena(SIZES[c]) ensures BlockAt(h, q, c, j) in h'.free[c] <==> BlockAt(h, q, c, j) in h.free[c] {
      if c == k && BlockAt(h, q, k, j) in h'.free[k] {
        var i :| 0 <= i < PerArena(SIZES[k]) && h'.free[k][i] == BlockAt(h, q, k, j);
        SameBlock(h, p, q, k, i, j);
      }
    }
  }

  lemma MadeHere(h: Heap, h': Heap, k: nat, p: nat)
    requires BlocksOk(h') && Made(h, h', k, p)
    ensures |FreeIn(h', p)| == PerArena(SIZES[k])
  {
    var n := PerArena(SIZES[k]);
    hide BlocksOk;
    forall i | 0 <= i < n ensures BlockAt(h', p, k, i) in h'.free[k] { assert h'.free[k][i] == BlockAt(h, p, k, i); }
    assert FreeIn(h', p) == Upto(n);
  }

  lemma MadeCounts(h: Heap, h': Heap, k: nat, p: nat)
    requires CountsOk(h, -1) && BlocksOk(h') && p !in h.arenas && Made(h, h', k, p)
    ensures CountsOk(h', p)
  {
    hide BlocksOk, FreeIn;
    MadeHere(h, h', k, p);
    forall q | q in h.arenas && h.arenas[q].Small? ensures FreeIn(h', q) == FreeIn(h, q) {
      MadeElsewhere(h, h', k, p, q);
    }
  }

  lemma MadeOk(h: Heap, h': Heap, k: nat, p: nat)
    requires Ok(h) && Made(h, h', k, p)
    ensures OkBut(h', p)
  {
    MadePages(h, h', p, Small(k, PerArena(SIZES[k])));
    MadeBlocks(h, h', k, p);
    MadeCounts(h, h', k, p);
  }

  // ------------------------------------------------------ a block comes back

  /** A live block goes to the front of its list: list_push_front and free_cnt++. */
  ghost predicate Gave(h: Heap, h': Heap, b: nat, p: nat, k: nat, i: nat) {
    && |h.free| == |SIZES| && b in h.live && IsBlock(h, b, p, k, i)
    && h' == h.(free := h.free[k := [b] + h.free[k]], arenas := h.arenas[p := Small(k, h.arenas[p].freeCnt + 1)],
                live := h.live - {b})
  }

  lemma GaveAccounted(h: Heap, h': Heap, b: nat, p: nat, k: nat, i: nat)
    requires BlocksOk(h) && Gave(h, h', b, p, k, i) && SameArenas(h, h')
    ensures Accounted(h')
  {
    SameBlocks(h, h');
    BlockInside(h, p, k, i);
    NotBig(h, b, p, k, i);
    forall a, q, c, j | IsBlock(h', a, q, c, j) ensures a in h'.live || a in h'.free[c] {
      assert IsBlock(h, a, q, c, j);
      if a == b { BlockInside(h, q, c, j); }
    }
    forall a, q | BigBlock(h', a, q) ensures a in h'.live { assert BigBlock(h, a, q); }
  }

  lemma GaveBlocks(h: Heap, h': Heap, b: nat, p: nat, k: nat, i: nat)
    requires BlocksOk(h) && Gave(h, h', b, p, k, i)
    ensures BlocksOk(h') && SameArenas(h, h')
  {
    SameBlocks(h, h');
    GaveAccounted(h, h', b, p, k, i);
    assert SmallBlock(h, b, k);
    assert ListOk(h, k) && b !in h.free[k];
    FrontKeeps(h.free[k], b);
    hide IsBlock, SmallBlock, BigBlock, NoDuplicates, Accounted;
    forall c | 0 <= c < |SIZES| ensures ListOk(h', c) {
      assert ListOk(h, c);
    }
    forall a | a in h'.live ensures LiveOk(h', a) { assert LiveOk(h, a); }
  }

  lemma NotBig(h: Heap, b: nat, p: nat, k: nat, i: nat)
    requires IsBlock(h, b, p, k, i)
    ensures forall q :: !BigBlock(h, b, q)
  {
    BlockInside(h, p, k, i);
    forall q | BigBlock(h, b, q) ensures q == p { assert PageOf(h, b) == q; }
  }

  lemma GaveCounts(h: Heap, h': Heap, b: nat, p: nat, k: nat, i: nat)
    requires CountsOk(h, -1) && BlocksOk(h') && Gave(h, h', b, p, k, i)
    ensures CountsOk(h', p)
  {
    assert ListOk(h, k);
    FrontKeeps(h.free[k], b);
    assert i !in FreeIn(h, p);
    GaveHere(h, h', b, p, k, i);
    hide CountsOk, ListOk, NoDuplicates;
    forall q | q in h'.arenas && h'.arenas[q].Small? && q != p ensures FreeIn(h', q) == FreeIn(h, q) {
      FreeElsewhere(h, h', q, p, k, i);
    }
    GaveCounted(h, h', b, p, k, i);
  }

  lemma GaveCounted(h: Heap, h': Heap, b: nat, p: nat, k: nat, i: nat)
    requires CountsOk(h, -1) && BlocksOk(h') && Gave(h, h', b, p, k, i)
    requires i !in FreeIn(h, p) && FreeIn(h', p) == FreeIn(h, p) + {i}
    requires forall q :: q in h'.arenas && h'.arenas[q].Small? && q != p ==> FreeIn(h', q) == FreeIn(h, q)
    ensures CountsOk(h', p)
  {
    hide BlocksOk, FreeIn;
  }

  lemma GaveHere(h: Heap, h': Heap, b: nat, p: nat, k: nat, i: nat)
    requires BlocksOk(h) && BlocksOk(h') && Gave(h, h', b, p, k, i)
    ensures FreeIn(h', p) == FreeIn(h, p) + {i}
  {
    hide BlocksOk;
    forall j | 0 <= j < PerArena(SIZES[k]) && j != i ensures BlockAt(h, p, k, j) != b {
      if BlockAt(h, p, k, j) == b { SameBlock(h, p, p, k, i, j); }
    }
  }

  lemma GaveOk(h: Heap, h': Heap, b: nat, p: nat, k: nat, i: nat)
    requires Ok(h) && Gave(h, h', b, p, k, i)
    ensures OkBut(h', p)
  {
    GaveBlocks(h, h', b, p, k, i);
    GaveCounts(h, h', b, p, k, i);
    SamePages(h, h');
  }

  // -------------------------------------------------- a wholly free arena goes

  /** s without the blocks of the arena at p. */
  ghost predicate WithoutPage(h: Heap, s: seq<nat>, r: seq<nat>, p: nat) {
    NoDuplicates(r) && forall a :: a in r <==> a in s && PageOf(h, a) != p
  }

  ghost predicate Unmade(h: Heap, h': Heap, p: nat, k: nat) {
    && |h.free| == |SIZES| && HasSmall(h, p, k) && k < |SIZES| && h.arenas[p].freeCnt >= PerArena(SIZES[k])
    && |h'.free| == |h.free| && (forall c :: 0 <= c < |SIZES| && c != k ==> h'.free[c] == h.free[c])
    && WithoutPage(h, h.free[k], h'.free[k], p)
    && h' == h.(bits := SetRange(h.bits, p, 1, false), arenas := h.arenas - {p}, free := h'.free)
  }

  lemma UnmadePages(h: Heap, h': Heap, p: nat)
    requires PagesOk(h) && p in h.arenas && h'.base == h.base && h'.others == h.others
    requires h'.bits == SetRange(h.bits, p, PagesOf(h.arenas[p]), false) && h'.arenas == h.arenas - {p}
    ensures PagesOk(h')
  {
    var n := PagesOf(h.arenas[p]);
    forall q: nat, x: nat ensures Covers(h', q, x) <==> Covers(h, q, x) && q != p {}
    forall x: nat ensures Covered(h', x) <==> Covered(h, x) && !(p <= x < p + n) {
      if Covered(h', x) {
        var q :| Covers(h', q, x);
        assert Covers(h, q, x);
        assert p <= x < p + n ==> Covers(h, p, x);
      }
      if Covered(h, x) && !(p <= x < p + n) {
        var q :| Covers(h, q, x);
        assert Covers(h', q, x);
      }
    }
    forall x | x in h.others ensures !(p <= x < p + n) {
      if p <= x < p + n { assert Covers(h, p, x); }
    }
  }

  /** All the blocks of such an arena are on the list. */
  lemma WhollyFree(h: Heap, p: nat, k: nat)
    requires CountsOk(h, p) && HasSmall(h, p, k) && k < |SIZES| && h.arenas[p].freeCnt >= PerArena(SIZES[k])
    ensures forall a :: a in h.live ==> PageOf(h, a) != p
    ensures h.arenas[p].freeCnt == PerArena(SIZES[k])
  {
    var n := PerArena(SIZES[k]);
    Bounded(n, FreeIn(h, p));
    assert ListOk(h, k);
    forall i | 0 <= i < n ensures BlockAt(h, p, k, i) !in h.live { assert i in FreeIn(h, p); }
    forall a | a in h.live ensures PageOf(h, a) != p {
      assert LiveOk(h, a);
      if c :| c < |SIZES| && SmallBlock(h, a, c) {
        var q, i :| IsBlock(h, a, q, c, i);
        BlockInside(h, q, c, i);
      } else {
        var q :| BigBlock(h, a, q);
        assert PageOf(h, a) == q;
      }
    }
  }

  lemma UnmadeBlocks(h: Heap, h': Heap, p: nat, k: nat)
    requires CountsOk(h, p) && Unmade(h, h', p, k)
    ensures BlocksOk(h')
  {
    WhollyFree(h, p, k);
    forall b, q, c, i ensures IsBlock(h', b, q, c, i) <==> IsBlock(h, b, q, c, i) && q != p {}
    forall b, q ensures BigBlock(h', b, q) <==> BigBlock(h, b, q) {}
    forall b: nat, c: nat | SmallBlock(h, b, c) && PageOf(h, b) != p ensures SmallBlock(h', b, c) {
      var q, i :| IsBlock(h, b, q, c, i);
      BlockInside(h, q, c, i);
      assert IsBlock(h', b, q, c, i);
    }
    assert Accounted(h') by { UnmadeAccounted(h, h', p, k); }
    hide SmallBlock, IsBlock, BigBlock;
    forall c | 0 <= c < |SIZES| ensures ListOk(h', c) {
      assert ListOk(h, c);
      if c != k { ListElsewhere(h, p, k, c); }
    }
    forall a | a in h'.live ensures LiveOk(h', a) { assert LiveOk(h, a); }
  }

  lemma UnmadeAccounted(h: Heap, h': Heap, p: nat, k: nat)
    requires BlocksOk(h) && Unmade(h, h', p, k)
    ensures Accounted(h')
  {
    forall b, q, c, i | IsBlock(h', b, q, c, i) ensures b in h'.live || b in h'.free[c] {
      assert IsBlock(h, b, q, c, i) && q != p;
      BlockInside(h, q, c, i);
    }
    forall b, q | BigBlock(h', b, q) ensures b in h'.live { assert BigBlock(h, b, q); }
  }

  /** Lists of other sizes hold no block of the page. */
  lemma ListElsewhere(h: Heap, p: nat, k: nat, c: nat)
    requires BlocksOk(h) && HasSmall(h, p, k) && c < |SIZES| && c != k
    ensures forall b :: b in h.free[c] ==> PageOf(h, b) != p
  {
    assert ListOk(h, c);
    forall b | b in h.free[c] ensures PageOf(h, b) != p {
      assert SmallBlock(h, b, c);
      var q, i :| IsBlock(h, b, q, c, i);
      BlockInside(h, q, c, i);
    }
  }

  lemma UnmadeCounts(h: Heap, h': Heap, p: nat, k: nat)
    requires CountsOk(h, p) && BlocksOk(h') && Unmade(h, h', p, k)
    ensures CountsOk(h', -1)
  {
    forall q | q in h'.arenas && h'.arenas[q].Small? ensures FreeIn(h', q) == FreeIn(h, q) {
      var c := h.arenas[q].k;
      forall j | 0 <= j < PerArena(SIZES[c]) ensures BlockAt(h, q, c, j) in h'.free[c] <==> BlockAt(h, q, c, j) in h.free[c] {
        BlockInside(h, q, c, j);
      }
    }
    hide BlocksOk, FreeIn;
  }

  lemma UnmadeOk(h: Heap, h': Heap, p: nat, k: nat)
    requires OkBut(h, p) && Unmade(h, h', p, k)
    ensures Ok(h')
  {
    UnmadePages(h, h', p);
    UnmadeBlocks(h, h', p, k);
    UnmadeCounts(h, h', p, k);
  }

  // ------------------------------------------------------------- big blocks

  /** A run of free pages becomes one block behind a header. */
  ghost predicate BigMade(h: Heap, h': Heap, p: nat, cnt: nat, size: nat) {
    && cnt >= 1 && IsRun(h.bits, p, cnt, false) && size + HEADER <= PGSIZE * cnt
    && h' == h.(bits := SetRange(h.bits, p, cnt, true), arenas := h.arenas[p := Big(cnt)], live := h.live[Page(h, p) + HEADER := size])
  }

  lemma BigMadeBlocks(h: Heap, h': Heap, p: nat, cnt: nat, size: nat)
    requires BlocksOk(h) && p !in h.arenas && BigMade(h, h', p, cnt, size)
    ensures BlocksOk(h') && Page(h, p) + HEADER !in h.live
  {
    var b := Page(h, p) + HEADER;
    assert PageOf(h, b) == p;
    if b in h.live { LivePage(h, b); }
    forall a, q, c, i ensures IsBlock(h', a, q, c, i) <==> IsBlock(h, a, q, c, i) {}
    forall a, c ensures SmallBlock(h', a, c) <==> SmallBlock(h, a, c) {
      if SmallBlock(h, a, c) { var q, i :| IsBlock(h, a, q, c, i); assert IsBlock(h', a, q, c, i); }
      if SmallBlock(h', a, c) { var q, i :| IsBlock(h', a, q, c, i); assert IsBlock(h, a, q, c, i); }
    }
    forall a, q ensures BigBlock(h', a, q) <==> BigBlock(h, a, q) || (q == p && a == b) {}
    forall c | 0 <= c < |SIZES| ensures b !in h.free[c] { FreeElsewherePage(h, p, c, b); }
    hide IsBlock, SmallBlock;
    forall c | 0 <= c < |SIZES| ensures ListOk(h', c) { assert ListOk(h, c); }
    forall a | a in h'.live ensures LiveOk(h', a) {
      if a == b { assert BigBlock(h', b, p); } else { assert LiveOk(h, a); }
    }
  }

  /** No free block lies in a page without an arena. */
  lemma FreeElsewherePage(h: Heap, p: nat, c: nat, b: nat)
    requires BlocksOk(h) && p !in h.arenas && c < |SIZES| && PageOf(h, b) == p
    ensures b !in h.free[c]
  {
    if b in h.free[c] {
      assert ListOk(h, c);
      assert SmallBlock(h, b, c);
      var q, i :| IsBlock(h, b, q, c, i);
      BlockInside(h, q, c, i);
    }
  }

  lemma SameFreeCounts(h: Heap, h': Heap)
    requires CountsOk(h, -1) && BlocksOk(h') && h'.free == h.free && h'.base == h.base
    requires forall q :: q in h'.arenas && h'.arenas[q].Small? ==> q in h.arenas && h'.arenas[q] == h.arenas[q]
    ensures CountsOk(h', -1)
  {
    forall q | q in h'.arenas && h'.arenas[q].Small? ensures FreeIn(h', q) == FreeIn(h, q) {}
    hide BlocksOk, FreeIn;
  }

  lemma BigMadeOk(h: Heap, h': Heap, p: nat, cnt: nat, size: nat)
    requires Ok(h) && BigMade(h, h', p, cnt, size)
    ensures Ok(h') && Page(h, p) + HEADER !in h.live
  {
    MadePages(h, h', p, Big(cnt));
    BigMadeBlocks(h, h', p, cnt, size);
    SameFreeCounts(h, h');
  }

  /** The pages of a big block go back. */
  ghost predicate BigGone(h: Heap, h': Heap, p: nat) {
    && p in h.arenas && h.arenas[p].Big?
    && h' == h.(bits := SetRange(h.bits, p, h.arenas[p].pages, false), arenas := h.arenas - {p}, live := h.live - {Page(h, p) + HEADER})
  }

  lemma BigGoneBlocks(h: Heap, h': Heap, p: nat)
    requires BlocksOk(h) && BigGone(h, h', p)
    ensures BlocksOk(h')
  {
    var b := Page(h, p) + HEADER;
    assert PageOf(h, b) == p;
    forall a, q, c, i ensures IsBlock(h', a, q, c, i) <==> IsBlock(h, a, q, c, i) {}
    forall a, c ensures SmallBlock(h', a, c) <==> SmallBlock(h, a, c) {
      if SmallBlock(h, a, c) { var q, i :| IsBlock(h, a, q, c, i); assert IsBlock(h', a, q, c, i); }
      if SmallBlock(h', a, c) { var q, i :| IsBlock(h', a, q, c, i); assert IsBlock(h, a, q, c, i); }
    }
    forall a, q ensures BigBlock(h', a, q) <==> BigBlock(h, a, q) && q != p {}
    assert Accounted(h') by {
      forall a, q, c, i | IsBlock(h', a, q, c, i) ensures a in h'.live || a in h'.free[c] {
        assert IsBlock(h, a, q, c, i);
        BlockInside(h, q, c, i);
      }
    }
    hide IsBlock, SmallBlock, Accounted;
    forall c | 0 <= c < |SIZES| ensures ListOk(h', c) { assert ListOk(h, c); }
    forall a | a in h'.live ensures LiveOk(h', a) { assert LiveOk(h, a); }
  }

  lemma BigGoneOk(h: Heap, h': Heap, p: nat)
    requires Ok(h) && BigGone(h, h', p)
    ensures Ok(h')
  {
    UnmadePages(h, h', p);
    BigGoneBlocks(h, h', p);
    SameFreeCounts(h, h');
  }

  // -------------------------------------------------- pages taken by other code

  ghost predicate OthersTook(h: Heap, h': Heap, p: nat, cnt: nat) {
    && IsRun(h.bits, p, cnt, false)
    && h' == h.(bits := SetRange(h.bits, p, cnt, true), others := h.others + Span(p, cnt))
  }

  ghost predicate OthersGave(h: Heap, h': Heap, p: nat, cnt: nat) {
    && Span(p, cnt) <= h.others && p + cnt <= |h.bits|
    && h' == h.(bits := SetRange(h.bits, p, cnt, false), others := h.others - Span(p, cnt))
  }

  lemma OthersPages(h: Heap, h': Heap, p: nat, cnt: nat)
    requires PagesOk(h) && (OthersTook(h, h', p, cnt) || OthersGave(h, h', p, cnt))
    ensures PagesOk(h')
  {
    forall q: nat, x: nat ensures Covers(h', q, x) <==> Covers(h, q, x) {}
    forall x ensures Covered(h', x) <==> Covered(h, x) {
      if Covered(h, x) { var q :| Covers(h, q, x); assert Covers(h', q, x); }
      if Covered(h', x) { var q :| Covers(h', q, x); assert Covers(h, q, x); }
    }
    hide Covered;
  }

  lemma OthersOk(h: Heap, h': Heap, p: nat, cnt: nat)
    requires Ok(h) && (OthersTook(h, h', p, cnt) || OthersGave(h, h', p, cnt))
    ensures Ok(h')
  {
    OthersPages(h, h', p, cnt);
    assert SameArenas(h, h');
    SameBlocks(h, h');
    assert BlocksOk(h') by {
      hide IsBlock, SmallBlock, BigBlock;
      forall c | 0 <= c < |SIZES| ensures ListOk(h', c) { assert ListOk(h, c); }
      forall a | a in h'.live ensures LiveOk(h', a) { assert LiveOk(h, a); }
    }
    hide PagesOk;
    SameFreeCounts(h, h');
  }
}
