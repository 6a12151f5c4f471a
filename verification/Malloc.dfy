/** The block allocator (threads/malloc.c), on the pages of a pool. */
module Malloc {
  import opened Bytes
  import opened Bitmaps
  import opened Sequences
  import opened HeapModel
  import opened Palloc
  import opened Division

  /** list_remove, on a list without duplicates. */
  function Removed(s: seq<nat>, b: nat): seq<nat> {
    if s == [] then [] else if s[0] == b then s[1..] else [s[0]] + Removed(s[1..], b)
  }

  lemma {:induction false} RemovedFrom(s: seq<nat>, b: nat)
    requires NoDuplicates(s)
    ensures NoDuplicates(Removed(s, b)) && forall a :: a in Removed(s, b) <==> a in s && a != b
  {
    if s != [] {
      TailKeeps(s);
      if s[0] != b {
        RemovedFrom(s[1..], b);
        FrontKeeps(Removed(s[1..], b), s[0]);
      }
    }
  }

  /** The blocks in use hold the same bytes. */
  ghost predicate Same(base: nat, live: map<nat, nat>, m: seq<byte>, m': seq<byte>) {
    && |m'| == |m|
    && forall c, x :: c in live && c - base <= x < c - base + live[c] && 0 <= x < |m| ==> m'[x] == m[x]
  }

  predicate Changed(m: seq<byte>, m': seq<byte>, lo: int, hi: int) {
    |m'| == |m| && forall x :: 0 <= x < |m| && !(lo <= x < hi) ==> m'[x] == m[x]
  }

  lemma RoomFilled(h: Heap, m: seq<byte>, m': seq<byte>, b: nat)
    requires Ok(h) && b in h.live && Changed(m, m', b - h.base, b - h.base + Room(h, b))
    ensures Same(h.base, h.live - {b}, m, m')
  {
    forall c | c in h.live && c != b ensures b + Room(h, b) <= c || c + h.live[c] <= b { RoomApart(h, b, c); }
    hide Ok, Room;
  }

  lemma PagesFilled(h: Heap, m: seq<byte>, m': seq<byte>, p: nat, cnt: nat)
    requires Ok(h) && IsRun(h.bits, p, cnt, false) && Changed(m, m', PGSIZE * p, PGSIZE * p + PGSIZE * cnt)
    ensures Same(h.base, h.live, m, m')
  {
    forall c | c in h.live ensures cnt > 0 ==> Page(h, p + cnt) <= c || c + h.live[c] <= Page(h, p) { UnmarkedClear(h, p, cnt, c); }
    hide Ok, IsRun;
  }

  /** What a block in use holds. */
  function Held(base: nat, live: map<nat, nat>, m: seq<byte>, b: nat): seq<byte>
    requires b in live
  {
    if base <= b && b - base + live[b] <= |m| then m[b - base..b - base + live[b]] else []
  }

  /** A block in use before and after holds what it held. */
  ghost predicate Kept(base: nat, live: map<nat, nat>, m: seq<byte>, live': map<nat, nat>, m': seq<byte>) {
    forall c :: c in live && c in live' ==> Held(base, live', m', c) == Held(base, live, m, c)
  }

  lemma SameKept(base: nat, live: map<nat, nat>, m: seq<byte>, live': map<nat, nat>, m': seq<byte>)
    requires Same(base, live', m, m') && forall c :: c in live && c in live' ==> live'[c] == live[c]
    ensures Kept(base, live, m, live', m')
  {}

  lemma HeldSame(base: nat, live: map<nat, nat>, m: seq<byte>, live': map<nat, nat>, m': seq<byte>, c: nat)
    requires Same(base, live', m, m') && c in live && c in live' && live'[c] == live[c]
    ensures Held(base, live', m', c) == Held(base, live, m, c)
  {}

  /** Copying to one block what another holds. */
  lemma Moved(h: Heap, m: seq<byte>, m': seq<byte>, src: nat, dst: nat, n: nat)
    requires Ok(h) && |m| == PGSIZE * |h.bits| && src in h.live && dst in h.live && src != dst
    requires n <= h.live[dst] && (n == h.live[dst] || h.live[src] <= n)
    requires h.base <= src && h.base <= dst && src - h.base + n <= |m| && dst - h.base + n <= |m|
    requires Changed(m, m', dst - h.base, dst - h.base + n)
    requires m'[dst - h.base..dst - h.base + n] == m[src - h.base..src - h.base + n]
    ensures Same(h.base, h.live - {dst}, m, m')
    ensures Common(Held(h.base, h.live, m', dst), Held(h.base, h.live, m, src))
    ensures |Held(h.base, h.live, m', dst)| == h.live[dst]
  {
    hide Ok, Room, Same, Common, Changed;
    LiveInPool(h, src);
    LiveInPool(h, dst);
    ElsewhereSame(h, m, m', dst, n);
    Copied(m, m', src - h.base, dst - h.base, n, h.live[src], h.live[dst]);
  }

  lemma ElsewhereSame(h: Heap, m: seq<byte>, m': seq<byte>, dst: nat, n: nat)
    requires Ok(h) && dst in h.live && n <= h.live[dst] && Changed(m, m', dst - h.base, dst - h.base + n)
    ensures Same(h.base, h.live - {dst}, m, m') && |m'| == |m|
  {
    hide Ok, Room;
    forall c | c in h.live && c != dst ensures dst + h.live[dst] <= c || c + h.live[c] <= dst {
      LiveInPool(h, dst);
      RoomApart(h, dst, c);
    }
  }

  lemma SliceCopied(m: seq<byte>, m': seq<byte>, dst: nat, src: nat, n: nat)
    requires |m'| == |m| && dst + n <= |m| && src + n <= |m|
    requires forall x :: dst <= x < dst + n ==> m'[x] == m[src + (x - dst)]
    ensures m'[dst..dst + n] == m[src..src + n]
  {
    var s, t := m'[dst..dst + n], m[src..src + n];
    forall i | 0 <= i < n ensures s[i] == t[i] { assert s[i] == m'[dst + i]; }
  }

  lemma Copied(m: seq<byte>, m': seq<byte>, src: nat, dst: nat, n: nat, had: nat, has: nat)
    requires |m'| == |m| && src + n <= |m| && dst + n <= |m| && src + had <= |m| && dst + has <= |m|
    requires m'[dst..dst + n] == m[src..src + n] && n <= has && (n == has || had <= n)
    ensures Common(m'[dst..dst + has], m[src..src + had])
  {
    var s, t := m'[dst..dst + has], m[src..src + had];
    forall j | 0 <= j < |s| && j < |t| ensures s[j] == t[j] {
      assert s[j] == m'[dst..dst + n][j];
    }
  }

  /** A block is handed out, filled from another one, and that one freed. */
  lemma Replaced(base: nat, live: map<nat, nat>, m: seq<byte>, m1: seq<byte>, m2: seq<byte>, src: nat, dst: nat, size: nat)
    requires src in live && dst !in live
    requires var live1 := live[dst := size];
      && Same(base, live1 - {dst}, m, m1) && Same(base, live1 - {src}, m1, m2)
      && Common(Held(base, live1, m1, dst), Held(base, live1, m, src)) && |Held(base, live1, m1, dst)| == size
    ensures var live2 := (live - {src})[dst := size];
      && Kept(base, live, m, live2, m2) && |Held(base, live2, m2, dst)| == size
      && Common(Held(base, live2, m2, dst), Held(base, live, m, src))
  {
    hide Same, Common;
    var live1 := live[dst := size];
    var live2 := (live - {src})[dst := size];
    assert live2 == live1 - {src} && live == live1 - {dst};
    HeldSame(base, live1, m1, live2, m2, dst);
    forall c | c in live && c in live2 ensures Held(base, live2, m2, c) == Held(base, live, m, c) {
      HeldSame(base, live, m, live, m1, c);
      HeldSame(base, live, m1, live2, m2, c);
    }
  }

  lemma SameThrough(base: nat, live: map<nat, nat>, m: seq<byte>, m1: seq<byte>, m2: seq<byte>)
    requires Same(base, live, m, m1) && Same(base, live, m1, m2)
    ensures Same(base, live, m, m2)
  {
    forall c, x | c in live && c - base <= x < c - base + live[c] && 0 <= x < |m| ensures m2[x] == m[x] {
      assert m1[x] == m[x];
    }
  }

  class Allocator {
    const pool: Pool

    /** The bytes of the pool's pages. */
    const mem: array<byte>

    /** The block sizes of the descriptors, and their free lists. */
    var descs: seq<nat>
    var free: seq<seq<nat>>

    /** The arena headers, by page of the pool. */
    var arenas: map<nat, Arena>

    /** What was handed out and not freed, with the size asked for; pages taken by other code. */
    ghost var live: map<nat, nat>
    ghost var others: set<nat>

    ghost function Snap(): Heap
      requires pool.Valid()
      reads this, pool.used.words
    {
      Heap(pool.base, pool.used.Bits(), arenas, free, live, others)
    }

    ghost predicate Valid()
      reads this, pool.used.words
    {
      Shape() && Ok(Snap())
    }

    ghost predicate Shape()
      reads this`descs
    {
      pool.Valid() && descs == SIZES && mem.Length == PGSIZE * pool.used.bitCnt
    }

    /** memset. */
    method Fill(at: nat, n: nat, v: byte)
      requires at + n <= mem.Length
      modifies mem
      ensures forall x :: at <= x < at + n ==> mem[x] == v
      ensures Changed(old(mem[..]), mem[..], at, at + n)
    {
      for i := 0 to n
        invariant forall x :: 0 <= x < mem.Length ==> mem[x] == if at <= x < at + i then v else old(mem[x])
      {
        mem[at + i] := v;
      }
    }

    /** memcpy, between places that do not overlap. */
    method Copy(dst: nat, src: nat, n: nat)
      requires dst + n <= mem.Length && src + n <= mem.Length && (dst + n <= src || src + n <= dst)
      modifies mem
      ensures mem[..][dst..dst + n] == old(mem[..])[src..src + n]
      ensures Changed(old(mem[..]), mem[..], dst, dst + n)
    {
      for i := 0 to n
        invariant forall x :: 0 <= x < mem.Length ==> mem[x] == if dst <= x < dst + i then old(mem[src + (x - dst)]) else old(mem[x])
      {
        mem[dst + i] := mem[src + i];
      }
      SliceCopied(old(mem[..]), mem[..], dst, src, n);
    }

    /** block_size. */
    method BlockSize(b: nat) returns (n: nat)
      requires Valid() && b in live
      ensures n == Room(Snap(), b) && live[b] <= n && b - pool.base + n <= mem.Length
    {
      ghost var p, k, i := LiveShape(Snap(), b);
      LiveInPool(Snap(), b);
      var page := (b - pool.base) / PGSIZE;
      match arenas[page]
      case Small(d, _) => n := descs[d];
      case Big(pages) => n := PGSIZE * pages - (b - pool.base) % PGSIZE;
    }

    /** malloc_init, on a pool of which some pages are already taken. */
    constructor (pool: Pool, ghost taken: set<nat>)
      requires pool.Valid() && forall x :: x in taken <==> 0 <= x < pool.used.bitCnt && pool.used.Bits()[x]
      ensures Valid() && this.pool == pool && live == map[] && others == taken && fresh(mem)
    {
      this.pool := pool;
      mem := new byte[PGSIZE * pool.used.bitCnt];
      descs, free, arenas, live, others := [], [], map[], map[], taken;
      new;
      var blockSize := 16;
      while blockSize < PGSIZE / 2
        invariant |descs| == |free| <= 7 && (forall k :: 0 <= k < |free| ==> free[k] == [])
        invariant descs == SIZES[..|descs|] && blockSize == [16, 32, 64, 128, 256, 512, 1024, 2048][|descs|]
        invariant arenas == map[] && live == map[] && others == taken
        invariant pool.used.Bits() == old(pool.used.Bits())
        decreases PGSIZE - blockSize
      {
        descs := descs + [blockSize];
        free := free + [[]];
        blockSize := blockSize * 2;
      }
      assert Ok(Snap()) by {
        var h := Snap();
        forall x ensures !Covered(h, x) {}
        forall b, k ensures !SmallBlock(h, b, k) {}
        forall k | 0 <= k < |SIZES| ensures ListOk(h, k) {}
      }
    }

    /** The first descriptor whose blocks are large enough, or their number. */
    method FindDesc(size: nat) returns (k: nat)
      requires descs == SIZES
      ensures k == DescFor(size, 0)
    {
      k := 0;
      while k < |descs| && descs[k] < size
        invariant k <= |descs| && DescFor(size, 0) == DescFor(size, k)
      {
        k := k + 1;
      }
    }

    /** Turns a free page into an arena and puts its blocks on the empty list. */
    method MakeArena(k: nat) returns (ok: bool)
      requires Valid() && k < |SIZES| && free[k] == []
      modifies this`arenas, this`free, pool.used.words
      ensures ok <==> HasRun(old(Snap()).bits, 1)
      ensures !ok ==> Snap() == old(Snap())
      ensures ok ==> exists p: nat :: Made(old(Snap()), Snap(), k, p)
    {
      hide OkBut;
      OneListEach(Snap());
      ghost var h := Snap();
      var a := pool.GetMultiple(1);
      if a == 0 { return false; }
      ghost var p :| a == pool.base + PGSIZE * p && IsRun(h.bits, p, 1, false) && pool.used.Bits() == SetRange(h.bits, p, 1, true);
      var n := PerArena(descs[k]);
      PageAddress(pool.base, p);
      arenas := arenas[(a - pool.base) / PGSIZE := Small(k, n)];
      ListBlocks(a, k, n, h, p);
      ok := true;
      assert !h.bits[p];
      assert Made(h, Snap(), k, p);
    }

    /** The blocks of an arena go on the empty list, in order. */
    method ListBlocks(a: nat, k: nat, n: nat, ghost h: Heap, ghost p: nat)
      requires descs == SIZES && k < |SIZES| && |h.free| == |SIZES| && free == h.free && free[k] == [] && a == Page(h, p)
      modifies this`free
      ensures free == h.free[k := AllBlocks(h, p, k, n)]
    {
      for i := 0 to n
        invariant free == h.free[k := AllBlocks(h, p, k, i)]
      {
        free := free[k := free[k] + [a + HEADER + i * descs[k]]];
      }
    }

    /** Takes the first block of a list. */
    method TakeFirst(k: nat, size: nat, ghost x: int) returns (b: nat)
      requires Shape() && k < |SIZES| && OkBut(Snap(), x) && free[k] != [] && size <= SIZES[k]
      requires x == -1 || x == PageOf(Snap(), free[k][0])
      modifies this`arenas, this`free, this`live
      ensures Valid() && b != 0 && b !in old(live) && live == old(live)[b := size] && Room(Snap(), b) == SIZES[k]
      ensures Grown(old(Snap()), Snap())
    {
      ghost var h := Snap();
      ghost var p, i := HeadBlock(h, k, x);
      b := free[k][0];
      free := free[k := free[k][1..]];
      var page := (b - pool.base) / PGSIZE;
      arenas := arenas[page := arenas[page].(freeCnt := arenas[page].freeCnt - 1)];
      live := live[b := size];
      assert Took(h, Snap(), k, p, i, size);
      TookOk(h, Snap(), k, p, i, size, x);
      RoomOf(Snap(), b, p, k, i);
    }

    /** A block too big for any descriptor. */
    method MallocBig(size: nat) returns (b: nat)
      requires Valid() && 1024 < size < TWO32
      modifies this`arenas, this`live, pool.used.words
      ensures Valid()
      ensures b != 0 ==> b !in old(live) && live == old(live)[b := Granted(size)] && Room(Snap(), b) == NewRoom(size)
      ensures b == 0 ==> Snap() == old(Snap())
      ensures Grown(old(Snap()), Snap())
      ensures b != 0 <==> BigPages(size) > 0 && HasRun(old(Snap()).bits, BigPages(size))
    {
      hide OkBut, IsRun, HasRun;
      ghost var h := Snap();
      var pageCnt := ((size + HEADER) % TWO32 + PGSIZE - 1) % TWO32 / PGSIZE;
      GrantedFits(size);
      var a := pool.GetMultiple(pageCnt);
      if a == 0 { return 0; }
      ghost var p :| a == pool.base + PGSIZE * p && IsRun(h.bits, p, pageCnt, false) && pool.used.Bits() == SetRange(h.bits, p, pageCnt, true);
      PageAddress(pool.base, p);
      arenas := arenas[(a - pool.base) / PGSIZE := Big(pageCnt)];
      b := a + HEADER;
      live := live[b := Granted(size)];
      assert BigMade(h, Snap(), p, pageCnt, Granted(size));
      BigMadeOk(h, Snap(), p, pageCnt, Granted(size));
      BigRoom(Snap(), p, pageCnt);
      BigGrown(h, Snap(), p, pageCnt, Granted(size));
    }

    /**
     * malloc: null for no bytes, or when there is neither a free block
     * of the right size nor a free page, or no run of pages for a big
     * block; otherwise a block of its own.
     */
    method Malloc(size: nat) returns (b: nat)
      requires Valid() && size < TWO32
      modifies this`arenas, this`free, this`live, pool.used.words
      ensures Valid()
      ensures b != 0 ==> b !in old(live) && live == old(live)[b := Granted(size)] && Room(Snap(), b) == NewRoom(size)
      ensures b == 0 ==> Snap() == old(Snap())
      ensures Grown(old(Snap()), Snap())
      ensures b != 0 <==> CanServe(old(Snap()), size)
    {
      hide OkBut, HasRun, BigPages, Granted, DescFor, Grown;
      GrownSelf(Snap());
      OneListEach(Snap());
      if size == 0 { return 0; }
      var k := FindDesc(size);
      SmallGranted(size);
      if k == |descs| {
        b := MallocBig(size);
      } else if free[k] == [] {
        ghost var h := Snap();
        var ok := MakeArena(k);
        if !ok { return 0; }
        ghost var p: nat :| Made(h, Snap(), k, p);
        MadeOk(h, Snap(), k, p);
        MadeGrown(h, Snap(), k, p);
        BlockInside(h, p, k, 0);
        ghost var h1 := Snap();
        b := TakeFirst(k, size, p);
        GrownThrough(h, h1, Snap());
      } else {
        b := TakeFirst(k, size, -1);
      }
    }

    /** palloc_get_multiple, called by other code on the same pool: the first of the pages, or no change. */
    method TakePages(cnt: nat) returns (ok: bool, p: nat)
      requires Valid()
      modifies this`others, pool.used.words
      ensures Valid() && (ok <==> cnt > 0 && HasRun(old(Snap()).bits, cnt))
      ensures if ok then Span(p, cnt) !! old(others) && OthersTook(old(Snap()), Snap(), p, cnt) else Snap() == old(Snap())
    {
      hide OkBut, HasRun;
      ghost var h := Snap();
      ok, p := false, 0;
      var a := pool.GetMultiple(cnt);
      if a != 0 {
        ok, p := true, (a - pool.base) / PGSIZE;
        ghost var q :| a == pool.base + PGSIZE * q && IsRun(h.bits, q, cnt, false) && pool.used.Bits() == SetRange(h.bits, q, cnt, true);
        PageAddress(pool.base, q);
        FreePages(h, p, cnt);
        others := others + Span(p, cnt);
        assert OthersTook(h, Snap(), p, cnt);
        OthersOk(h, Snap(), p, cnt);
      }
    }

    /** palloc_free_multiple of pages that other code holds. */
    method GivePages(p: nat, cnt: nat)
      requires Valid() && p + cnt <= pool.used.bitCnt && Span(p, cnt) <= others
      modifies this`others, pool.used.words, mem
      ensures Valid() && OthersGave(old(Snap()), Snap(), p, cnt)
      ensures Same(pool.base, live, old(mem[..]), mem[..])
    {
      hide OkBut, IsRun, Same;
      ghost var h := Snap();
      OthersMarked(h, p, cnt);
      PageAddress(pool.base, p);
      Fill(PGSIZE * p, PGSIZE * cnt, 0xcc);
      pool.FreeMultiple(pool.base + PGSIZE * p, cnt);
      others := others - Span(p, cnt);
      assert OthersGave(h, Snap(), p, cnt);
      OthersOk(h, Snap(), p, cnt);
      PagesFilled(Snap(), old(mem[..]), mem[..], p, cnt);
    }

    /** free of a block from a descriptor's arena. */
    method FreeSmall(b: nat, ghost p: nat, ghost k: nat, ghost i: nat)
      requires Valid() && b in live && IsBlock(Snap(), b, p, k, i)
      modifies this`arenas, this`free, this`live, pool.used.words, mem
      ensures Valid() && live == old(live) - {b} && others == old(others)
      ensures Same(pool.base, live, old(mem[..]), mem[..])
    {
      hide OkBut, Same, Changed, Room;
      ghost var h := Snap();
      BlockInside(h, p, k, i);
      OneListEach(h);
      RoomOf(h, b, p, k, i);
      var page := (b - pool.base) / PGSIZE;
      var d := arenas[page].k;
      LiveInPool(h, b);
      Fill(b - pool.base, descs[d], 0xcc);
      RoomFilled(h, old(mem[..]), mem[..], b);
      ghost var m := mem[..];
      free := free[d := [b] + free[d]];
      arenas := arenas[page := arenas[page].(freeCnt := arenas[page].freeCnt + 1)];
      live := live - {b};
      ghost var h1 := Snap();
      assert Gave(h, h1, b, p, k, i);
      GaveOk(h, h1, b, p, k, i);
      if arenas[page].freeCnt >= PerArena(descs[d]) {
        DropArena(page, d);
        SameThrough(pool.base, live, old(mem[..]), m, mem[..]);
      } else {
        GaveStays(h1, p);
      }
    }

    /** Takes the blocks of an arena off their list. */
    method Unlist(page: nat, d: nat)
      requires Shape() && BlocksOk(Snap()) && d < |SIZES| && HasSmall(Snap(), page, d)
      modifies this`free
      ensures |free| == |SIZES| && (forall c :: 0 <= c < |SIZES| && c != d ==> free[c] == old(free)[c])
      ensures WithoutPage(old(Snap()), old(free)[d], free[d], page)
    {
      ghost var h := Snap();
      assert ListOk(h, d);
      var a := pool.base + PGSIZE * page;
      var n := PerArena(descs[d]);
      for i := 0 to n
        invariant |free| == |SIZES| && (forall c :: 0 <= c < |SIZES| && c != d ==> free[c] == h.free[c])
        invariant NoDuplicates(free[d]) && forall x :: x in free[d] <==> x in h.free[d] && !IsAmong(h, x, page, d, i)
      {
        hide NoDuplicates, IsAmong, BlocksOk;
        var b := a + HEADER + i * descs[d];
        RemovedFrom(free[d], b);
        AmongNext(h, page, d, i);
        free := free[d := Removed(free[d], b)];
      }
      hide NoDuplicates, IsAmong, BlocksOk;
      PageGone(h, free[d], page, d);
    }

    /** Gives up a wholly free arena: its blocks leave the list and its page goes back. */
    method DropArena(page: nat, d: nat)
      requires Shape() && OkBut(Snap(), page) && d < |SIZES| && HasSmall(Snap(), page, d)
      requires arenas[page].freeCnt >= PerArena(SIZES[d])
      modifies this`arenas, this`free, pool.used.words, mem
      ensures Valid() && live == old(live) && Same(pool.base, live, old(mem[..]), mem[..])
    {
      ghost var h := Snap();
      assert BlocksOk(h);
      hide OkBut, WithoutPage, BlocksOk;
      Marked(h, page, page);
      Unlist(page, d);
      var a := pool.base + PGSIZE * page;
      PageAddress(pool.base, page);
      Fill(PGSIZE * page, PGSIZE, 0xcc);
      pool.FreeMultiple(a, 1);
      arenas := arenas - {page};
      assert Unmade(h, Snap(), page, d);
      UnmadeOk(h, Snap(), page, d);
      PagesFilled(Snap(), old(mem[..]), mem[..], page, 1);
    }

    method FreeBig(b: nat, ghost p: nat)
      requires Valid() && b in live && BigBlock(Snap(), b, p)
      modifies this`arenas, this`live, pool.used.words, mem
      ensures Valid() && live == old(live) - {b} && others == old(others)
      ensures Same(pool.base, live, old(mem[..]), mem[..])
    {
      hide OkBut, IsRun;
      ghost var h := Snap();
      Marked(h, p, -1);
      var page := (b - pool.base) / PGSIZE;
      assert page == p;
      var a := pool.base + PGSIZE * page;
      PageAddress(pool.base, page);
      var cnt := arenas[page].pages;
      Fill(PGSIZE * page, PGSIZE * cnt, 0xcc);
      pool.FreeMultiple(a, cnt);
      arenas := arenas - {page};
      live := live - {b};
      assert BigGone(h, Snap(), p);
      BigGoneOk(h, Snap(), p);
      PagesFilled(Snap(), old(mem[..]), mem[..], p, cnt);
    }

    /** free: of a null pointer or of a block that is in use; the others keep what they hold. */
    method Free(b: nat)
      requires Valid() && (b == 0 || b in live)
      modifies this`arenas, this`free, this`live, pool.used.words, mem
      ensures Valid() && live == old(live) - {b}
      ensures Same(pool.base, live, old(mem[..]), mem[..])
    {
      ghost var h := Snap();
      if b == 0 {
        NullNotLive(h);
      } else {
        ghost var p, k, i := LiveShape(h, b);
        var page := (b - pool.base) / PGSIZE;
        if arenas[page].Small? {
          FreeSmall(b, p, k, i);
        } else {
          FreeBig(b, p);
        }
      }
    }

    /**
     * realloc: a new block in place of the old one, holding what it held as
     * far as both reach; or, if there is none, no change; no bytes frees
     * the block. The one call that is ruled out is that whose copy would
     * not fit the new block.
     */
    method Realloc(oldBlock: nat, newSize: nat) returns (b: nat)
      requires Valid() && (oldBlock == 0 || oldBlock in live) && newSize < TWO32 && !Overruns(Snap(), oldBlock, newSize)
      modifies this`arenas, this`free, this`live, pool.used.words, mem
      ensures Valid()
      ensures newSize == 0 ==> b == 0 && live == old(live) - {oldBlock}
      ensures newSize > 0 && b == 0 ==> Snap() == old(Snap()) && mem[..] == old(mem[..])
      ensures b != 0 ==> b !in old(live) && live == (old(live) - {oldBlock})[b := Granted(newSize)]
      ensures newSize > 0 ==> (b != 0 <==> CanServe(old(Snap()), newSize))
      ensures Kept(pool.base, old(live), old(mem[..]), live, mem[..])
      ensures b != 0 ==> |Held(pool.base, live, mem[..], b)| == Granted(newSize)
      ensures b != 0 && oldBlock != 0 ==>
        Common(Held(pool.base, live, mem[..], b), Held(pool.base, old(live), old(mem[..]), oldBlock))
    {
      hide Ok, CanServe, Common, Room, Same, Granted, NewRoom;
      if newSize == 0 {
        Free(oldBlock);
        SameKept(pool.base, old(live), old(mem[..]), live, mem[..]);
        return 0;
      }
      OneListEach(Snap());
      ghost var h := Snap();
      b := Malloc(newSize);
      if oldBlock != 0 && b != 0 {
        CopyFits(h, newSize, Room(h, oldBlock));
        SameRoom(h, Snap(), oldBlock);
        Move(oldBlock, b, newSize);
        ghost var m := mem[..];
        Free(oldBlock);
        assert live == (old(live) - {oldBlock})[b := Granted(newSize)];
        Replaced(pool.base, old(live), old(mem[..]), m, mem[..], oldBlock, b, Granted(newSize));
      } else {
        NullNotLive(Snap());
        if b != 0 { LiveInPool(Snap(), b); }
      }
    }

    /** The copy inside realloc. */
    method Move(src: nat, dst: nat, newSize: nat)
      requires Valid() && src in live && dst in live && src != dst
      requires newSize == live[dst] || (live[dst] <= newSize && Room(Snap(), src) <= live[dst])
      modifies mem
      ensures Valid() && Same(pool.base, live - {dst}, old(mem[..]), mem[..])
      ensures Common(Held(pool.base, live, mem[..], dst), Held(pool.base, live, old(mem[..]), src))
      ensures |Held(pool.base, live, mem[..], dst)| == live[dst]
    {
      hide Ok, Common, Held, Same, Room;
      ghost var h := Snap();
      var size := BlockSize(src);
      RoomApart(h, src, dst);
      LiveInPool(h, src);
      LiveInPool(h, dst);
      var n := if newSize < size then newSize else size;
      Copy(dst - pool.base, src - pool.base, n);
      Moved(h, old(mem[..]), mem[..], src, dst, n);
    }

    /** A caller stores bytes in a block of its own. */
    method Store(b: nat, at: nat, data: seq<byte>)
      requires Valid() && b in live && at + |data| <= live[b]
      modifies mem
      ensures Valid() && Same(pool.base, live - {b}, old(mem[..]), mem[..])
      ensures Held(pool.base, live, mem[..], b) == Stored(Held(pool.base, live, old(mem[..]), b), at, data)
    {
      hide Ok, Same, Room, Changed;
      LiveInPool(Snap(), b);
      var o := b - pool.base + at;
      for i := 0 to |data|
        invariant forall x :: 0 <= x < mem.Length ==> mem[x] == if o <= x < o + i then data[x - o] else old(mem[x])
      {
        mem[o + i] := data[i];
      }
      Patched(old(mem[..]), mem[..], b - pool.base, live[b], at, data);
      ChangedMore(old(mem[..]), mem[..], o, o + |data|, b - pool.base, b - pool.base + live[b]);
      ElsewhereSame(Snap(), old(mem[..]), mem[..], b, live[b]);
    }
  }

  /** The bytes of a block after some were stored in it. */
  function Stored(s: seq<byte>, at: nat, data: seq<byte>): seq<byte> {
    if at + |data| <= |s| then s[..at] + data + s[at + |data|..] else s
  }

  lemma Patched(m: seq<byte>, m': seq<byte>, b: nat, len: nat, at: nat, data: seq<byte>)
    requires |m'| == |m| && b + len <= |m| && at + |data| <= len
    requires forall x :: 0 <= x < |m| ==> m'[x] == if b + at <= x < b + at + |data| then data[x - (b + at)] else m[x]
    ensures m'[b..b + len] == Stored(m[b..b + len], at, data)
    ensures Changed(m, m', b + at, b + at + |data|)
  {}

  lemma ChangedMore(m: seq<byte>, m': seq<byte>, lo: int, hi: int, lo': int, hi': int)
    requires Changed(m, m', lo, hi) && lo' <= lo && hi <= hi'
    ensures Changed(m, m', lo', hi')
  {}

  /** As far as both reach, they are the same. */
  predicate Common(s: seq<byte>, t: seq<byte>) { forall j :: 0 <= j < |s| && j < |t| ==> s[j] == t[j] }

  lemma RoomOf(h: Heap, b: nat, p: nat, k: nat, i: nat)
    requires IsBlock(h, b, p, k, i)
    ensures Room(h, b) == SIZES[k]
  {
    BlockInside(h, p, k, i);
  }

  lemma BigRoom(h: Heap, p: nat, cnt: nat)
    requires p in h.arenas && h.arenas[p] == Big(cnt)
    ensures Room(h, Page(h, p) + HEADER) == PGSIZE * cnt - HEADER
  {}

  lemma OneListEach(h: Heap)
    requires Ok(h)
    ensures |h.free| == |SIZES|
  {}

  /** The pages of others are marked. */
  lemma OthersMarked(h: Heap, p: nat, cnt: nat)
    requires Ok(h) && Span(p, cnt) <= h.others && p + cnt <= |h.bits|
    ensures IsRun(h.bits, p, cnt, true) && IsRun(SetRange(h.bits, p, cnt, false), p, cnt, false)
  {
    hide CountsOk;
    forall x | p <= x < p + cnt ensures h.bits[x] { assert x in Span(p, cnt); }
  }

  lemma FreePages(h: Heap, p: nat, cnt: nat)
    requires Ok(h) && IsRun(h.bits, p, cnt, false)
    ensures Span(p, cnt) !! h.others
  {
    hide CountsOk;
    forall x | x in Span(p, cnt) ensures x !in h.others { assert !h.bits[x]; }
  }

  /** DIV_ROUND_UP (size + sizeof *a, PGSIZE), in 32 bits. */
  function BigPages(size: nat): nat { ((size + HEADER) % TWO32 + PGSIZE - 1) % TWO32 / PGSIZE }

  /**
   * A big block takes the fewest pages that hold it and its header; sizes
   * that leave no room to round up in 32 bits are refused, but for the
   * eleven that wrap around with the header, which get one page.
   */
  lemma BigPagesFewest(size: nat)
    requires size < TWO32
    ensures size + HEADER + PGSIZE <= TWO32 ==> PGSIZE * (BigPages(size) - 1) < size + HEADER <= PGSIZE * BigPages(size)
    ensures TWO32 - PGSIZE < size + HEADER <= TWO32 ==> BigPages(size) == 0
    ensures size + HEADER > TWO32 ==> BigPages(size) == 1
  {}

  /** The bytes that a block handed out for this size has: those asked for, or as many as its pages hold. */
  function Granted(size: nat): nat {
    if size <= 1024 || size + HEADER <= PGSIZE * BigPages(size) then size
    else if BigPages(size) > 0 then PGSIZE * BigPages(size) - HEADER
    else 0
  }

  lemma GrantedFits(size: nat)
    requires 1024 < size < TWO32
    ensures BigPages(size) > 0 ==> Granted(size) + HEADER <= PGSIZE * BigPages(size)
  {}

  /** A block that is handed out has the bytes asked for just when the header can be added in 32 bits. */
  lemma GrantedExact(size: nat)
    requires size < TWO32 && (1024 < size ==> BigPages(size) > 0)
    ensures Granted(size) == size <==> size + HEADER < TWO32
  {}

  /** Eleven sizes, such as 2^32 - 11, are handed out a block of 4084 bytes, wherever there is a free page. */
  lemma GrantedFails(h: Heap, size: nat)
    requires |h.free| == |SIZES| && TWO32 - HEADER < size < TWO32
    ensures CanServe(h, size) <==> HasRun(h.bits, 1)
    ensures Granted(size) == PGSIZE - HEADER == 4084 < size
  {}

  /** The request can be met: from a list, from a new arena, or from a run of pages. */
  ghost predicate CanServe(h: Heap, size: nat)
    requires |h.free| == |SIZES|
  {
    var k := DescFor(size, 0);
    size > 0 && if k < |SIZES| then h.free[k] != [] || HasRun(h.bits, 1) else BigPages(size) > 0 && HasRun(h.bits, BigPages(size))
  }

  lemma SmallGranted(size: nat)
    ensures if DescFor(size, 0) < |SIZES| then Granted(size) == size else size > 1024
  {}

  /** block_size of the block that is handed out for this size. */
  function NewRoom(size: nat): int {
    if size <= 1024 then SIZES[DescFor(size, 0)] else PGSIZE * BigPages(size) - HEADER
  }

  /** The size wraps around, and the old block is larger than the page that is then handed out. */
  predicate Oversized(h: Heap, oldBlock: nat, newSize: nat) {
    oldBlock != 0 && newSize + HEADER >= TWO32 && Room(h, oldBlock) > PGSIZE - HEADER
  }

  /** realloc would copy more than the new block has. */
  ghost predicate Overruns(h: Heap, oldBlock: nat, newSize: nat)
    requires |h.free| == |SIZES|
  {
    Oversized(h, oldBlock, newSize) && CanServe(h, newSize)
  }

  /** What realloc copies fits the new block just when it does not: all bytes behind the old one, but no more than were asked for. */
  lemma CopyFits(h: Heap, size: nat, room: int)
    requires |h.free| == |SIZES| && size < TWO32 && CanServe(h, size)
    ensures (if size < room then size else room) <= NewRoom(size) <==> !(size + HEADER >= TWO32 && room > PGSIZE - HEADER)
    ensures size + HEADER < TWO32 ==> Granted(size) == size
    ensures size + HEADER >= TWO32 ==> Granted(size) == PGSIZE - HEADER == NewRoom(size)
  {}

  /** No arena is gone or has changed its shape. */
  ghost predicate Grown(h: Heap, h': Heap) {
    h'.base == h.base && forall p :: p in h.arenas ==> p in h'.arenas && Alike(h.arenas[p], h'.arenas[p])
  }

  lemma GrownSelf(h: Heap)
    ensures Grown(h, h)
  {}

  lemma MadeGrown(h: Heap, h': Heap, k: nat, p: nat)
    requires Ok(h) && Made(h, h', k, p)
    ensures Grown(h, h')
  {
    hide CountsOk, AllBlocks;
    UnmarkedFree(h, p);
    assert p in h.arenas ==> Covers(h, p, p);
  }

  lemma BigGrown(h: Heap, h': Heap, p: nat, cnt: nat, size: nat)
    requires Ok(h) && BigMade(h, h', p, cnt, size)
    ensures Grown(h, h')
  {
    hide CountsOk;
    UnmarkedFree(h, p);
    assert p in h.arenas ==> Covers(h, p, p);
  }

  lemma GrownThrough(h: Heap, h1: Heap, h2: Heap)
    requires Grown(h, h1) && Grown(h1, h2)
    ensures Grown(h, h2)
  {}

  /** Then the blocks in use are as large as they were. */
  lemma SameRoom(h: Heap, h': Heap, b: nat)
    requires Ok(h) && b in h.live && Grown(h, h')
    ensures Room(h', b) == Room(h, b)
  {
    var p, k, i := LiveShape(h, b);
  }

  /** The first descriptor from k on whose blocks are large enough. */
  function DescFor(size: nat, k: nat): (r: nat)
    requires k <= |SIZES|
    ensures k <= r <= |SIZES| && (r < |SIZES| ==> size <= SIZES[r]) && forall c :: k <= c < r ==> SIZES[c] < size
    decreases |SIZES| - k
  {
    if k == |SIZES| || size <= SIZES[k] then k else DescFor(size, k + 1)
  }

  /** The first block of a list is a block of an arena that counts it. */
  lemma HeadBlock(h: Heap, k: nat, x: int) returns (p: nat, i: nat)
    requires OkBut(h, x) && k < |SIZES| && h.free[k] != []
    ensures IsBlock(h, h.free[k][0], p, k, i) && h.arenas[p].freeCnt > 0 && PageOf(h, h.free[k][0]) == p && h.free[k][0] > 0
  {
    var b := h.free[k][0];
    assert ListOk(h, k) && b in h.free[k];
    assert SmallBlock(h, b, k);
    p, i :| IsBlock(h, b, p, k, i);
    BlockInside(h, p, k, i);
    assert i in FreeIn(h, p);
  }

  /** The element is one of the first n blocks of the arena at p. */
  predicate IsAmong(h: Heap, x: nat, p: nat, k: nat, n: nat)
    requires k < |SIZES|
  {
    exists j :: 0 <= j < n && x == BlockAt(h, p, k, j)
  }

  lemma AmongNext(h: Heap, p: nat, k: nat, n: nat)
    requires k < |SIZES|
    ensures forall x :: IsAmong(h, x, p, k, n + 1) <==> IsAmong(h, x, p, k, n) || x == BlockAt(h, p, k, n)
  {
    forall x ensures IsAmong(h, x, p, k, n + 1) <==> IsAmong(h, x, p, k, n) || x == BlockAt(h, p, k, n) {
      if IsAmong(h, x, p, k, n) {
        var j :| 0 <= j < n && x == BlockAt(h, p, k, j);
        assert 0 <= j < n + 1 && x == BlockAt(h, p, k, j);
      }
    }
  }

  /** Removing all its blocks leaves what lies in other pages. */
  lemma PageGone(h: Heap, r: seq<nat>, p: nat, k: nat)
    requires BlocksOk(h) && k < |SIZES| && HasSmall(h, p, k) && NoDuplicates(r)
    requires forall x :: x in r <==> x in h.free[k] && !IsAmong(h, x, p, k, PerArena(SIZES[k]))
    ensures WithoutPage(h, h.free[k], r, p)
  {
    assert ListOk(h, k);
    forall x | x in h.free[k] ensures IsAmong(h, x, p, k, PerArena(SIZES[k])) <==> PageOf(h, x) == p {
      assert SmallBlock(h, x, k);
      var q, i :| IsBlock(h, x, q, k, i);
      BlockInside(h, q, k, i);
      if IsAmong(h, x, p, k, PerArena(SIZES[k])) {
        var j :| 0 <= j < PerArena(SIZES[k]) && x == BlockAt(h, p, k, j);
        BlockInside(h, p, k, j);
      }
    }
  }

  lemma PageAddress(base: nat, p: nat)
    requires base % PGSIZE == 0
    ensures (base + PGSIZE * p) % PGSIZE == 0 && (base + PGSIZE * p - base) / PGSIZE == p
  {}

  /** The pages of an arena are marked. */
  lemma Marked(h: Heap, p: nat, x: int)
    requires OkBut(h, x) && p in h.arenas
    ensures IsRun(h.bits, p, PagesOf(h.arenas[p]), true) && PagesOf(h.arenas[p]) > 0
    ensures IsRun(SetRange(h.bits, p, PagesOf(h.arenas[p]), false), p, PagesOf(h.arenas[p]), false)
    ensures p + PagesOf(h.arenas[p]) <= |h.bits|
  {
    hide CountsOk;
    forall y | p <= y < p + PagesOf(h.arenas[p]) ensures h.bits[y] {
      assert Covers(h, p, y);
    }
  }

  lemma GaveStays(h: Heap, p: nat)
    requires OkBut(h, p) && p in h.arenas && h.arenas[p].Small? && h.arenas[p].freeCnt < PerArena(SIZES[h.arenas[p].k])
    ensures Ok(h)
  {}

  /** block_to_arena finds the arena of a live block, and the block is aligned in it as it asserts. */
  lemma LiveShape(h: Heap, b: nat) returns (p: nat, k: nat, i: nat)
    requires Ok(h) && b in h.live
    ensures b > 0 && PageOf(h, b) == p && p in h.arenas
    ensures h.arenas[p].Small? ==> IsBlock(h, b, p, k, i) && ((b - h.base) % PGSIZE - HEADER) % SIZES[k] == 0
    ensures h.arenas[p].Big? ==> BigBlock(h, b, p) && (b - h.base) % PGSIZE == HEADER
  {
    p := LivePlace(h, b);
    k, i := 0, 0;
    if h.arenas[p].Small? {
      k := h.arenas[p].k;
      var j :| IsBlock(h, b, p, k, j);
      i := j;
      BlockInside(h, p, k, i);
      assert (b - h.base) % PGSIZE == HEADER + i * SIZES[k];
      Aligned(i, SIZES[k]);
    }
  }

  lemma Aligned(i: nat, size: nat)
    requires size > 0
    ensures (i * size) % size == 0
  {
    assert (i + 1) * size == i * size + size;
    QuotientIs(i * size, size, i);
    DivDef(i * size, size);
    assert size * i == i * size;
  }

  lemma NullNotLive(h: Heap)
    requires Ok(h)
    ensures 0 !in h.live
  {
    if 0 in h.live { var p := LivePlace(h, 0); }
  }
}
