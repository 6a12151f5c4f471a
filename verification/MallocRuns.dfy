/**
 * Whole runs of the block allocator (threads/malloc.c): requests for
 * blocks, stores into them, and requests of other code for pages of the
 * same pool.
 */
module MallocRuns {
  import opened Bytes
  import opened Bitmaps
  import opened HeapModel
  import opened Palloc
  import opened Malloc

  /**
   * Requests name the blocks, and the runs of pages, by the order in which
   * they were asked for.
   */
  datatype Request =
    | Ask(size: nat) | Resize(n: nat, size: nat) | Release(n: nat) | Store(n: nat, at: nat, data: seq<byte>)
    | Take(cnt: nat) | Give(n: nat)

  /** The heap, the bytes of the pool, the blocks asked for (0 when there is none) and the runs of pages (empty when given back). */
  datatype Moment = Moment(heap: Heap, mem: seq<byte>, blocks: seq<nat>, runs: seq<(nat, nat)>)

  // ------------------------------------------------------------- what a request does

  /** A request that a caller may make: sizes are 32 bits, and a resize is not one whose copy could overrun the new block. */
  ghost predicate Proper(m: Moment, r: Request) {
    match r
    case Ask(size) => size < TWO32
    case Resize(n, size) => n < |m.blocks| && size < TWO32 && !Oversized(m.heap, m.blocks[n], size)
    case Release(n) => n < |m.blocks|
    case Store(n, at, data) => n < |m.blocks| && m.blocks[n] in m.heap.live && at + |data| <= m.heap.live[m.blocks[n]]
    case Take(_) => true
    case Give(n) => n < |m.runs|
  }

  /** What a block in use holds. */
  ghost function Contents(m: Moment, b: nat): seq<byte>
    requires b in m.heap.live
  {
    Held(m.heap.base, m.heap.live, m.mem, b)
  }

  /** Blocks in use before and after hold what they held. */
  ghost predicate Keep(m: Moment, m': Moment) { Kept(m.heap.base, m.heap.live, m.mem, m'.heap.live, m'.mem) }

  /** The pages of other code, and the pool, stay. */
  ghost predicate Apart(m: Moment, m': Moment) {
    m'.heap.others == m.heap.others && m'.runs == m.runs && m'.heap.base == m.heap.base && |m'.heap.bits| == |m.heap.bits|
  }

  ghost predicate Asked(m: Moment, size: nat, m': Moment)
    requires |m.heap.free| == |SIZES|
  {
    && Apart(m, m') && m'.mem == m.mem && |m'.blocks| == |m.blocks| + 1 && m.blocks == m'.blocks[..|m.blocks|]
    && var b := m'.blocks[|m.blocks|];
       if CanServe(m.heap, size) then b != 0 && b !in m.heap.live && m'.heap.live == m.heap.live[b := Granted(size)]
       else b == 0 && m'.heap == m.heap
  }

  ghost predicate Resized(m: Moment, n: nat, size: nat, m': Moment)
    requires |m.heap.free| == |SIZES| && n < |m.blocks|
  {
    if size == 0 then Released(m, n, m')
    else if !CanServe(m.heap, size) then m' == m
    else
      && Apart(m, m') && Keep(m, m') && |m'.blocks| == |m.blocks| && m'.blocks == m.blocks[n := m'.blocks[n]]
      && var was, b := m.blocks[n], m'.blocks[n];
         && b != 0 && b !in m.heap.live && m'.heap.live == (m.heap.live - {was})[b := Granted(size)]
         && |Contents(m', b)| == Granted(size) && (was in m.heap.live ==> Common(Contents(m', b), Contents(m, was)))
  }

  ghost predicate Released(m: Moment, n: nat, m': Moment)
    requires n < |m.blocks|
  {
    Apart(m, m') && Keep(m, m') && m'.blocks == m.blocks[n := 0] && m'.heap.live == m.heap.live - {m.blocks[n]}
  }

  ghost predicate StoredIn(m: Moment, n: nat, at: nat, data: seq<byte>, m': Moment)
    requires n < |m.blocks| && m.blocks[n] in m.heap.live
  {
    && m' == m.(mem := m'.mem) && Same(m.heap.base, m.heap.live - {m.blocks[n]}, m.mem, m'.mem)
    && Contents(m', m.blocks[n]) == Stored(Contents(m, m.blocks[n]), at, data)
  }

  ghost predicate Taken(m: Moment, cnt: nat, m': Moment) {
    if cnt > 0 && HasRun(m.heap.bits, cnt) then
      && m'.blocks == m.blocks && m'.mem == m.mem && |m'.runs| == |m.runs| + 1
      && var (p, c) := m'.runs[|m.runs|];
         && c == cnt && m'.runs == m.runs + [(p, cnt)] && Span(p, cnt) !! m.heap.others && OthersTook(m.heap, m'.heap, p, cnt)
    else m' == m
  }

  ghost predicate Given(m: Moment, n: nat, m': Moment)
    requires n < |m.runs|
  {
    && m'.blocks == m.blocks && m'.runs == m.runs[n := (0, 0)] && Keep(m, m')
    && OthersGave(m.heap, m'.heap, m.runs[n].0, m.runs[n].1)
  }

  /** One request; one that may not be made is passed over. */
  ghost predicate Serves(m: Moment, r: Request, m': Moment)
    requires |m.heap.free| == |SIZES|
  {
    if !Proper(m, r) then m' == m
    else match r
      case Ask(size) => Asked(m, size, m')
      case Resize(n, size) => Resized(m, n, size, m')
      case Release(n) => Released(m, n, m')
      case Store(n, at, data) => StoredIn(m, n, at, data, m')
      case Take(cnt) => Taken(m, cnt, m')
      case Give(n) => Given(m, n, m')
  }

  // ------------------------------------------------------------------------ tables

  /** blocks holds the blocks in use, and 0 for those that are gone. */
  ghost predicate Tracks(live: map<nat, nat>, blocks: seq<nat>) {
    && (forall b :: b in live <==> b in blocks && b != 0)
    && (forall i, j :: 0 <= i < j < |blocks| && blocks[i] != 0 ==> blocks[i] != blocks[j])
  }

  lemma TracksUpdate(live: map<nat, nat>, blocks: seq<nat>, n: nat, b: nat, live': map<nat, nat>)
    requires Tracks(live, blocks) && n < |blocks| && (b == 0 || b !in live)
    requires live'.Keys == live.Keys - {blocks[n]} + (if b == 0 then {} else {b})
    ensures Tracks(live', blocks[n := b])
  {
    var blocks' := blocks[n := b];
    forall a ensures a in live' <==> a in blocks' && a != 0 {
      if a in blocks && a != blocks[n] {
        var i :| 0 <= i < |blocks| && blocks[i] == a;
        assert blocks'[i] == a;
      }
      if a in blocks' {
        var i :| 0 <= i < |blocks'| && blocks'[i] == a;
        if i == n { assert a == b; } else { assert blocks[i] == a; }
      }
      if a == b { assert blocks'[n] == b; }
    }
  }

  lemma TracksAppend(live: map<nat, nat>, blocks: seq<nat>, b: nat, live': map<nat, nat>)
    requires Tracks(live, blocks) && (b == 0 || b !in live) && live'.Keys == live.Keys + (if b == 0 then {} else {b})
    ensures Tracks(live', blocks + [b])
  {
    var blocks' := blocks + [b];
    forall a ensures a in blocks' <==> a in blocks || a == b {
      if a in blocks { var i :| 0 <= i < |blocks| && blocks[i] == a; assert blocks'[i] == a; }
      assert blocks'[|blocks|] == b;
    }
  }

  /** Beside the pages of start, other code holds the pages of the runs, none in two of them. */
  ghost predicate Owns(others: set<nat>, start: set<nat>, runs: seq<(nat, nat)>)
    decreases |runs|
  {
    if runs == [] then others == start
    else
      var (p, cnt) := runs[|runs| - 1];
      Span(p, cnt) <= others && Owns(others - Span(p, cnt), start, runs[..|runs| - 1])
  }

  lemma OwnsMore(others: set<nat>, start: set<nat>, runs: seq<(nat, nat)>, p: nat, cnt: nat)
    requires Owns(others, start, runs) && Span(p, cnt) !! others
    ensures Owns(others + Span(p, cnt), start, runs + [(p, cnt)])
  {
    assert others + Span(p, cnt) - Span(p, cnt) == others && (runs + [(p, cnt)])[..|runs|] == runs;
  }

  lemma {:induction false} OwnsLess(others: set<nat>, start: set<nat>, runs: seq<(nat, nat)>, n: nat)
    requires Owns(others, start, runs) && n < |runs|
    ensures var s := Span(runs[n].0, runs[n].1);
      s <= others && Owns(others - s, start, runs[n := (0, 0)])
    decreases |runs|
  {
    var s := Span(runs[n].0, runs[n].1);
    var front := runs[..|runs| - 1];
    var (p, cnt) := runs[|runs| - 1];
    var runs' := runs[n := (0, 0)];
    if n == |runs| - 1 {
      assert runs'[..|runs| - 1] == front && others - s - Span(0, 0) == others - s;
    } else {
      OwnsLess(others - Span(p, cnt), start, front, n);
      assert runs'[..|runs| - 1] == front[n := (0, 0)];
      assert others - Span(p, cnt) - s == others - s - Span(p, cnt);
    }
  }

  lemma {:induction false} OwnsNone(others: set<nat>, start: set<nat>, runs: seq<(nat, nat)>)
    requires Owns(others, start, runs) && forall i :: 0 <= i < |runs| ==> runs[i] == (0, 0)
    ensures others == start
    decreases |runs|
  {
    if runs != [] {
      assert others - Span(0, 0) == others;
      OwnsNone(others, start, runs[..|runs| - 1]);
    }
  }

  lemma TracksAt(live: map<nat, nat>, blocks: seq<nat>, n: nat)
    requires Tracks(live, blocks) && n < |blocks|
    ensures blocks[n] == 0 || blocks[n] in live
  {
    assert blocks[n] in blocks;
  }

  lemma TracksNothing()
    ensures Tracks(map[], [])
  {}

  lemma NothingTracked(live: map<nat, nat>, blocks: seq<nat>)
    requires Tracks(live, blocks) && forall j :: 0 <= j < |blocks| ==> blocks[j] == 0
    ensures live == map[]
  {
    forall b ensures b !in live {}
  }

  // ------------------------------------------------------------------------- runs

  /** The heap is well formed and the table lists the blocks in use. */
  ghost predicate Sound(m: Moment) {
    Ok(m.heap) && Tracks(m.heap.live, m.blocks) && |m.mem| == PGSIZE * |m.heap.bits|
  }

  lemma SoundLists(m: Moment)
    requires Sound(m)
    ensures |m.heap.free| == |SIZES|
  {
    hide Tracks;
    OneListEach(m.heap);
  }

  /** A run: every moment is sound, and each request does what it should. */
  ghost predicate IsRunOf(ms: seq<Moment>, script: seq<Request>) {
    && |ms| == |script| + 1 && (forall i :: 0 <= i < |ms| ==> Sound(ms[i]) && |ms[i].heap.free| == |SIZES|)
    && forall i :: 0 <= i < |script| ==> Serves(ms[i], script[i], ms[i + 1])
  }

  ghost function Now(a: Allocator, blocks: seq<nat>, runs: seq<(nat, nat)>): Moment
    requires a.Valid()
    reads a, a.pool.used.words, a.mem
  {
    Moment(a.Snap(), a.mem[..], blocks, runs)
  }

  /** The sizes of the blocks in use, as their callers know them. */
  ghost predicate Sized(live: map<nat, nat>, blocks: seq<nat>, sizes: seq<nat>) {
    |sizes| == |blocks| && forall i :: 0 <= i < |blocks| && blocks[i] in live ==> live[blocks[i]] == sizes[i]
  }

  /** One request for a block, or a store into one. */
  method ServeBlock(a: Allocator, blocks: seq<nat>, sizes: seq<nat>, ghost runs: seq<(nat, nat)>, r: Request)
    returns (blocks': seq<nat>, sizes': seq<nat>)
    requires a.Valid() && Tracks(a.live, blocks) && Sized(a.live, blocks, sizes) && !r.Take? && !r.Give? && |a.free| == |SIZES|
    modifies a`arenas, a`free, a`live, a.pool.used.words, a.mem
    ensures a.Valid() && Tracks(a.live, blocks') && Sized(a.live, blocks', sizes')
    ensures Serves(old(Now(a, blocks, runs)), r, Now(a, blocks', runs))
  {
    hide Ok, CanServe, Tracks, Same, Kept, Common, Held, Room, Granted, Stored;
    NullNotLive(a.Snap());
    ghost var live := a.live;
    blocks', sizes' := blocks, sizes;
    match r
    case Ask(size) =>
      if size < TWO32 {
        var b := a.Malloc(size);
        TracksAppend(live, blocks, b, a.live);
        blocks', sizes' := blocks + [b], sizes + [Granted(size)];
        SizedNow(live, blocks, sizes, a.live, blocks', sizes', |blocks|);
      }
    case Resize(n, size) =>
      if n < |blocks| && size < TWO32 {
        TracksAt(live, blocks, n);
        var room := 0;
        if blocks[n] != 0 { room := a.BlockSize(blocks[n]); }
        if !(blocks[n] != 0 && size + HEADER >= TWO32 && room > PGSIZE - HEADER) {
          var b := a.Realloc(blocks[n], size);
          if b != 0 || size == 0 {
            TracksUpdate(live, blocks, n, b, a.live);
            blocks', sizes' := blocks[n := b], sizes[n := Granted(size)];
            SizedNow(live, blocks, sizes, a.live, blocks', sizes', n);
          }
        }
      }
    case Release(n) =>
      if n < |blocks| {
        TracksAt(live, blocks, n);
        a.Free(blocks[n]);
        SameKept(a.pool.base, live, old(a.mem[..]), a.live, a.mem[..]);
        TracksUpdate(live, blocks, n, 0, a.live);
        blocks' := blocks[n := 0];
        SizedNow(live, blocks, sizes, a.live, blocks', sizes', n);
      }
    case Store(n, at, data) =>
      if n < |blocks| && blocks[n] != 0 && at + |data| <= sizes[n] {
        TracksAt(live, blocks, n);
        a.Store(blocks[n], at, data);
      }
  }

  /** One entry of the table changed. */
  lemma SizedNow(live: map<nat, nat>, blocks: seq<nat>, sizes: seq<nat>, live': map<nat, nat>, blocks': seq<nat>, sizes': seq<nat>, n: nat)
    requires Sized(live, blocks, sizes) && Tracks(live', blocks') && |sizes'| == |blocks'| >= |blocks| && n < |blocks'|
    requires forall i :: 0 <= i < |blocks'| && i != n ==> i < |blocks| && blocks'[i] == blocks[i] && sizes'[i] == sizes[i]
    requires blocks'[n] in live' ==> live'[blocks'[n]] == sizes'[n]
    requires forall b :: b in live' && b != blocks'[n] ==> b in live && live'[b] == live[b]
    ensures Sized(live', blocks', sizes')
  {
    forall i | 0 <= i < |blocks'| && blocks'[i] in live' && i != n ensures blocks'[i] != blocks'[n] {
      assert blocks'[i] != 0;
    }
  }

  ghost predicate InPool(cnt: nat, runs: seq<(nat, nat)>) {
    forall i :: 0 <= i < |runs| ==> runs[i].0 + runs[i].1 <= cnt
  }

  /** One request for pages. */
  method ServePages(a: Allocator, ghost blocks: seq<nat>, ghost start: set<nat>, runs: seq<(nat, nat)>, r: Request) returns (runs': seq<(nat, nat)>)
    requires a.Valid() && Owns(a.others, start, runs) && InPool(a.pool.used.bitCnt, runs) && (r.Take? || r.Give?) && |a.free| == |SIZES|
    modifies a`others, a.pool.used.words, a.mem
    ensures a.Valid() && Owns(a.others, start, runs') && InPool(a.pool.used.bitCnt, runs')
    ensures Serves(old(Now(a, blocks, runs)), r, Now(a, blocks, runs'))
  {
    hide Ok, HasRun, Owns, Same, Kept;
    ghost var others := a.others;
    runs' := runs;
    match r
    case Take(cnt) =>
      var ok, p := a.TakePages(cnt);
      if ok {
        OwnsMore(others, start, runs, p, cnt);
        runs' := runs + [(p, cnt)];
      }
    case Give(n) =>
      if n < |runs| {
        OwnsLess(others, start, runs, n);
        a.GivePages(runs[n].0, runs[n].1);
        SameKept(a.pool.base, a.live, old(a.mem[..]), a.live, a.mem[..]);
        runs' := runs[n := (0, 0)];
      }
  }

  /**
   * Any requests at all, on an allocator whose blocks and runs of pages
   * are in the tables: the run that the requests ask for, from what the
   * allocator was to what it is.
   */
  method Play(a: Allocator, blocks0: seq<nat>, sizes0: seq<nat>, runs0: seq<(nat, nat)>, script: seq<Request>, ghost start: set<nat>)
    returns (blocks: seq<nat>, sizes: seq<nat>, runs: seq<(nat, nat)>, ghost ms: seq<Moment>)
    requires a.Valid() && Tracks(a.live, blocks0) && Sized(a.live, blocks0, sizes0)
    requires Owns(a.others, start, runs0) && InPool(a.pool.used.bitCnt, runs0)
    modifies a`arenas, a`free, a`live, a`others, a.pool.used.words, a.mem
    ensures a.Valid() && Tracks(a.live, blocks) && Sized(a.live, blocks, sizes)
    ensures Owns(a.others, start, runs) && InPool(a.pool.used.bitCnt, runs)
    ensures IsRunOf(ms, script) && ms[0] == old(Now(a, blocks0, runs0)) && ms[|script|] == Now(a, blocks, runs)
  {
    hide Ok, Tracks, Sized, Owns, InPool, Serves, IsRunOf;
    blocks, sizes, runs := blocks0, sizes0, runs0;
    ms := [Now(a, blocks, runs)];
    RunStarts(ms[0]);
    for n := 0 to |script|
      invariant a.Valid() && Tracks(a.live, blocks) && Sized(a.live, blocks, sizes)
      invariant Owns(a.others, start, runs) && InPool(a.pool.used.bitCnt, runs)
      invariant |ms| == n + 1 && IsRunOf(ms, script[..n]) && ms[0] == old(Now(a, blocks0, runs0)) && ms[n] == Now(a, blocks, runs)
    {
      OneListEach(a.Snap());
      var r := script[n];
      if r.Take? || r.Give? {
        runs := ServePages(a, blocks, start, runs, r);
      } else {
        blocks, sizes := ServeBlock(a, blocks, sizes, runs, r);
      }
      RunGrows(ms, script, n, Now(a, blocks, runs));
      ms := ms + [Now(a, blocks, runs)];
    }
    assert script[..|script|] == script;
  }

  lemma RunStarts(m: Moment)
    requires Sound(m)
    ensures IsRunOf([m], [])
  {
    SoundLists(m);
  }

  lemma RunGrows(ms: seq<Moment>, script: seq<Request>, n: nat, m: Moment)
    requires n < |script| && |ms| == n + 1 && IsRunOf(ms, script[..n]) && Sound(m) && |ms[n].heap.free| == |SIZES| && Serves(ms[n], script[n], m)
    ensures IsRunOf(ms + [m], script[..n + 1])
  {
    hide Serves, Ok, Tracks;
    SoundLists(m);
    assert script[..n + 1][..n] == script[..n] && script[..n + 1][n] == script[n];
    forall i | 0 <= i < n ensures Serves(ms[i], script[i], ms[i + 1]) { assert script[..n][i] == script[i]; }
  }

  // --------------------------------------------------------- what holds of every run

  /** The request names the block. */
  predicate Names(r: Request, n: nat) { (r.Resize? || r.Release? || r.Store?) && r.n == n }

  /** A request that does not name a block leaves it, and what it holds, alone. */
  lemma UnnamedStep(m: Moment, r: Request, m': Moment, n: nat)
    requires Sound(m) && Sound(m') && |m.heap.free| == |SIZES| && Serves(m, r, m') && n < |m.blocks| && m.blocks[n] != 0 && !Names(r, n)
    ensures n < |m'.blocks| && m'.blocks[n] == m.blocks[n] && m.blocks[n] in m.heap.live && m.blocks[n] in m'.heap.live
    ensures Contents(m', m.blocks[n]) == Contents(m, m.blocks[n])
  {
    hide Ok, CanServe, Room, Granted, Stored, Common, HasRun;
    TracksAt(m.heap.live, m.blocks, n);
    assert m.blocks[n] in m.blocks;
    if Proper(m, r) && r.Store? { HeldSame(m.heap.base, m.heap.live - {m.blocks[r.n]}, m.mem, m.heap.live - {m.blocks[r.n]}, m'.mem, m.blocks[n]); }
  }

  /** Over any run, a block that no request names from moment i to moment j stays, with the bytes it holds. */
  lemma {:induction false} UnnamedKept(ms: seq<Moment>, script: seq<Request>, n: nat, i: nat, j: nat)
    requires IsRunOf(ms, script) && i <= j < |ms| && n < |ms[i].blocks| && ms[i].blocks[n] != 0
    requires forall k :: i <= k < j ==> !Names(script[k], n)
    ensures n < |ms[j].blocks| && ms[j].blocks[n] == ms[i].blocks[n]
    ensures ms[i].blocks[n] in ms[i].heap.live && ms[i].blocks[n] in ms[j].heap.live
    ensures Contents(ms[j], ms[i].blocks[n]) == Contents(ms[i], ms[i].blocks[n])
    decreases j
  {
    hide Serves, Ok, Tracks, Contents;
    if i == j {
      TracksAt(ms[i].heap.live, ms[i].blocks, n);
    } else {
      UnnamedKept(ms, script, n, i, j - 1);
      UnnamedStep(ms[j - 1], script[j - 1], ms[j], n);
    }
  }

  /** The block is there, and byte k of it is v. */
  ghost predicate HasByte(m: Moment, n: nat, k: nat, v: byte) {
    && n < |m.blocks| && m.blocks[n] != 0 && m.blocks[n] in m.heap.live
    && k < |Contents(m, m.blocks[n])| && Contents(m, m.blocks[n])[k] == v
  }

  /** The request could change byte k of block n: a store there, a resize that cuts it off, a release. */
  predicate Touches(r: Request, n: nat, k: nat) {
    match r
    case Store(x, at, data) => x == n && at <= k < at + |data|
    case Resize(x, size) => x == n && k >= Granted(size)
    case Release(x) => x == n
    case _ => false
  }

  lemma ByteStep(m: Moment, r: Request, m': Moment, n: nat, k: nat, v: byte)
    requires Sound(m) && Sound(m') && |m.heap.free| == |SIZES| && Serves(m, r, m') && HasByte(m, n, k, v) && !Touches(r, n, k)
    ensures HasByte(m', n, k, v)
  {
    hide Ok, CanServe, Room, HasRun, Contents;
    if !Names(r, n) {
      UnnamedStep(m, r, m', n);
    } else if Proper(m, r) && r.Resize? {
      ResizeByte(m, n, r.size, m', k, v);
    }
  }

  lemma ResizeByte(m: Moment, n: nat, size: nat, m': Moment, k: nat, v: byte)
    requires |m.heap.free| == |SIZES| && HasByte(m, n, k, v) && Resized(m, n, size, m') && k < Granted(size)
    ensures HasByte(m', n, k, v)
  {
    hide Ok, CanServe, Room, HasRun, Contents, Keep;
  }

  lemma StoreByte(m: Moment, n: nat, at: nat, data: seq<byte>, m': Moment, k: nat)
    requires Sound(m) && |m.heap.free| == |SIZES| && Proper(m, Store(n, at, data)) && Serves(m, Store(n, at, data), m') && at <= k < at + |data|
    ensures HasByte(m', n, k, data[k - at])
  {
    hide Ok, CanServe, Room, HasRun, Same;
    var b := m.blocks[n];
    HeldSize(m, b);
    assert b in m.blocks;
  }

  lemma HeldSize(m: Moment, b: nat)
    requires Sound(m) && b in m.heap.live
    ensures |Contents(m, b)| == m.heap.live[b]
  {}

  /** Over any run, a byte of a block is what was last stored there, through any resizes that do not cut it off. */
  lemma {:induction false} LastStored(ms: seq<Moment>, script: seq<Request>, n: nat, i: nat, j: nat, k: nat)
    requires IsRunOf(ms, script) && i < j < |ms| && script[i].Store? && script[i].n == n && Proper(ms[i], script[i])
    requires script[i].at <= k < script[i].at + |script[i].data|
    requires forall x :: i < x < j ==> !Touches(script[x], n, k)
    ensures HasByte(ms[j], n, k, script[i].data[k - script[i].at])
    decreases j
  {
    hide Serves, Ok, Tracks, HasByte, Touches;
    if j == i + 1 {
      StoreByte(ms[i], n, script[i].at, script[i].data, ms[j], k);
    } else {
      LastStored(ms, script, n, i, j - 1, k);
      ByteStep(ms[j - 1], script[j - 1], ms[j], n, k, script[i].data[k - script[i].at]);
    }
  }

  /** The pool is the same one all along, and other code holds the pages of its runs. */
  lemma PagesStep(m: Moment, r: Request, m': Moment, start: set<nat>)
    requires |m.heap.free| == |SIZES| && Serves(m, r, m') && Owns(m.heap.others, start, m.runs)
    ensures |m'.heap.bits| == |m.heap.bits| && Owns(m'.heap.others, start, m'.runs)
  {
    hide CanServe, Room, Granted, Stored, Common, HasRun, Owns, Keep, Same, Held;
    if Proper(m, r) {
      if r.Take? {
        if m' != m { OwnsMore(m.heap.others, start, m.runs, m'.runs[|m.runs|].0, r.cnt); }
      } else if r.Give? {
        OwnsLess(m.heap.others, start, m.runs, r.n);
      }
    }
  }

  lemma {:induction false} RunPages(ms: seq<Moment>, script: seq<Request>, i: nat)
    requires IsRunOf(ms, script) && i < |ms| && ms[0].runs == []
    ensures |ms[i].heap.bits| == |ms[0].heap.bits| && Owns(ms[i].heap.others, ms[0].heap.others, ms[i].runs)
  {
    hide Serves, Sound;
    if i > 0 {
      RunPages(ms, script, i - 1);
      PagesStep(ms[i - 1], script[i - 1], ms[i], ms[0].heap.others);
    }
  }

  // ------------------------------------------------------- giving everything back

  function Releases(n: nat): (s: seq<Request>)
    ensures |s| == n && forall k :: 0 <= k < n ==> s[k] == Release(k)
  {
    if n == 0 then [] else Releases(n - 1) + [Release(n - 1)]
  }

  function Gives(n: nat): (s: seq<Request>)
    ensures |s| == n && forall k :: 0 <= k < n ==> s[k] == Give(k)
  {
    if n == 0 then [] else Gives(n - 1) + [Give(n - 1)]
  }

  /** Releases every block and gives back every run of pages. */
  function Closing(blocks: nat, runs: nat): seq<Request> { Releases(blocks) + Gives(runs) }

  predicate Cleared(m: Moment) {
    && (forall j :: 0 <= j < |m.blocks| ==> m.blocks[j] == 0)
    && (forall j :: 0 <= j < |m.runs| ==> m.runs[j] == (0, 0))
  }

  lemma {:induction false} BlocksGone(ms: seq<Moment>, script: seq<Request>, i: nat, k: nat)
    requires IsRunOf(ms, script) && i + k < |ms| && k <= |ms[i].blocks|
    requires forall j :: 0 <= j < k ==> script[i + j] == Release(j)
    ensures var m := ms[i + k]; |m.blocks| == |ms[i].blocks| && m.runs == ms[i].runs && forall j :: 0 <= j < k ==> m.blocks[j] == 0
    decreases k
  {
    hide Sound, Keep;
    if k > 0 {
      BlocksGone(ms, script, i, k - 1);
      assert Serves(ms[i + k - 1], script[i + k - 1], ms[i + k - 1 + 1]) && script[i + (k - 1)] == Release(k - 1);
    }
  }

  lemma {:induction false} RunsGone(ms: seq<Moment>, script: seq<Request>, i: nat, k: nat)
    requires IsRunOf(ms, script) && i + k < |ms| && k <= |ms[i].runs|
    requires forall j :: 0 <= j < k ==> script[i + j] == Give(j)
    ensures var m := ms[i + k]; |m.runs| == |ms[i].runs| && m.blocks == ms[i].blocks && forall j :: 0 <= j < k ==> m.runs[j] == (0, 0)
    decreases k
  {
    hide Sound, Keep;
    if k > 0 {
      RunsGone(ms, script, i, k - 1);
      assert Serves(ms[i + k - 1], script[i + k - 1], ms[i + k - 1 + 1]) && script[i + (k - 1)] == Give(k - 1);
    }
  }

  /**
   * Any run, followed by the release of everything, leaves no arena and
   * the used map as it was.
   */
  lemma AllGivenBack(ms: seq<Moment>, script: seq<Request>, i: nat)
    requires i < |ms| && IsRunOf(ms, script + Closing(|ms[i].blocks|, |ms[i].runs|)) && i == |script|
    requires ms[0].heap.live == map[] && ms[0].blocks == [] && ms[0].runs == []
    ensures var m, m' := ms[0].heap, ms[|ms| - 1].heap;
      m'.live == map[] && m'.arenas == map[] && m'.others == m.others && m'.bits == m.bits
  {
    hide Ok, Tracks, Owns, Serves;
    var all, last := script + Closing(|ms[i].blocks|, |ms[i].runs|), |ms| - 1;
    ClosingClears(ms, script, i);
    assert Cleared(ms[last]);
    RunPages(ms, all, last);
    NothingTracked(ms[last].heap.live, ms[last].blocks);
    OwnsNone(ms[last].heap.others, ms[0].heap.others, ms[last].runs);
    SameMap(ms[0].heap, ms[last].heap);
  }

  lemma SameMap(h: Heap, h': Heap)
    requires Ok(h) && Ok(h') && h.live == map[] && h'.live == map[] && h'.others == h.others && |h'.bits| == |h.bits|
    ensures h'.arenas == map[] && h'.bits == h.bits
  {
    hide Ok;
    AllFreed(h);
    AllFreed(h');
  }

  lemma ClosingClears(ms: seq<Moment>, script: seq<Request>, i: nat)
    requires i < |ms| && IsRunOf(ms, script + Closing(|ms[i].blocks|, |ms[i].runs|)) && i == |script|
    ensures Cleared(ms[|ms| - 1])
  {
    hide Serves, Sound, Releases, Gives;
    var nb, nr := |ms[i].blocks|, |ms[i].runs|;
    var all := script + Closing(nb, nr);
    assert |ms| == |all| + 1 == i + nb + nr + 1;
    forall j | 0 <= j < nb ensures all[i + j] == Release(j) { assert all[i + j] == Releases(nb)[j]; }
    forall j | 0 <= j < nr ensures all[i + nb + j] == Give(j) { assert all[i + nb + j] == Gives(nr)[j]; }
    hide IsRunOf;
    BlocksGone(ms, all, i, nb);
    RunsGone(ms, all, i + nb, nr);
  }

  lemma RunsJoin(ms: seq<Moment>, script: seq<Request>, ns: seq<Moment>, more: seq<Request>)
    requires IsRunOf(ms, script) && IsRunOf(ns, more) && ns[0] == ms[|script|]
    ensures IsRunOf(ms + ns[1..], script + more)
  {
    hide Serves, Sound;
    var all, moments := script + more, ms + ns[1..];
    forall i | 0 <= i < |all| ensures Serves(moments[i], all[i], moments[i + 1]) {
      if i >= |script| { assert moments[i] == ns[i - |script|] && moments[i + 1] == ns[i + 1 - |script|]; }
    }
  }

  /**
   * Any requests, for blocks and for pages, then a release of every block
   * and of every page still in use. Each request was served as it should
   * be; the blocks and runs returned are what the callers had before the
   * release. The used map is what it was, and no arena is left.
   */
  method Run(a: Allocator, script: seq<Request>) returns (blocks: seq<nat>, runs: seq<(nat, nat)>, ghost ms: seq<Moment>)
    requires a.Valid() && a.live == map[]
    modifies a`arenas, a`free, a`live, a`others, a.pool.used.words, a.mem
    ensures var all := script + Closing(|blocks|, |runs|);
      && a.Valid() && IsRunOf(ms, all) && ms[0] == old(Now(a, [], [])) && ms[|all|] == Now(a, ms[|all|].blocks, ms[|all|].runs)
      && ms[|script|].blocks == blocks && ms[|script|].runs == runs
    ensures a.live == map[] && a.arenas == map[] && a.others == old(a.others)
    ensures a.pool.used.Bits() == old(a.pool.used.Bits())
  {
    hide Ok, Tracks, Sized, Owns, InPool, IsRunOf, Closing;
    TracksNothing();
    NoPages(a.others, a.pool.used.bitCnt);
    var sizes;
    ghost var ns;
    blocks, sizes, runs, ms := Play(a, [], [], [], script, a.others);
    var closing := Closing(|blocks|, |runs|);
    var blocks', sizes', runs';
    blocks', sizes', runs', ns := Play(a, blocks, sizes, runs, closing, old(a.others));
    RunLength(ms, script);
    RunLength(ns, closing);
    RunsJoin(ms, script, ns, closing);
    assert ms[|script|] == (ms + ns[1..])[|script|];
    ms := ms + ns[1..];
    AllGivenBack(ms, script, |script|);
  }

  lemma RunLength(ms: seq<Moment>, script: seq<Request>)
    requires IsRunOf(ms, script)
    ensures |ms| == |script| + 1
  {}

  lemma NoPages(others: set<nat>, cnt: nat)
    ensures Owns(others, others, []) && InPool(cnt, []) && Sized(map[], [], [])
  {}
}
