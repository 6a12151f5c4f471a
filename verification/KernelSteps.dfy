/**
 * Every step of the kernel, whoever takes it and whenever an interrupt
 * comes, keeps the kernel's invariant.
 */
module KernelSteps {
  import opened Options
  import opened Sequences
  import S = Sched
  import opened Kernel

  // ---------------------------------------------------- the steps keep them

  /** Where a thread may test a semaphore. */
  predicate Tests(k: Kernel, s: SemaId, next: Next) {
    && k.sched.cur in k.pc && s in k.semas && k.sched.cur != k.sched.idle
    && match k.pc[k.sched.cur]
       case Run =>
         || (next.Return? && s.Plain?)
         || (next.Hold? && s == OfLock(next.l) && next.l in k.holder && !Holds(k, next.l))
       case Unlocked(c) => next == Rejoin(c) && s == OfWaiter(k.sched.cur)
       case Signalled(c) => c in k.lockOf && next == Hold(k.lockOf[c]) && s == OfLock(k.lockOf[c])
       case Down(s', next') => s == s' && next == next'
       case _ => false
  }

  /** Only the current thread has moved, to p. */
  predicate Moved(k: Kernel, k': Kernel, p: Pc) {
    k.sched.cur in k.pc && k'.pc == k.pc[k.sched.cur := p]
  }

  predicate Awake(p: Pc) { !p.Down? && !p.Embryo? }

  lemma ListsMoved(k: Kernel, k': Kernel, p: Pc)
    requires Lists(k) && k'.sched == k.sched && k'.token.Keys == k.token.Keys && Current(k)
    requires Moved(k, k', p) && Awake(p) && (k.sched.cur == k.sched.idle ==> p.Run?)
    requires forall s :: s in k'.semas && s in k.semas ==>
      k'.semas[s].waiters == k.semas[s].waiters && k'.semas[s].woken == k.semas[s].woken - {k.sched.cur}
    requires forall s :: s in k'.semas && s !in k.semas ==> k'.semas[s].waiters == [] && k'.semas[s].woken == {}
    requires forall t :: t in k.pc && k.pc[t].Down? ==> k.pc[t].s in k.semas
    ensures Lists(k')
  {
    forall s, t | s in k'.semas
      ensures t in k'.semas[s].waiters <==> InDown(k', t, s) && k'.sched.status[t] == S.Blocked
      ensures t in k'.semas[s].woken <==> InDown(k', t, s) && k'.sched.status[t] != S.Blocked
    {
      if t == k.sched.cur {
        assert !InDown(k', t, s) && k.sched.status[t] == S.Running;
      } else {
        assert InDown(k', t, s) <==> InDown(k, t, s);
      }
    }
  }

  predicate Outside(p: Pc) { !p.Won? && !p.Dropped? }

  /** A step that neither takes nor gives a lock. */
  lemma LocksMoved(k: Kernel, k': Kernel, p: Pc)
    requires Locks(k) && k'.holder == k.holder && k'.owner == k.owner && k.semas.Keys <= k'.semas.Keys
    requires Moved(k, k', p) && Outside(k.pc[k.sched.cur]) && Outside(p)
    requires forall s :: s in k.semas && s.OfLock? ==> k'.semas[s].value == k.semas[s].value
    ensures Locks(k')
  {
    forall l, t: Tid | l in k.holder ensures Inside(k', t, l) <==> Inside(k, t, l) {}
  }

  predicate Still(p: Pc, t: Tid) { !p.Popped? && !Waiting(p, t) }

  /** A thread moved between places that touch no signal. */
  lemma SignalsMovedBy(k: Kernel, k': Kernel, t: Tid, p: Pc)
    requires Signals(k) && k'.conds == k.conds && k'.token == k.token && k.pc.Keys == k.token.Keys
    requires t in k.pc && k'.pc == k.pc[t := p] && Still(k.pc[t], t) && Still(p, t)
    requires k.semas.Keys <= k'.semas.Keys
    requires forall s :: s in k.semas && s.OfWaiter? && s.t in k.token && k.token[s.t] != NoToken ==>
      k'.semas[s].value == k.semas[s].value
    ensures Signals(k')
  {
    hide NoDuplicates;
    assert k.token[t] == NoToken;
    forall w | w in k'.token && k'.token[w].InHand?
      ensures k'.token[w].p in k'.pc && k'.pc[k'.token[w].p].Popped? && k'.pc[k'.token[w].p].w == w {
      assert k.pc[k.token[w].p].Popped?;
    }
  }

  /** A step that touches no signal. */
  lemma SignalsMoved(k: Kernel, k': Kernel, p: Pc)
    requires Signals(k) && k'.conds == k.conds && k'.token == k.token && k.pc.Keys == k.token.Keys
    requires Moved(k, k', p) && Still(k.pc[k.sched.cur], k.sched.cur) && Still(p, k.sched.cur)
    requires k.semas.Keys <= k'.semas.Keys
    requires forall s :: s in k.semas && s.OfWaiter? && s.t in k.token && k.token[s.t] != NoToken ==>
      k'.semas[s].value == k.semas[s].value
    ensures Signals(k')
  {
    hide Signals, Still;
    SignalsMovedBy(k, k', k.sched.cur, p);
  }

  /** A step that changes no holder. */
  lemma PlacesMoved(k: Kernel, k': Kernel, p: Pc)
    requires Places(k) && k'.holder == k.holder && k'.conds.Keys == k.conds.Keys && k'.lockOf == k.lockOf && k'.maker == k.maker
    requires k.semas.Keys <= k'.semas.Keys && Moved(k, k', p) && !k.pc[k.sched.cur].Embryo? && Placed(k', k.sched.cur)
    ensures Places(k')
  {
    forall t | t in k'.pc ensures Placed(k', t) {
      assert Placed(k, t);
    }
  }

  /** Threads, locks and signals are as they were: at most plain semaphores and the scheduler changed. */
  ghost predicate Untouched(k: Kernel, k': Kernel) {
    && k'.pc == k.pc && k'.holder == k.holder && k'.conds == k.conds && k'.lockOf == k.lockOf
    && k'.owner == k.owner && k'.token == k.token && k'.maker == k.maker && k'.semas.Keys == k.semas.Keys
    && forall s :: s in k.semas && !s.Plain? ==> k'.semas[s].value == k.semas[s].value
  }

  lemma LocksUntouched(k: Kernel, k': Kernel)
    requires Locks(k) && Untouched(k, k')
    ensures Locks(k')
  {
    forall l, t: Tid ensures Inside(k', t, l) <==> Inside(k, t, l) {}
  }

  lemma SignalsUntouched(k: Kernel, k': Kernel)
    requires Signals(k) && Untouched(k, k')
    ensures Signals(k')
  {}

  lemma PlacesUntouched(k: Kernel, k': Kernel)
    requires Places(k) && Untouched(k, k')
    ensures Places(k')
  {
    forall t | t in k.pc ensures Placed(k', t) { assert Placed(k, t); }
  }

  lemma LockTaken(k: Kernel, k': Kernel, l: nat)
    requires Locks(k) && l in k.holder && k.owner[l] == None && k'.holder == k.holder
    requires k'.owner == k.owner[l := Some(k.sched.cur)] && k'.semas.Keys == k.semas.Keys
    requires Moved(k, k', Won(l)) && Outside(k.pc[k.sched.cur])
    requires forall s :: s in k.semas && s.OfLock? ==> k'.semas[s].value == if s.l == l then 0 else k.semas[s].value
    ensures Locks(k')
  {
    var me := k.sched.cur;
    forall i, t: Tid | i in k.holder ensures Inside(k', t, i) <==> k'.owner[i] == Some(t) {
      assert t != me ==> (Inside(k', t, i) <==> Inside(k, t, i));
      assert i != l ==> (Inside(k', me, i) <==> Inside(k, me, i));
    }
  }

  lemma LockGiven(k: Kernel, k': Kernel, l: nat, p: Pc)
    requires Locks(k) && l in k.holder && k'.holder == k.holder && k.holder[l] == None
    requires k'.owner == k.owner[l := None] && k'.semas.Keys == k.semas.Keys
    requires Moved(k, k', p) && k.pc[k.sched.cur].Dropped? && k.pc[k.sched.cur].l == l && Outside(p)
    requires forall s :: s in k.semas && s.OfLock? ==> k'.semas[s].value == if s.l == l then 1 else k.semas[s].value
    ensures Locks(k')
  {
    var me := k.sched.cur;
    assert Inside(k, me, l);
    forall i, t: Tid | i in k.holder ensures Inside(k', t, i) <==> k'.owner[i] == Some(t) {
      assert t != me ==> (Inside(k', t, i) <==> Inside(k, t, i));
      assert i != l ==> (Inside(k', me, i) <==> Inside(k, me, i));
    }
  }

  /** The waiter has taken its signal. */
  lemma SignalTaken(k: Kernel, k': Kernel, p: Pc)
    requires Signals(k) && k.pc.Keys == k.token.Keys && k'.conds == k.conds && Moved(k, k', p)
    requires Waiting(k.pc[k.sched.cur], k.sched.cur) && !k.pc[k.sched.cur].Popped? && Still(p, k.sched.cur)
    requires OfWaiter(k.sched.cur) in k.semas && k.semas[OfWaiter(k.sched.cur)].value > 0
    requires k'.token == k.token[k.sched.cur := NoToken] && k.semas.Keys <= k'.semas.Keys
    requires forall s :: s in k.semas && s.OfWaiter? && s.t != k.sched.cur ==> k'.semas[s].value == k.semas[s].value
    ensures Signals(k')
  {
    var me := k.sched.cur;
    assert k.token[me] == Delivered;
    forall w | w in k'.token && k'.token[w].InHand?
      ensures k'.token[w].p in k'.pc && k'.pc[k'.token[w].p].Popped? && k'.pc[k'.token[w].p].w == w {
      assert k.pc[k.token[w].p].Popped?;
    }
  }

  /** The waiter goes on waiting, for the same condition. */
  lemma SignalAwaited(k: Kernel, k': Kernel, p: Pc)
    requires Signals(k) && k.pc.Keys == k.token.Keys && k'.conds == k.conds && k'.token == k.token && Moved(k, k', p)
    requires Waiting(k.pc[k.sched.cur], k.sched.cur) && Waiting(p, k.sched.cur)
    requires WaitsOn(p, k.sched.cur) == WaitsOn(k.pc[k.sched.cur], k.sched.cur)
    requires k.semas.Keys <= k'.semas.Keys
    requires forall s :: s in k.semas && s.OfWaiter? ==> k'.semas[s].value == k.semas[s].value
    ensures Signals(k')
  {
    forall w | w in k'.token && k'.token[w].InHand?
      ensures k'.token[w].p in k'.pc && k'.pc[k'.token[w].p].Popped? && k'.pc[k'.token[w].p].w == w {
      assert k.pc[k.token[w].p].Popped?;
    }
  }

  /** The signaller has put the signal into the waiter's semaphore. */
  lemma SignalGiven(k: Kernel, k': Kernel, p: Pc)
    requires Signals(k) && k.pc.Keys == k.token.Keys && k'.conds == k.conds && Moved(k, k', p)
    requires k.pc[k.sched.cur].Popped? && Still(p, k.sched.cur)
    requires var w := k.pc[k.sched.cur].w;
      && k'.token == k.token[w := Delivered] && k.semas.Keys <= k'.semas.Keys && OfWaiter(w) in k.semas
      && forall s :: s in k.semas && s.OfWaiter? ==> k'.semas[s].value == k.semas[s].value + if s.t == w then 1 else 0
    ensures Signals(k')
  {
    var me := k.sched.cur;
    var v := k.pc[me].w;
    assert k.token[v] == InHand(me) && k.semas[OfWaiter(v)].value == 0 && k.token[me] == NoToken;
    forall w | w in k'.token && k'.token[w].InHand?
      ensures k'.token[w].p in k'.pc && k'.pc[k'.token[w].p].Popped? && k'.pc[k'.token[w].p].w == w {
      assert k.pc[k.token[w].p].Popped?;
    }
    forall q | q in k'.pc && k'.pc[q].Popped? ensures k'.pc[q].w in k'.token && k'.token[k'.pc[q].w] == InHand(q) {
      assert k.token[k.pc[q].w] == InHand(q);
    }
  }

  // ----------------------------------------------------------- sema_down, sema_up

  /** A thread is woken on the semaphore it is in sema_down on, and on no other. */
  lemma WokenHere(k: Kernel, s: SemaId)
    requires Lists(k) && k.sched.cur in k.pc && s in k.semas && (k.pc[k.sched.cur].Down? ==> k.pc[k.sched.cur].s != s)
    ensures k.sched.cur !in k.semas[s].woken
  {
    hide NoDuplicates;
  }

  /** Where the current thread is when it tests a semaphore. */
  lemma TestFacts(k: Kernel, s: SemaId, next: Next)
    requires Places(k) && Tests(k, s, next)
    ensures var p := k.pc[k.sched.cur];
      && Outside(p) && !p.Embryo? && !p.Popped? && (p.Down? ==> p.s == s)
      && (s.OfLock? ==> next == Hold(s.l) && s.l in k.holder && k.holder[s.l] != Some(k.sched.cur))
      && (s.OfWaiter? ==> s.t == k.sched.cur && Waiting(p, s.t) && next.Rejoin? && WaitsOn(p, s.t) == Some(next.c))
      && (!s.OfWaiter? ==> Still(p, k.sched.cur) && !next.Rejoin?)
      && (s.Plain? ==> next.Return?)
  {
    assert Placed(k, k.sched.cur);
  }

  lemma DownHere(k: Kernel)
    requires Places(k)
    ensures forall t :: t in k.pc && k.pc[t].Down? ==> k.pc[t].s in k.semas
  {
    forall t | t in k.pc && k.pc[t].Down? ensures k.pc[t].s in k.semas { assert Placed(k, t); }
  }

  lemma LockFree(k: Kernel, l: nat)
    requires Locks(k) && l in k.holder && k.semas[OfLock(l)].value > 0
    ensures k.owner[l] == None && k.holder[l] == None && k.semas[OfLock(l)].value == 1
  {
    assert k.holder[l].Some? ==> Inside(k, k.holder[l].value, l);
  }

  lemma TakeLists(k: Kernel, s: SemaId, next: Next)
    requires Lists(k) && Current(k) && Places(k) && Tests(k, s, next) && k.semas[s].value > 0
    ensures Lists(Take(k, s, next))
  {
    var me, k' := k.sched.cur, Take(k, s, next);
    TestFacts(k, s, next);
    DownHere(k);
    assert k.pc.Keys == k.token.Keys;
    forall z | z in k'.semas ensures k'.semas[z].woken == k.semas[z].woken - {me} {
      if z != s { WokenHere(k, z); }
    }
    hide Lists, Places, Tests, Outside, Waiting;
    ListsMoved(k, k', Resume(next));
  }

  lemma TakeLocks(k: Kernel, s: SemaId, next: Next)
    requires Locks(k) && Places(k) && Tests(k, s, next) && k.semas[s].value > 0
    ensures Locks(Take(k, s, next))
  {
    TestFacts(k, s, next);
    hide Places, Locks, Tests;
    if s.OfLock? {
      LockFree(k, s.l);
      LockTaken(k, Take(k, s, next), s.l);
    } else {
      LocksMoved(k, Take(k, s, next), Resume(next));
    }
  }

  lemma TakeSignals(k: Kernel, s: SemaId, next: Next)
    requires Signals(k) && Places(k) && k.pc.Keys == k.token.Keys && Tests(k, s, next) && k.semas[s].value > 0
    ensures Signals(Take(k, s, next))
  {
    TestFacts(k, s, next);
    hide Places, Signals, Tests;
    if s.OfWaiter? {
      SignalTaken(k, Take(k, s, next), Resume(next));
    } else {
      SignalsMoved(k, Take(k, s, next), Resume(next));
    }
  }

  lemma TakePlaces(k: Kernel, s: SemaId, next: Next)
    requires Places(k) && Locks(k) && Tests(k, s, next) && k.semas[s].value > 0
    ensures Places(Take(k, s, next))
  {
    TestFacts(k, s, next);
    if s.OfLock? { LockFree(k, s.l); }
    assert Placed(k, k.sched.cur);
    hide Locks, Tests;
    PlacesMoved(k, Take(k, s, next), Resume(next));
  }

  lemma TakeCounts(k: Kernel, s: SemaId, next: Next)
    requires Lists(k) && Counts(k) && Tests(k, s, next) && k.semas[s].value > 0
    ensures Counts(Take(k, s, next))
  {}

  lemma TakeInv(k: Kernel, s: SemaId, next: Next)
    requires Inv(k) && Tests(k, s, next) && k.semas[s].value > 0
    ensures Inv(Take(k, s, next))
  {
    hide Lists, Counts, Locks, Signals, Places, Tests;
    Basics(k);
    TakeLists(k, s, next);
    TakeCounts(k, s, next);
    TakeLocks(k, s, next);
    TakeSignals(k, s, next);
    TakePlaces(k, s, next);
  }

  lemma Basics(k: Kernel)
    requires Inv(k)
    ensures Current(k) && k.pc.Keys == k.token.Keys == k.sched.status.Keys && k.sched.cur in k.pc
  {
    hide Counts, Locks, Signals, Places;
  }

  /** The current thread joined a wait list. */
  lemma ListsJoined(k: Kernel, k': Kernel, s: SemaId, next: Next)
    requires Lists(k) && Current(k) && s in k.semas && k'.token.Keys == k.token.Keys && k.sched.cur != k.sched.idle
    requires Moved(k, k', Down(s, next)) && (k.pc[k.sched.cur].Down? ==> k.pc[k.sched.cur].s == s)
    requires k'.sched.idle == k.sched.idle && k'.sched.status.Keys == k.sched.status.Keys && k'.semas.Keys == k.semas.Keys
    requires forall t :: t in k.pc && t != k.sched.idle ==>
      && (k'.sched.status[t] == S.Blocked <==> k.sched.status[t] == S.Blocked || t == k.sched.cur)
      && (k'.sched.status[t] == S.Dying ==> k.sched.status[t] == S.Dying && t != k.sched.cur)
    requires k'.semas[s].waiters == k.semas[s].waiters + [k.sched.cur] && k'.semas[s].woken == k.semas[s].woken - {k.sched.cur}
    requires forall z :: z in k.semas && z != s ==> k'.semas[z] == k.semas[z]
    ensures Lists(k')
  {
    var me := k.sched.cur;
    assert !(InDown(k, me, s) && k.sched.status[me] == S.Blocked);
    assert me !in k.semas[s].waiters;
    AppendKeeps(k.semas[s].waiters, me);
    hide NoDuplicates;
    forall z, t | z in k'.semas
      ensures t in k'.semas[z].waiters <==> InDown(k', t, z) && k'.sched.status[t] == S.Blocked
      ensures t in k'.semas[z].woken <==> InDown(k', t, z) && k'.sched.status[t] != S.Blocked
    {
      assert t != me ==> (InDown(k', t, z) <==> InDown(k, t, z));
      assert InDown(k', me, z) <==> z == s;
      assert z != s ==> !InDown(k, me, z);
    }
  }

  lemma SleepLists(k: Kernel, s: SemaId, next: Next)
    requires S.Ok(k.sched) && Lists(k) && Current(k) && Places(k) && Tests(k, s, next)
    ensures Lists(Sleep(k, s, next))
  {
    TestFacts(k, s, next);
    S.BlockedKept(k.sched, S.Blocks);
    assert k.pc.Keys == k.sched.status.Keys;
    hide S.Ok, Lists, Places;
    ListsJoined(k, Sleep(k, s, next), s, next);
  }

  lemma SleepLocks(k: Kernel, s: SemaId, next: Next)
    requires Locks(k) && Places(k) && Tests(k, s, next)
    ensures Locks(Sleep(k, s, next))
  {
    TestFacts(k, s, next);
    hide Locks, Places, Tests, S.Block;
    LocksMoved(k, Sleep(k, s, next), Down(s, next));
  }

  lemma SleepSignals(k: Kernel, s: SemaId, next: Next)
    requires Signals(k) && Places(k) && k.pc.Keys == k.token.Keys && Tests(k, s, next)
    ensures Signals(Sleep(k, s, next))
  {
    TestFacts(k, s, next);
    var k', p := Sleep(k, s, next), Down(s, next);
    hide Signals, Places, Tests, S.Block;
    if s.OfWaiter? { SignalAwaited(k, k', p); } else { SignalsMoved(k, k', p); }
  }

  lemma SleepCounts(k: Kernel, s: SemaId, next: Next)
    requires Counts(k) && s in k.semas && k.semas[s].value == 0
    ensures Counts(Sleep(k, s, next))
  {
    hide S.Block;
  }

  lemma SleepInv(k: Kernel, s: SemaId, next: Next)
    requires Inv(k) && Tests(k, s, next) && k.semas[s].value == 0
    ensures Inv(Sleep(k, s, next))
  {
    assert s in k.semas;
    SleepCounts(k, s, next);
    hide Lists, Counts, Locks, Signals, Places, Tests, S.Ok;
    Basics(k);
    S.ApplyOk(k.sched, S.Blocks);
    SleepLists(k, s, next);
    SleepLocks(k, s, next);
    SleepSignals(k, s, next);
    SleepPlaces(k, s, next);
  }

  lemma SleepPlaces(k: Kernel, s: SemaId, next: Next)
    requires Places(k) && Tests(k, s, next)
    ensures Places(Sleep(k, s, next))
  {
    assert Placed(k, k.sched.cur);
    hide S.Block;
    PlacesMoved(k, Sleep(k, s, next), Down(s, next));
  }

  lemma TestInv(k: Kernel, s: SemaId, next: Next)
    requires Inv(k) && Tests(k, s, next)
    ensures Inv(Test(k, s, next))
  {
    assert s in k.semas;
    hide Inv, Tests;
    if k.semas[s].value == 0 { SleepInv(k, s, next); } else { TakeInv(k, s, next); }
  }

  /** Where a thread may raise a semaphore, and where it goes. */
  predicate Raises(k: Kernel, s: SemaId, p: Pc) {
    && k.sched.cur in k.pc && s in k.semas
    && var q := k.pc[k.sched.cur];
    match s
    case Plain(_) => !q.Down? && p == q
    case OfLock(l) => q.Dropped? && q.l == l && p == AfterRelease(q.after)
    case OfWaiter(w) => q.Popped? && q.w == w && p == AfterSignal(q.c, q.more)
  }

  lemma HeadWaits(k: Kernel, s: SemaId)
    requires Lists(k) && s in k.semas && k.semas[s].waiters != []
    ensures var w := k.semas[s].waiters[0];
      && InDown(k, w, s) && w in k.sched.status && k.sched.status[w] == S.Blocked
      && w !in k.semas[s].woken && w != k.sched.idle
  {
    var w := k.semas[s].waiters[0];
    assert w in k.semas[s].waiters;
    assert InDown(k, w, s);
  }

  /** The head of a wait list became ready. */
  ghost predicate Woke(k: Kernel, k': Kernel, s: SemaId, p: Pc) {
    && s in k.semas && k.semas[s].waiters != [] && k'.token.Keys == k.token.Keys
    && Moved(k, k', p) && Awake(p) && !k.pc[k.sched.cur].Down? && (k.sched.cur == k.sched.idle ==> p.Run?)
    && k'.sched.idle == k.sched.idle && k'.semas.Keys == k.semas.Keys
    && k'.sched.status == k.sched.status[k.semas[s].waiters[0] := S.Ready]
    && k'.semas[s].waiters == k.semas[s].waiters[1..] && k'.semas[s].woken == k.semas[s].woken + {k.semas[s].waiters[0]}
    && (forall z :: z in k.semas && z != s ==> k'.semas[z] == k.semas[z])
  }

  lemma WokeThere(k: Kernel, k': Kernel, s: SemaId, p: Pc, z: SemaId, t: Tid)
    requires Lists(k) && Woke(k, k', s, p) && z in k.semas
    ensures t in k'.semas[z].waiters <==> InDown(k', t, z) && t in k'.sched.status && k'.sched.status[t] == S.Blocked
    ensures t in k'.semas[z].woken <==> InDown(k', t, z) && t in k'.sched.status && k'.sched.status[t] != S.Blocked
  {
    HeadWaits(k, s);
    TailKeeps(k.semas[s].waiters);
    hide NoDuplicates;
    assert InDown(k', t, z) <==> InDown(k, t, z);
  }

  lemma ListsWoken(k: Kernel, k': Kernel, s: SemaId, p: Pc)
    requires Lists(k) && Current(k) && Woke(k, k', s, p)
    ensures Lists(k')
  {
    HeadWaits(k, s);
    TailKeeps(k.semas[s].waiters);
    hide NoDuplicates;
    forall z, t | z in k'.semas
      ensures t in k'.semas[z].waiters <==> InDown(k', t, z) && k'.sched.status[t] == S.Blocked
      ensures t in k'.semas[z].woken <==> InDown(k', t, z) && k'.sched.status[t] != S.Blocked
    {
      WokeThere(k, k', s, p, z, t);
    }
  }

  lemma RaiserAwake(k: Kernel, s: SemaId, p: Pc)
    requires Lists(k) && Current(k) && Raises(k, s, p)
    ensures !k.pc[k.sched.cur].Down? && Awake(p) && (k.sched.cur == k.sched.idle ==> p.Run?)
    ensures forall z :: z in k.semas ==> k.sched.cur !in k.semas[z].woken
    ensures k.pc.Keys == k.token.Keys
  {
    forall z | z in k.semas ensures k.sched.cur !in k.semas[z].woken { WokenHere(k, z); }
    hide NoDuplicates;
  }

  lemma RaiseLists(k: Kernel, s: SemaId, p: Pc)
    requires Lists(k) && Current(k) && Places(k) && Raises(k, s, p) && (s.OfWaiter? ==> s.t in k.token)
    ensures Lists(Raise(k, s, p))
  {
    var k' := Raise(k, s, p);
    assert s in k.semas;
    RaiserAwake(k, s, p);
    hide Raises, Awake, Lists;
    if k.semas[s].waiters != [] {
      ListsWoken(k, k', s, p);
    } else {
      DownHere(k);
      hide Places;
      ListsMoved(k, k', p);
    }
  }

  lemma RaisedCounted(z: Sema)
    requires Counted(z) && (z.waiters != [] ==> z.waiters[0] !in z.woken)
    ensures Counted(Raised(z))
  {}

  lemma RaiseCounts(k: Kernel, s: SemaId, p: Pc)
    requires Lists(k) && Counts(k) && s in k.semas
    ensures Counts(Raise(k, s, p))
  {
    if k.semas[s].waiters != [] { HeadWaits(k, s); }
    hide Lists, Counted, Raised, WakeFirst;
    RaisedCounted(k.semas[s]);
  }

  /** Where the current thread is when it raises a semaphore. */
  lemma RaiseFacts(k: Kernel, s: SemaId, p: Pc)
    requires Places(k) && Signals(k) && k.pc.Keys == k.token.Keys && Raises(k, s, p)
    ensures var q := k.pc[k.sched.cur];
      && (s.Plain? ==> p == q)
      && (s.OfLock? ==> Outside(p) && q.Dropped? && q.l == s.l && s.l in k.holder && k.holder[s.l] == None && !p.Popped?)
      && (s.OfLock? && q.after.Await? ==> Waiting(q, k.sched.cur) && Waiting(p, k.sched.cur) && WaitsOn(p, k.sched.cur) == WaitsOn(q, k.sched.cur))
      && (s.OfLock? && q.after.Finish? ==> Still(q, k.sched.cur) && Still(p, k.sched.cur))
      && (s.OfWaiter? ==> Outside(p) && Outside(q) && q.Popped? && q.w == s.t && s.t in k.token && Still(p, k.sched.cur))
  {
    assert Placed(k, k.sched.cur);
  }

  /** What a semaphore's owner must know to raise it: the lock's semaphore is 0. */
  lemma LockTakenBy(k: Kernel, l: nat)
    requires Locks(k) && l in k.holder && k.sched.cur in k.pc && k.pc[k.sched.cur].Dropped? && k.pc[k.sched.cur].l == l
    ensures k.semas[OfLock(l)].value == 0
  {
    assert Inside(k, k.sched.cur, l);
  }

  /** What sema_up changes. */
  lemma RaiseFrame(k: Kernel, s: SemaId, p: Pc)
    requires s in k.semas && k.sched.cur in k.pc
    ensures var k' := Raise(k, s, p);
      && Moved(k, k', p) && k'.holder == k.holder && k'.conds == k.conds && k'.lockOf == k.lockOf && k'.maker == k.maker
      && k'.semas.Keys == k.semas.Keys && (forall z :: z in k.semas && z != s ==> k'.semas[z] == k.semas[z])
      && k'.semas[s].value == k.semas[s].value + 1 && k'.sched == WakeFirst(k.sched, k.semas[s])
      && k'.owner == (if s.OfLock? then k.owner[s.l := None] else k.owner)
      && k'.token == (if s.OfWaiter? then k.token[s.t := Delivered] else k.token)
  {}

  lemma RaiserOfLock(k: Kernel, l: nat, p: Pc)
    requires Places(k) && Raises(k, OfLock(l), p)
    ensures Outside(p) && l in k.holder && k.holder[l] == None && k.pc[k.sched.cur].Dropped? && k.pc[k.sched.cur].l == l
  {
    assert Placed(k, k.sched.cur);
  }

  lemma RaiseLocks(k: Kernel, s: SemaId, p: Pc)
    requires Places(k) && Locks(k) && Raises(k, s, p)
    ensures Locks(Raise(k, s, p))
  {
    assert s in k.semas && k.sched.cur in k.pc;
    var k' := Raise(k, s, p);
    RaiseFrame(k, s, p);
    hide Locks, Raise, Places;
    if s.OfLock? {
      hide Raises;
      RaiserOfLock(k, s.l, p);
      LockTakenBy(k, s.l);
      LockGiven(k, k', s.l, p);
    } else if s.OfWaiter? {
      LocksMoved(k, k', p);
    } else {
      LocksUntouched(k, k');
    }
  }

  lemma RaiseSignals(k: Kernel, s: SemaId, p: Pc)
    requires Places(k) && Signals(k) && k.pc.Keys == k.token.Keys && Raises(k, s, p)
    ensures Signals(Raise(k, s, p))
  {
    assert s in k.semas;
    RaiseFacts(k, s, p);
    var k' := Raise(k, s, p);
    RaiseFrame(k, s, p);
    hide Places, Raises, Raise;
    if s.OfWaiter? {
      hide Signals;
      SignalGiven(k, k', p);
    } else if s.OfLock? {
      hide Signals;
      if k.pc[k.sched.cur].after.Await? { SignalAwaited(k, k', p); } else { SignalsMoved(k, k', p); }
    } else {
      hide Signals;
      assert k'.pc == k.pc;
      SignalsUntouched(k, k');
    }
  }

  lemma RaisePlaces(k: Kernel, s: SemaId, p: Pc)
    requires Places(k) && Raises(k, s, p)
    ensures Places(Raise(k, s, p))
  {
    var k' := Raise(k, s, p);
    assert Placed(k, k.sched.cur);
    if s.Plain? {
      hide Places, Placed;
      assert k'.pc == k.pc;
      PlacesUntouched(k, k');
    } else {
      assert Placed(k', k.sched.cur);
      hide Places, Placed;
      PlacesMoved(k, k', p);
    }
  }

  lemma RaiseInv(k: Kernel, s: SemaId, p: Pc)
    requires Inv(k) && Raises(k, s, p)
    ensures Inv(Raise(k, s, p))
  {
    assert s in k.semas;
    hide Lists, Counts, Locks, Signals, Places, Raises, S.Ok;
    Basics(k);
    RaiseFacts(k, s, p);
    WaiterBlocked(k, s);
    RaiseLists(k, s, p);
    RaiseCounts(k, s, p);
    RaiseLocks(k, s, p);
    RaiseSignals(k, s, p);
    RaisePlaces(k, s, p);
  }

  /** thread_unblock's assertion: the thread at the head of a wait list is blocked. */
  lemma WaiterBlocked(k: Kernel, s: SemaId)
    requires S.Ok(k.sched) && Lists(k) && s in k.semas
    ensures S.Allowed(k.sched, RaiseEvent(k, s)) && S.Ok(WakeFirst(k.sched, k.semas[s]))
  {
    if k.semas[s].waiters != [] { HeadWaits(k, s); }
    S.ApplyOk(k.sched, RaiseEvent(k, s));
  }

  // ------------------------------------------------------------- the other steps

  /** The same threads sleep on the same semaphores. */
  lemma ListsSame(k: Kernel, k': Kernel)
    requires Lists(k) && k'.pc == k.pc && k'.token.Keys == k.token.Keys && k'.semas.Keys == k.semas.Keys
    requires k'.sched.idle == k.sched.idle && k'.sched.status.Keys == k.sched.status.Keys
    requires forall t :: t in k.pc && t != k.sched.idle ==>
      && (k'.sched.status[t] == S.Blocked <==> k.sched.status[t] == S.Blocked)
      && (k'.sched.status[t] == S.Dying ==> k.sched.status[t] == S.Dying || k.pc[t].Run?)
    requires forall s :: s in k.semas ==> k'.semas[s].waiters == k.semas[s].waiters && k'.semas[s].woken == k.semas[s].woken
    ensures Lists(k')
  {
    hide NoDuplicates;
    forall s, t | s in k'.semas
      ensures t in k'.semas[s].waiters <==> InDown(k', t, s) && k'.sched.status[t] == S.Blocked
      ensures t in k'.semas[s].woken <==> InDown(k', t, s) && k'.sched.status[t] != S.Blocked
    {
      assert InDown(k', t, s) <==> InDown(k, t, s);
    }
  }

  /** A switch of threads, or a tick. */
  lemma RescheduledInv(k: Kernel, e: S.Event)
    requires Inv(k) && S.Allowed(k.sched, e) && (e.Yields? || e.Ticks? || (e.Exits? && Calls(k)) || (e.Blocks? && k.sched.cur == k.sched.idle))
    ensures Inv(k.(sched := S.Apply(k.sched, e)))
  {
    var k' := k.(sched := S.Apply(k.sched, e));
    hide Lists, Counts, Locks, Signals, Places, S.Ok, S.Apply;
    Basics(k);
    S.ApplyOk(k.sched, e);
    S.BlockedKept(k.sched, e);
    CountsKept(k, k');
    ListsSame(k, k');
    LocksUntouched(k, k');
    SignalsUntouched(k, k');
    PlacesUntouched(k, k');
  }

  lemma IntrTryDownInv(k: Kernel, s: SemaId)
    requires Inv(k) && s in k.semas && k.semas[s].value > 0 && s.Plain?
    ensures Inv(TakeInHandler(k, s))
  {
    var k' := TakeInHandler(k, s);
    assert Counts(k') by { hide Lists, Locks, Signals, Places, S.Ok; }
    hide Lists, Counts, Locks, Signals, Places, S.Ok;
    Basics(k);
    ListsSame(k, k');
    LocksUntouched(k, k');
    SignalsUntouched(k, k');
    PlacesUntouched(k, k');
  }

  /** A move of the current thread that leaves semaphores and the scheduler alone. */
  lemma ListsKept(k: Kernel, k': Kernel, p: Pc)
    requires Lists(k) && Places(k) && Current(k) && k'.sched == k.sched && k'.token.Keys == k.token.Keys && k'.semas == k.semas
    requires Moved(k, k', p) && Awake(k.pc[k.sched.cur]) && Awake(p) && (k.sched.cur == k.sched.idle ==> p.Run?)
    ensures Lists(k')
  {
    DownHere(k);
    forall z | z in k.semas ensures k.sched.cur !in k.semas[z].woken { WokenHere(k, z); }
    hide Lists, Places;
    ListsMoved(k, k', p);
  }

  lemma BusyNotIdle(k: Kernel)
    requires Lists(k) && k.sched.cur in k.pc && !k.pc[k.sched.cur].Run?
    ensures k.sched.cur != k.sched.idle
  {
    hide NoDuplicates;
  }

  /** lock_acquire: the holder is set. */
  lemma HolderSet(k: Kernel, l: nat)
    requires Locks(k) && Places(k) && k.sched.cur in k.pc && k.pc[k.sched.cur] == Won(l) && l in k.holder
    ensures var k' := At(k, Run).(holder := k.holder[l := Some(k.sched.cur)]); Locks(k') && Places(k')
  {
    var me, k' := k.sched.cur, At(k, Run).(holder := k.holder[l := Some(k.sched.cur)]);
    assert Placed(k, me) && Inside(k, me, l);
    forall i, t: Tid | i in k.holder ensures Inside(k', t, i) <==> Inside(k, t, i) {
      assert t != me && i == l ==> !Inside(k, t, i);
    }
    forall t | t in k.pc ensures Placed(k', t) {
      assert Placed(k, t);
      assert t != me ==> !Inside(k, t, l);
    }
  }

  /** lock_release: the holder is cleared. */
  lemma HolderCleared(k: Kernel, l: nat, after: After)
    requires Locks(k) && k.sched.cur in k.pc && Holds(k, l) && Outside(k.pc[k.sched.cur])
    ensures Locks(Clear(k, l, after))
  {
    var me, k' := k.sched.cur, Clear(k, l, after);
    assert Inside(k, me, l);
    forall i, t: Tid | i in k.holder ensures Inside(k', t, i) <==> Inside(k, t, i) {
      assert t != me && i == l ==> !Inside(k, t, i);
    }
  }

  lemma ClearedPlaces(k: Kernel, l: nat, after: After)
    requires Places(k) && k.sched.cur in k.pc && Holds(k, l) && !k.pc[k.sched.cur].Embryo?
    requires after.Await? ==> after.c in k.conds && k.lockOf[after.c] == l
    ensures Places(Clear(k, l, after))
  {
    var k' := Clear(k, l, after);
    forall t | t in k.pc ensures Placed(k', t) {
      assert Placed(k, t);
    }
  }

  lemma CountsKept(k: Kernel, k': Kernel)
    requires Counts(k) && k'.semas == k.semas
    ensures Counts(k')
  {}

  lemma SetHolderInv(k: Kernel, l: nat)
    requires Inv(k) && k.sched.cur in k.pc && k.pc[k.sched.cur] == Won(l)
    ensures Inv(Claim(k, l))
  {
    assert Placed(k, k.sched.cur);
    Basics(k);
    hide Lists, Counts, Locks, Signals, Places, S.Ok, Placed;
    HolderSet(k, l);
    ListsKept(k, Claim(k, l), Run);
    SignalsMoved(k, Claim(k, l), Run);
    CountsKept(k, Claim(k, l));
  }

  predicate Releases(k: Kernel, l: nat, after: After) {
    && k.sched.cur in k.pc && k.sched.cur != k.sched.idle && Holds(k, l)
    && match after
       case Finish => k.pc[k.sched.cur].Run?
       case Await(c) => k.pc[k.sched.cur] == Queued(c) && c in k.conds && c in k.lockOf && k.lockOf[c] == l
  }

  /** lock_release by itself, and inside cond_wait. */
  lemma ReleaseSignals(k: Kernel, l: nat, after: After)
    requires Signals(k) && k.pc.Keys == k.token.Keys && Releases(k, l, after)
    ensures Signals(Clear(k, l, after))
  {
    hide Signals;
    if after.Finish? { SignalsMoved(k, Clear(k, l, after), Dropped(l, after)); }
    else { SignalAwaited(k, Clear(k, l, after), Dropped(l, after)); }
  }

  lemma ReleaseInv(k: Kernel, l: nat, after: After)
    requires Inv(k) && Releases(k, l, after)
    ensures Inv(Clear(k, l, after))
  {
    var k', p := Clear(k, l, after), Dropped(l, after);
    Basics(k);
    hide Lists, Counts, Locks, Signals, Places, S.Ok, Placed;
    HolderCleared(k, l, after);
    ClearedPlaces(k, l, after);
    ListsKept(k, k', p);
    ReleaseSignals(k, l, after);
    CountsKept(k, k');
  }

  /** cond_wait's own semaphore: nobody sleeps on it or was woken from it. */
  lemma OwnSemaIdle(k: Kernel)
    requires Lists(k) && Places(k) && k.sched.cur in k.pc && !k.pc[k.sched.cur].Down? && OfWaiter(k.sched.cur) in k.semas
    ensures k.semas[OfWaiter(k.sched.cur)].waiters == [] && k.semas[OfWaiter(k.sched.cur)].woken == {}
  {
    var s := OfWaiter(k.sched.cur);
    if k.semas[s].waiters != [] { HeadWaits(k, s); }
    assert forall t :: t in k.semas[s].woken ==> InDown(k, t, s);
    hide Lists;
    assert forall t :: t in k.pc ==> Placed(k, t);
    assert forall t :: !InDown(k, t, s);
  }

  lemma WaitLists(k: Kernel, c: nat)
    requires Lists(k) && Places(k) && Current(k) && c in k.conds && k.sched.cur != k.sched.idle
    requires k.sched.cur in k.pc && k.pc[k.sched.cur].Run?
    ensures Lists(Enqueue(k, c))
  {
    var me, k' := k.sched.cur, Enqueue(k, c);
    DownHere(k);
    forall z | z in k.semas ensures me !in k.semas[z].woken { WokenHere(k, z); }
    if OfWaiter(me) in k.semas { OwnSemaIdle(k); }
    assert k'.token.Keys == k.token.Keys;
    hide Lists, Places;
    ListsMoved(k, k', Queued(c));
  }

  /** The waiter has queued for a signal. */
  lemma SignalQueued(k: Kernel, k': Kernel, c: nat)
    requires Signals(k) && k.pc.Keys == k.token.Keys && c in k.conds && Moved(k, k', Queued(c)) && k.pc[k.sched.cur].Run?
    requires k'.conds == k.conds[c := k.conds[c] + [k.sched.cur]] && k'.token == k.token[k.sched.cur := OnList(c)]
    requires k.semas.Keys <= k'.semas.Keys && OfWaiter(k.sched.cur) in k'.semas && k'.semas[OfWaiter(k.sched.cur)].value == 0
    requires forall s :: s in k.semas && s != OfWaiter(k.sched.cur) ==> k'.semas[s].value == k.semas[s].value
    ensures Signals(k')
  {
    var me := k.sched.cur;
    assert k.token[me] == NoToken && me !in k.conds[c];
    AppendKeeps(k.conds[c], me);
    hide NoDuplicates;
    forall w | w in k'.token && k'.token[w].InHand?
      ensures k'.token[w].p in k'.pc && k'.pc[k'.token[w].p].Popped? && k'.pc[k'.token[w].p].w == w {
      assert k.pc[k.token[w].p].Popped?;
    }
  }

  lemma WaitSignals(k: Kernel, c: nat)
    requires Signals(k) && k.pc.Keys == k.token.Keys && c in k.conds && k.sched.cur in k.pc && k.pc[k.sched.cur].Run?
    ensures Signals(Enqueue(k, c))
  {
    hide Signals;
    SignalQueued(k, Enqueue(k, c), c);
  }

  lemma WaitCounts(k: Kernel, c: nat)
    requires Counts(k) && c in k.conds
    ensures Counts(Enqueue(k, c))
  {}

  lemma WaitInv(k: Kernel, c: nat)
    requires Inv(k) && k.sched.cur != k.sched.idle && HeldFor(k, k.sched.cur, c)
    requires k.sched.cur in k.pc && k.pc[k.sched.cur].Run?
    ensures Inv(Enqueue(k, c))
  {
    hide Lists, Counts, Locks, Signals, Places, S.Ok;
    Basics(k);
    WaitCounts(k, c);
    WaitLists(k, c);
    WaitSignals(k, c);
    WaitLocks(k, c);
  }

  lemma WaitLocks(k: Kernel, c: nat)
    requires Locks(k) && Places(k) && HeldFor(k, k.sched.cur, c) && k.sched.cur in k.pc && k.pc[k.sched.cur].Run?
    ensures Locks(Enqueue(k, c)) && Places(Enqueue(k, c))
  {
    hide Locks, Places;
    var k' := Enqueue(k, c);
    assert Placed(k', k.sched.cur);
    hide Placed, HeldFor;
    LocksMoved(k, k', Queued(c));
    PlacesMoved(k, k', Queued(c));
  }

  lemma PopSignals(k: Kernel, c: nat, more: bool)
    requires Signals(k) && k.pc.Keys == k.token.Keys && k.sched.cur in k.pc && Still(k.pc[k.sched.cur], k.sched.cur)
    requires c in k.conds && k.conds[c] != []
    ensures Signals(Pop(k, c, more)) && k.conds[c][0] in k.token
  {
    var me, k', ws := k.sched.cur, Pop(k, c, more), k.conds[c];
    var v := ws[0];
    assert v in ws && k.token[me] == NoToken;
    assert k.token[v] == OnList(c) && v != me;
    TailKeeps(ws);
    hide NoDuplicates;
    forall w | w in k'.token && k'.token[w].InHand?
      ensures k'.token[w].p in k'.pc && k'.pc[k'.token[w].p].Popped? && k'.pc[k'.token[w].p].w == w {
      assert w != v ==> k.pc[k.token[w].p].Popped?;
    }
  }

  /** A move that leaves locks, semaphores and the scheduler alone. */
  lemma QuietInv(k: Kernel, k': Kernel, p: Pc)
    requires Inv(k) && Moved(k, k', p) && Awake(k.pc[k.sched.cur]) && Awake(p) && Outside(k.pc[k.sched.cur]) && Outside(p)
    requires k'.sched == k.sched && k'.semas == k.semas && k'.holder == k.holder && k'.owner == k.owner && k'.maker == k.maker
    requires k'.lockOf == k.lockOf && k'.conds.Keys == k.conds.Keys && k'.token.Keys == k.token.Keys
    requires k.sched.cur != k.sched.idle && Placed(k', k.sched.cur) && Signals(k')
    ensures Inv(k')
  {
    hide Lists, Counts, Locks, Signals, Places, S.Ok, Placed;
    Basics(k);
    CountsKept(k, k');
    ListsKept(k, k', p);
    LocksMoved(k, k', p);
    PlacesMoved(k, k', p);
  }

  lemma PopInv(k: Kernel, c: nat, more: bool)
    requires Inv(k) && c in k.conds && k.conds[c] != [] && HeldFor(k, k.sched.cur, c) && k.sched.cur != k.sched.idle
    requires k.pc[k.sched.cur].Run? || k.pc[k.sched.cur].Sweeping?
    ensures Inv(Pop(k, c, more))
  {
    hide Lists, Counts, Locks, Signals, Places, S.Ok;
    Basics(k);
    PopSignals(k, c, more);
    hide Inv;
    QuietInv(k, Pop(k, c, more), Popped(k.conds[c][0], c, more));
  }

  /** cond_broadcast's loop test, entered or left. */
  lemma SweepInv(k: Kernel, p: Pc)
    requires Inv(k) && k.sched.cur != k.sched.idle
    requires (k.pc[k.sched.cur].Run? && p.Sweeping? && HeldFor(k, k.sched.cur, p.c)) || (k.pc[k.sched.cur].Sweeping? && p.Run?)
    ensures Inv(At(k, p))
  {
    hide Lists, Counts, Locks, Signals, Places, S.Ok;
    Basics(k);
    SignalsMoved(k, At(k, p), p);
    hide Inv;
    QuietInv(k, At(k, p), p);
  }

  lemma NewcomerLists(k: Kernel, n: Tid)
    requires Lists(k) && Places(k) && Current(k) && n !in k.pc && k.sched.cur != k.sched.idle
    requires k.sched.cur in k.pc && k.pc[k.sched.cur].Run?
    ensures Lists(Conceive(k, n))
  {
    var k' := Conceive(k, n);
    hide NoDuplicates, Places;
    forall z, t | z in k'.semas
      ensures t in k'.semas[z].waiters <==> InDown(k', t, z) && k'.sched.status[t] == S.Blocked
      ensures t in k'.semas[z].woken <==> InDown(k', t, z) && k'.sched.status[t] != S.Blocked
    {
      assert InDown(k', t, z) <==> InDown(k, t, z);
    }
  }

  lemma NewcomerLocks(k: Kernel, n: Tid)
    requires Locks(k) && n !in k.pc && k.sched.cur in k.pc && k.pc[k.sched.cur].Run?
    ensures Locks(Conceive(k, n))
  {
    var k' := Conceive(k, n);
    forall l, t: Tid | l in k.holder ensures Inside(k', t, l) <==> Inside(k, t, l) {}
  }

  lemma SignalsAdded(k: Kernel, k': Kernel, n: Tid)
    requires Signals(k) && k.pc.Keys == k.token.Keys && n !in k.pc && k'.conds == k.conds && k'.semas == k.semas
    requires k'.pc == k.pc[n := Embryo] && k'.token == k.token[n := NoToken]
    ensures Signals(k')
  {
    hide NoDuplicates;
    forall w | w in k'.token && k'.token[w].InHand?
      ensures k'.token[w].p in k'.pc && k'.pc[k'.token[w].p].Popped? && k'.pc[k'.token[w].p].w == w {
      assert k.pc[k.token[w].p].Popped?;
    }
  }

  lemma NewcomerSignals(k: Kernel, n: Tid)
    requires Signals(k) && k.pc.Keys == k.token.Keys && n !in k.pc && k.sched.cur in k.pc && k.pc[k.sched.cur].Run?
    ensures Signals(Conceive(k, n))
  {
    hide Signals;
    SignalsMoved(k, At(k, Making(n)), Making(n));
    SignalsAdded(At(k, Making(n)), Conceive(k, n), n);
  }

  lemma NewcomerPlaces(k: Kernel, n: Tid)
    requires Places(k) && n !in k.pc && k.sched.cur in k.pc && k.pc[k.sched.cur].Run?
    ensures Places(Conceive(k, n))
  {
    var k' := Conceive(k, n);
    forall t | t in k'.pc ensures Placed(k', t) {
      if t in k.pc { assert Placed(k, t); }
    }
  }

  lemma CreateInv(k: Kernel, n: Tid)
    requires Inv(k) && n !in k.pc && k.sched.cur != k.sched.idle && k.sched.cur in k.pc && k.pc[k.sched.cur].Run?
    ensures Inv(Conceive(k, n))
  {
    hide Lists, Counts, Locks, Signals, Places, S.Ok;
    Basics(k);
    S.ApplyOk(k.sched, S.Spawns(n));
    CountsKept(k, Conceive(k, n));
    NewcomerLists(k, n);
    NewcomerLocks(k, n);
    NewcomerSignals(k, n);
    NewcomerPlaces(k, n);
  }

  /** The new thread is blocked, in nobody's list, and this thread is the one that made it. */
  predicate Launches(k: Kernel, n: Tid) {
    && k.sched.cur in k.pc && k.pc[k.sched.cur] == Making(n) && n in k.pc && k.pc[n].Embryo?
  }

  lemma LaunchLists(k: Kernel, n: Tid)
    requires Lists(k) && Current(k) && Launches(k, n)
    ensures Lists(Launch(k, n))
  {
    var k' := Launch(k, n);
    hide NoDuplicates;
    forall z, t | z in k'.semas
      ensures t in k'.semas[z].waiters <==> InDown(k', t, z) && k'.sched.status[t] == S.Blocked
      ensures t in k'.semas[z].woken <==> InDown(k', t, z) && k'.sched.status[t] != S.Blocked
    {
      assert InDown(k', t, z) <==> InDown(k, t, z);
    }
  }

  lemma LaunchLocks(k: Kernel, n: Tid)
    requires Locks(k) && Launches(k, n)
    ensures Locks(Launch(k, n))
  {
    var k' := Launch(k, n);
    forall l, t: Tid | l in k.holder ensures Inside(k', t, l) <==> Inside(k, t, l) {}
  }

  lemma LaunchSignals(k: Kernel, n: Tid)
    requires Signals(k) && k.pc.Keys == k.token.Keys && Launches(k, n)
    ensures Signals(Launch(k, n))
  {
    hide Signals;
    SignalsMoved(k, At(k, Run), Run);
    SignalsMovedBy(At(k, Run), Launch(k, n), n, Run);
  }

  lemma LaunchPlaces(k: Kernel, n: Tid)
    requires Places(k) && Launches(k, n)
    ensures Places(Launch(k, n))
  {
    var k' := Launch(k, n);
    assert Placed(k, k.sched.cur);
    forall t | t in k'.pc ensures Placed(k', t) {
      assert Placed(k, t);
    }
  }

  lemma StartInv(k: Kernel, n: Tid)
    requires Inv(k) && Launches(k, n)
    ensures Inv(Launch(k, n))
  {
    Basics(k);
    assert k.sched.status[n] == S.Blocked && n != k.sched.idle;
    hide Lists, Counts, Locks, Signals, Places, S.Ok;
    S.ApplyOk(k.sched, S.Unblocks(n));
    CountsKept(k, Launch(k, n));
    LaunchLists(k, n);
    LaunchLocks(k, n);
    LaunchSignals(k, n);
    LaunchPlaces(k, n);
  }

  // ------------------------------------------------------------- all together

  /** What a thread in the middle of an operation may rely on, by where it is. */
  lemma Here(k: Kernel)
    requires Inv(k)
    ensures k.sched.cur in k.pc && Placed(k, k.sched.cur) && (!k.pc[k.sched.cur].Run? ==> k.sched.cur != k.sched.idle)
  {
    hide Counts, Locks, Signals;
    if !k.pc[k.sched.cur].Run? { BusyNotIdle(k); }
  }

  /** In cond_wait before the release, and all through cond_signal, the lock is held. */
  lemma HeldHere(k: Kernel)
    requires Inv(k)
    ensures k.sched.cur in k.pc && (!k.pc[k.sched.cur].Run? ==> k.sched.cur != k.sched.idle)
    ensures var p := k.pc[k.sched.cur]; p.Queued? || p.Popped? || p.Sweeping? ==> HeldFor(k, k.sched.cur, p.c)
  {
    Here(k);
    hide Inv;
  }

  /** The steps of thread.c. */
  lemma ThreadStepInv(k: Kernel, a: ThreadAct)
    requires Inv(k) && ThreadEnabled(k, a)
    ensures Inv(DoThread(k, a))
  {
    Here(k);
    hide Inv, Test, Take, Raise, TakeInHandler, Claim, Clear, Enqueue, Pop, Conceive, Launch;
    var p := k.pc[k.sched.cur];
    match a
    case Tick => RescheduledInv(k, S.Ticks);
    case Yield => RescheduledInv(k, S.Yields);
    case IdleBlock => RescheduledInv(k, S.Blocks);
    case Exit => RescheduledInv(k, S.Exits);
    case Create(n) => CreateInv(k, n);
    case Start => StartInv(k, p.n);
  }

  /** The steps of semaphores. */
  lemma SemaStepInv(k: Kernel, a: SemaAct)
    requires Inv(k) && SemaEnabled(k, a)
    ensures Inv(DoSema(k, a))
  {
    Here(k);
    hide Inv, Test, Take, Raise, TakeInHandler, Claim, Clear, Enqueue, Pop, Conceive, Launch;
    var p := k.pc[k.sched.cur];
    match a
    case IntrUp(s) => RaiseInv(k, s, p);
    case Up(s) => RaiseInv(k, s, p);
    case IntrTryDown(s) => IntrTryDownInv(k, s);
    case Retest => TestInv(k, p.s, p.next);
    case SemaDown(s) => TestInv(k, s, Return);
    case TryDown(s) => TakeInv(k, s, Return);
  }

  /** The steps of locks. */
  lemma LockStepInv(k: Kernel, a: LockAct)
    requires Inv(k) && LockEnabled(k, a)
    ensures Inv(DoLock(k, a))
  {
    Here(k);
    hide Inv, Test, Take, Raise, TakeInHandler, Claim, Clear, Enqueue, Pop, Conceive, Launch;
    var p := k.pc[k.sched.cur];
    match a
    case Acquire(l) => TestInv(k, OfLock(l), Hold(l));
    case TryAcquire(l) => TakeInv(k, OfLock(l), Hold(l));
    case SetHolder => SetHolderInv(k, p.l);
    case Release(l) => ReleaseInv(k, l, Finish);
    case ReleaseUp => RaiseInv(k, OfLock(p.l), AfterRelease(p.after));
  }

  /** The steps of cond_wait. */
  lemma WaitStepInv(k: Kernel, a: WaitAct)
    requires Inv(k) && WaitEnabled(k, a)
    ensures Inv(DoWait(k, a))
  {
    hide Inv, Test, Clear, Enqueue, FreeFor, HeldFor;
    HeldHere(k);
    var p := k.pc[k.sched.cur];
    match a
    case Wait(c) => WaitInv(k, c);
    case WaitRelease => QueuedReleases(k, p.c); ReleaseInv(k, k.lockOf[p.c], Await(p.c));
    case WaitDown => TestInv(k, OfWaiter(k.sched.cur), Rejoin(p.c));
    case WaitAcquire => TestInv(k, OfLock(k.lockOf[p.c]), Hold(k.lockOf[p.c]));
  }

  lemma QueuedReleases(k: Kernel, c: nat)
    requires k.sched.cur in k.pc && k.pc[k.sched.cur] == Queued(c) && HeldFor(k, k.sched.cur, c) && k.sched.cur != k.sched.idle
    ensures Releases(k, k.lockOf[c], Await(c))
  {}

  /** The steps of cond_signal and cond_broadcast. */
  lemma SignalStepInv(k: Kernel, a: SignalAct)
    requires Inv(k) && SignalEnabled(k, a)
    ensures Inv(DoSignal(k, a))
  {
    hide Inv, Raise, Pop;
    HeldHere(k);
    var p := k.pc[k.sched.cur];
    match a
    case Signal(c) => PopInv(k, c, false);
    case SignalUp => RaiseInv(k, OfWaiter(p.w), AfterSignal(p.c, p.more));
    case Broadcast(c) => if HeldFor(k, k.sched.cur, c) { SweepInv(k, Sweeping(c)); }
    case Sweep => if k.conds[p.c] == [] { SweepInv(k, Run); } else { PopInv(k, p.c, true); }
  }

  /** Every step of every thread, and every interrupt, keeps the invariant. */
  lemma StepInv(k: Kernel, a: Act)
    requires Inv(k) && Enabled(k, a)
    ensures Inv(Do(k, a))
  {
    hide Inv;
    match a
    case OnThread(t) => ThreadStepInv(k, t);
    case OnSema(s) => SemaStepInv(k, s);
    case OnLock(l) => LockStepInv(k, l);
    case OnWait(w) => WaitStepInv(k, w);
    case OnSignal(g) => SignalStepInv(k, g);
  }
}
