/**
 * What the synchronization primitives promise, in every run: no lost
 * wake-up, mutual exclusion, every signal delivered exactly once, and
 * bounded waiting for the threads they wake.
 */
module Synch {
  import opened Options
  import opened Sequences
  import S = Sched
  import opened Kernel
  import opened KernelSteps

  /** The kernel as thread_start leaves it, with any semaphores, locks and condition variables. */
  ghost predicate Initial(k: Kernel) {
    var main, idle := k.sched.cur, k.sched.idle;
    && main != idle && k.sched == S.State(main, idle, main, [], map[main := S.Running, idle := S.Blocked], 0, {})
    && k.pc == map[main := Run, idle := Run] && k.token == map[main := NoToken, idle := NoToken]
    && (forall s :: s in k.semas ==> !s.OfWaiter? && k.semas[s] == Sema(k.semas[s].init, [], {}, k.semas[s].init, 0, 0))
    && (forall l :: l in k.holder ==> OfLock(l) in k.semas && k.semas[OfLock(l)].init == 1 && k.holder[l] == None)
    && k.owner == k.holder
    && k.conds.Keys == k.lockOf.Keys
    && (forall c :: c in k.conds ==> k.conds[c] == [] && k.lockOf[c] in k.holder)
  }

  lemma InitialSched(k: Kernel)
    requires Initial(k)
    ensures S.Ok(k.sched)
  {}

  lemma InitialLists(k: Kernel)
    requires Initial(k)
    ensures Lists(k)
  {
    forall s, t ensures !InDown(k, t, s) {}
  }

  lemma InitialLocks(k: Kernel)
    requires Initial(k)
    ensures Locks(k) && Places(k)
  {
    forall l, t: Tid | l in k.holder ensures !Inside(k, t, l) {}
  }

  lemma InitialSignals(k: Kernel)
    requires Initial(k)
    ensures Counts(k) && Signals(k)
  {}

  lemma InitialInv(k: Kernel)
    requires Initial(k)
    ensures Inv(k)
  {
    InitialSched(k);
    InitialLists(k);
    InitialLocks(k);
    InitialSignals(k);
    hide S.Ok, Lists, Counts, Locks, Places, Signals, Initial;
  }

  ghost predicate IsRun(states: seq<Kernel>, acts: seq<Act>) {
    && |states| == |acts| + 1 && Initial(states[0])
    && forall i :: 0 <= i < |acts| ==> Enabled(states[i], acts[i]) && states[i + 1] == Do(states[i], acts[i])
  }

  lemma {:induction false} RunInv(states: seq<Kernel>, acts: seq<Act>, i: nat)
    requires IsRun(states, acts) && i < |states|
    ensures Inv(states[i])
  {
    hide Inv, Enabled, Do, Initial;
    if i == 0 {
      InitialInv(states[0]);
    } else {
      RunInv(states, acts, i - 1);
      StepInv(states[i - 1], acts[i - 1]);
    }
  }

  // -------------------------------------------------------- what follows: semaphores

  /** A positive semaphore never strands its waiters: one of the threads it woke can still run. */
  lemma NoLostWakeup(k: Kernel, s: SemaId)
    requires Inv(k) && s in k.semas
    ensures k.semas[s].value + k.semas[s].downs == k.semas[s].init + k.semas[s].ups
    ensures k.semas[s].waiters != [] ==> k.semas[s].value <= |k.semas[s].woken|
    ensures k.semas[s].waiters != [] && k.semas[s].value > 0 ==>
      exists w :: InDown(k, w, s) && w !in k.semas[s].waiters && (w == k.sched.cur || w in k.sched.ready)
  {
    hide Locks, Signals, Places;
    var z := k.semas[s];
    if z.waiters != [] && z.value > 0 {
      assert z.woken != {};
      var w :| w in z.woken;
      assert InDown(k, w, s) && k.sched.status[w] != S.Blocked;
      DownAlive(k, w);
    }
  }

  /** A thread in sema_down has not exited. */
  lemma DownAlive(k: Kernel, w: Tid)
    requires Inv(k) && w in k.pc && k.pc[w].Down? && k.sched.status[w] != S.Blocked
    ensures w == k.sched.cur || w in k.sched.ready
  {
    hide Locks, Signals, Places, Counts, NoDuplicates;
    assert k.sched.status[w] != S.Dying && w != k.sched.idle;
  }

  // ------------------------------------------------------------ what follows: locks

  /** At most one thread is between acquiring and releasing a lock; a holder is that thread. */
  lemma MutualExclusion(k: Kernel, l: nat, t: Tid, u: Tid)
    requires Inv(k) && Inside(k, t, l)
    ensures Inside(k, u, l) ==> u == t
    ensures k.holder[l].Some? ==> k.holder[l] == Some(t)
    ensures k.semas[OfLock(l)].value == 0
  {
    hide Lists, Counts, Signals, Places, S.Ok;
    assert k.holder[l].Some? ==> Inside(k, k.holder[l].value, l);
  }

  /** A lock can be taken at once just when nobody is inside. */
  lemma FreeLock(k: Kernel, l: nat)
    requires Inv(k) && l in k.holder
    ensures k.semas[OfLock(l)].value == 1 <==> forall t: Tid :: !Inside(k, t, l)
  {
    hide Lists, Counts, Signals, Places, S.Ok;
    match k.owner[l] { case None => case Some(t) => assert Inside(k, t, l); }
  }

  // ----------------------------------------------- what follows: condition variables

  /** A thread that is not in cond_wait has no semaphore on any list or in any signaller's hand. */
  lemma NoStaleWaiter(k: Kernel, w: Tid, c: nat, q: Tid)
    requires Inv(k) && w in k.pc && !Waiting(k.pc[w], w) && c in k.conds && q in k.pc
    ensures w !in k.conds[c] && (k.pc[q].Popped? ==> k.pc[q].w != w)
  {
    hide Locks, Counts, Places, S.Ok;
    assert k.pc.Keys == k.token.Keys;
    assert k.token[w] == NoToken;
  }

  /** How the signal for w may move in one step. */
  predicate TokenMoves(k: Kernel, a: Act, w: Tid, x: Token, y: Token) {
    var me := k.sched.cur;
    || y == x
    || (x == NoToken && y.OnList? && me == w && a == OnWait(Wait(y.c)))
    || (x.OnList? && y == InHand(me) && a.OnSignal? && (a.g == Signal(x.c) || a.g.Sweep?))
    || (x == InHand(me) && y == Delivered && a == OnSignal(SignalUp))
    || (x == Delivered && y == NoToken && me == w && (a == OnWait(WaitDown) || a == OnSema(Retest)))
  }

  lemma TestToken(k: Kernel, s: SemaId, next: Next, w: Tid)
    requires Signals(k) && Places(k) && k.pc.Keys == k.token.Keys && w in k.token && Tests(k, s, next)
    ensures var k' := Test(k, s, next);
      && w in k'.token
      && (k'.token[w] == k.token[w] || (s == OfWaiter(w) && w == k.sched.cur && k.token[w] == Delivered && k'.token[w] == NoToken))
  {
    TestFacts(k, s, next);
    hide Places, Tests, NoDuplicates, S.Block;
  }

  lemma SemaToken(k: Kernel, a: SemaAct, w: Tid)
    requires Inv(k) && SemaEnabled(k, a) && w in k.token
    ensures w in DoSema(k, a).token && TokenMoves(k, OnSema(a), w, k.token[w], DoSema(k, a).token[w])
  {
    Here(k);
    Basics(k);
    hide Lists, Counts, Locks, Signals, Places, S.Ok, Test;
    match a
    case Retest => TestToken(k, k.pc[k.sched.cur].s, k.pc[k.sched.cur].next, w);
    case SemaDown(s) => TestToken(k, s, Return, w);
    case _ =>
  }

  lemma LockToken(k: Kernel, a: LockAct, w: Tid)
    requires Inv(k) && LockEnabled(k, a) && w in k.token
    ensures w in DoLock(k, a).token && DoLock(k, a).token[w] == k.token[w]
  {
    Basics(k);
    hide Lists, Counts, Locks, Signals, Places, S.Ok, Test;
    if a.Acquire? { TestToken(k, OfLock(a.l), Hold(a.l), w); }
  }

  lemma CallerNoToken(k: Kernel)
    requires Signals(k) && k.pc.Keys == k.token.Keys && k.sched.cur in k.pc && k.pc[k.sched.cur].Run?
    ensures k.token[k.sched.cur] == NoToken
  {}

  lemma PoppedToken(k: Kernel)
    requires Signals(k) && k.sched.cur in k.pc && k.pc[k.sched.cur].Popped?
    ensures k.pc[k.sched.cur].w in k.token && k.token[k.pc[k.sched.cur].w] == InHand(k.sched.cur)
  {}

  lemma BusyAt(k: Kernel)
    requires Inv(k)
    ensures k.sched.cur in k.pc && (!k.pc[k.sched.cur].Run? ==> k.sched.cur != k.sched.idle)
  {
    hide Placed;
    Here(k);
  }

  lemma WaitToken(k: Kernel, a: WaitAct, w: Tid)
    requires Inv(k) && WaitEnabled(k, a) && w in k.token
    ensures w in DoWait(k, a).token && TokenMoves(k, OnWait(a), w, k.token[w], DoWait(k, a).token[w])
  {
    hide Lists, Counts, Locks, Signals, Places, S.Ok, Test, FreeFor, HeldFor;
    Basics(k);
    BusyAt(k);
    var me := k.sched.cur;
    match a
    case Wait(_) => CallerNoToken(k);
    case WaitDown => TestToken(k, OfWaiter(me), Rejoin(k.pc[me].c), w);
    case WaitAcquire => TestToken(k, OfLock(k.lockOf[k.pc[me].c]), Hold(k.lockOf[k.pc[me].c]), w);
    case _ =>
  }

  lemma PopToken(k: Kernel, c: nat)
    requires Signals(k) && c in k.conds && k.conds[c] != []
    ensures k.conds[c][0] in k.token && k.token[k.conds[c][0]] == OnList(c)
  {
    assert k.conds[c][0] in k.conds[c];
  }

  lemma SignalToken(k: Kernel, a: SignalAct, w: Tid)
    requires Inv(k) && SignalEnabled(k, a) && w in k.token
    ensures w in DoSignal(k, a).token && TokenMoves(k, OnSignal(a), w, k.token[w], DoSignal(k, a).token[w])
  {
    var me := k.sched.cur;
    hide Lists, Counts, Locks, Signals, Places, S.Ok;
    Basics(k);
    match a
    case SignalUp => PoppedToken(k);
    case Signal(c) => PopToken(k, c);
    case Sweep => if k.conds[k.pc[me].c] != [] { PopToken(k, k.pc[me].c); }
    case _ =>
  }

  /** A signal goes once round: queued, popped, delivered, taken. */
  lemma TokenStep(k: Kernel, a: Act, w: Tid)
    requires Inv(k) && Enabled(k, a) && w in k.token
    ensures w in Do(k, a).token && TokenMoves(k, a, w, k.token[w], Do(k, a).token[w])
  {
    hide TokenMoves;
    match a
    case OnThread(t) => NoTokenMoved(k, a, w); ThreadToken(k, t, w);
    case OnSema(s) => SemaToken(k, s, w);
    case OnLock(l) => NoTokenMoved(k, a, w); LockToken(k, l, w);
    case OnWait(x) => WaitToken(k, x, w);
    case OnSignal(g) => SignalToken(k, g, w);
  }

  lemma NoTokenMoved(k: Kernel, a: Act, w: Tid)
    requires w in k.token
    ensures TokenMoves(k, a, w, k.token[w], k.token[w])
  {}

  lemma ThreadToken(k: Kernel, a: ThreadAct, w: Tid)
    requires Inv(k) && ThreadEnabled(k, a) && w in k.token
    ensures w in DoThread(k, a).token && DoThread(k, a).token[w] == k.token[w]
  {
    Basics(k);
    hide Inv;
  }

  /** A signal sent before the waiter sleeps is not lost: the waiter's sema_down does not block. */
  lemma SignalNotLost(k: Kernel)
    requires Inv(k) && WaitEnabled(k, WaitDown) && k.token[k.sched.cur] == Delivered
    ensures DoWait(k, WaitDown).pc[k.sched.cur].Signalled? && DoWait(k, WaitDown).sched == k.sched
  {
    Basics(k);
    assert k.semas[OfWaiter(k.sched.cur)].value == 1 by { hide Lists, Counts, Locks, Places, S.Ok, NoDuplicates; }
    hide Inv;
  }

  /** The thread is in cond_broadcast. */
  predicate Broadcasting(p: Pc, c: nat) { p == Sweeping(c) || (p.Popped? && p.c == c && p.more) }

  /** One lock, one holder. */
  lemma SameHolder(k: Kernel, t: Tid, u: Tid, c: nat)
    requires HeldFor(k, t, c) && HeldFor(k, u, c)
    ensures t == u
  {}

  /** During a broadcast nobody joins the list: it only loses its head, to the broadcaster. */
  lemma BroadcastDrains(k: Kernel, a: Act, c: nat, p: Tid)
    requires Inv(k) && Enabled(k, a) && p in k.pc && c in k.conds && Broadcasting(k.pc[p], c)
    ensures c in Do(k, a).conds
    ensures Do(k, a).conds[c] == k.conds[c] || (k.sched.cur == p && k.conds[c] != [] && Do(k, a).conds[c] == k.conds[c][1..])
  {
    BroadcasterHolds(k, c, p);
    BusyAt(k);
    hide Inv, DoThread, DoSema, DoLock, DoWait, DoSignal, ThreadEnabled, SemaEnabled, LockEnabled, WaitEnabled, SignalEnabled, HeldFor;
    if HeldFor(k, k.sched.cur, c) { SameHolder(k, k.sched.cur, p, c); }
    match a
    case OnThread(t) => ThreadConds(k, t);
    case OnSema(s) => SemaConds(k, s);
    case OnLock(l) => LockConds(k, l);
    case OnWait(w) => WaitConds(k, w, c);
    case OnSignal(g) => SweeperHolds(k); SignalConds(k, g, c, p);
  }

  lemma BroadcasterHolds(k: Kernel, c: nat, p: Tid)
    requires Inv(k) && p in k.pc && Broadcasting(k.pc[p], c)
    ensures HeldFor(k, p, c)
  {
    hide Lists, Counts, Locks, Signals, S.Ok;
    assert Placed(k, p);
  }

  lemma SweeperHolds(k: Kernel)
    requires Inv(k) && k.sched.cur in k.pc
    ensures k.pc[k.sched.cur].Sweeping? ==> HeldFor(k, k.sched.cur, k.pc[k.sched.cur].c)
  {
    hide Lists, Counts, Locks, Signals, S.Ok;
    assert Placed(k, k.sched.cur);
  }

  lemma SignalConds(k: Kernel, a: SignalAct, c: nat, p: Tid)
    requires SignalEnabled(k, a) && c in k.conds && p in k.pc && Broadcasting(k.pc[p], c)
    requires HeldFor(k, k.sched.cur, c) ==> k.sched.cur == p
    requires k.pc[k.sched.cur].Sweeping? ==> HeldFor(k, k.sched.cur, k.pc[k.sched.cur].c)
    ensures var k' := DoSignal(k, a);
      c in k'.conds && (k'.conds[c] == k.conds[c] || (k.sched.cur == p && k.conds[c] != [] && k'.conds[c] == k.conds[c][1..]))
  {
    hide HeldFor, Raised, WakeFirst;
  }

  lemma ThreadConds(k: Kernel, a: ThreadAct)
    requires ThreadEnabled(k, a)
    ensures DoThread(k, a).conds == k.conds
  {}

  lemma SemaConds(k: Kernel, a: SemaAct)
    requires SemaEnabled(k, a)
    ensures DoSema(k, a).conds == k.conds
  {
    hide Test, Take, Raise;
  }

  lemma LockConds(k: Kernel, a: LockAct)
    requires LockEnabled(k, a)
    ensures DoLock(k, a).conds == k.conds
  {
    hide Test, Take, Raise;
  }

  lemma WaitConds(k: Kernel, a: WaitAct, c: nat)
    requires WaitEnabled(k, a) && c in k.conds && (HeldFor(k, k.sched.cur, c) ==> !k.pc[k.sched.cur].Run?)
    ensures c in DoWait(k, a).conds && DoWait(k, a).conds[c] == k.conds[c]
  {
    hide Test;
  }

  /** It ends with the list empty. */
  lemma BroadcastEnds(k: Kernel, a: SignalAct, c: nat)
    requires SignalEnabled(k, a) && Broadcasting(k.pc[k.sched.cur], c)
    requires !Broadcasting(DoSignal(k, a).pc[k.sched.cur], c)
    ensures c in k.conds && k.conds[c] == [] && DoSignal(k, a) == At(k, Run)
  {}

  // ------------------------------------------------------ what follows: assertions

  lemma OwnSemaphore(k: Kernel)
    requires Inv(k) && k.sched.cur in k.pc
    ensures k.pc[k.sched.cur].Unlocked? ==> OfWaiter(k.sched.cur) in k.semas
    ensures k.pc[k.sched.cur].Popped? ==> OfWaiter(k.pc[k.sched.cur].w) in k.semas
  {
    Basics(k);
    hide Lists, Counts, Locks, Places, S.Ok;
  }

  lemma LockSemaphores(k: Kernel)
    requires Inv(k)
    ensures forall l :: l in k.holder ==> OfLock(l) in k.semas
  {
    hide Lists, Counts, Signals, Places, S.Ok;
  }

  /** The step that takes a thread on from the middle of an operation. */
  function NextAct(p: Pc): Act
    requires !p.Run? && !p.Embryo?
  {
    match p
    case Down(_, _) => OnSema(Retest)
    case Making(_) => OnThread(Start)
    case Won(_) => OnLock(SetHolder)
    case Dropped(_, _) => OnLock(ReleaseUp)
    case Queued(_) => OnWait(WaitRelease)
    case Unlocked(_) => OnWait(WaitDown)
    case Signalled(_) => OnWait(WaitAcquire)
    case Popped(_, _, _) => OnSignal(SignalUp)
    case Sweeping(_) => OnSignal(Sweep)
  }

  /** No thread is stuck between two steps: the next one can be taken. */
  lemma CanGoOn(k: Kernel)
    requires Inv(k)
    ensures k.sched.cur in k.pc && !k.pc[k.sched.cur].Embryo?
    ensures !k.pc[k.sched.cur].Run? ==> Enabled(k, NextAct(k.pc[k.sched.cur]))
  {
    hide Inv, Placed, Calls, Interruptible, ThreadEnabled, SemaEnabled, LockEnabled, WaitEnabled, SignalEnabled;
    BusyAt(k);
    NotEmbryo(k);
    WaiterGoesOn(k);
    SignallerGoesOn(k);
    OthersGoOn(k);
  }

  lemma WaiterGoesOn(k: Kernel)
    requires Inv(k) && k.sched.cur in k.pc
    ensures k.pc[k.sched.cur].Queued? ==> WaitEnabled(k, WaitRelease)
    ensures k.pc[k.sched.cur].Unlocked? ==> WaitEnabled(k, WaitDown)
    ensures k.pc[k.sched.cur].Signalled? ==> WaitEnabled(k, WaitAcquire)
  {
    Here(k);
    OwnSemaphore(k);
    LockSemaphores(k);
    hide Inv;
  }

  lemma SignallerGoesOn(k: Kernel)
    requires Inv(k) && k.sched.cur in k.pc
    ensures k.pc[k.sched.cur].Popped? ==> SignalEnabled(k, SignalUp)
    ensures k.pc[k.sched.cur].Sweeping? ==> SignalEnabled(k, Sweep)
  {
    Here(k);
    OwnSemaphore(k);
    hide Inv;
  }

  lemma OthersGoOn(k: Kernel)
    requires Inv(k) && k.sched.cur in k.pc
    ensures k.pc[k.sched.cur].Down? ==> SemaEnabled(k, Retest)
    ensures k.pc[k.sched.cur].Making? ==> ThreadEnabled(k, Start)
    ensures k.pc[k.sched.cur].Won? ==> LockEnabled(k, SetHolder)
    ensures k.pc[k.sched.cur].Dropped? ==> LockEnabled(k, ReleaseUp)
  {
    Here(k);
    LockSemaphores(k);
    hide Inv;
  }

  lemma NotEmbryo(k: Kernel)
    requires Inv(k) && k.sched.cur in k.pc
    ensures !k.pc[k.sched.cur].Embryo?
  {
    Basics(k);
    hide Counts, Locks, Signals, Places, S.Ok;
  }

  /** lock_acquire's assertion inside cond_wait, and lock_release's: the holder is as they claim. */
  lemma HolderAsserted(k: Kernel)
    requires Inv(k)
    ensures var me, p := k.sched.cur, k.pc[k.sched.cur];
      && (p.Signalled? ==> p.c in k.lockOf && !Holds(k, k.lockOf[p.c]))
      && (p.Queued? || p.Popped? || p.Sweeping? ==> p.c in k.lockOf && Holds(k, k.lockOf[p.c]))
  {
    Here(k);
    hide Inv;
  }

  // ------------------------------------------------------ what follows: scheduling

  lemma TestProjects(k: Kernel, s: SemaId, next: Next)
    requires s in k.semas
    ensures Test(k, s, next).sched == S.Apply(k.sched, TestEvent(k, s))
  {}

  lemma RaiseProjects(k: Kernel, s: SemaId, p: Pc)
    requires s in k.semas
    ensures Raise(k, s, p).sched == S.Apply(k.sched, RaiseEvent(k, s))
  {}

  /** Each step is one step of the scheduler, or none, and one that the scheduler's assertions allow. */
  lemma StepProjects(k: Kernel, a: Act)
    requires Inv(k) && Enabled(k, a)
    ensures S.Allowed(k.sched, EventOf(k, a)) && Do(k, a).sched == S.Apply(k.sched, EventOf(k, a))
  {
    hide Inv, S.Allowed, S.Apply;
    match a
    case OnThread(t) => ThreadProjects(k, t);
    case OnSema(x) => SemaProjects(k, x);
    case OnLock(x) => LockProjects(k, x);
    case OnWait(x) => WaitProjects(k, x);
    case OnSignal(x) => SignalProjects(k, x);
  }

  lemma ThreadProjects(k: Kernel, a: ThreadAct)
    requires Inv(k) && ThreadEnabled(k, a)
    ensures S.Allowed(k.sched, ThreadEvent(k, a)) && DoThread(k, a).sched == S.Apply(k.sched, ThreadEvent(k, a))
  {
    Basics(k);
    Here(k);
    assert a.Start? ==> k.sched.status[k.pc[k.sched.cur].n] == S.Blocked && k.pc[k.sched.cur].n != k.sched.idle by {
      hide Counts, Locks, Signals, Places, S.Ok;
    }
    hide Inv;
  }

  lemma SemaProjects(k: Kernel, a: SemaAct)
    requires Inv(k) && SemaEnabled(k, a)
    ensures S.Allowed(k.sched, SemaEvent(k, a)) && DoSema(k, a).sched == S.Apply(k.sched, SemaEvent(k, a))
  {
    var p := k.pc[k.sched.cur];
    hide Lists, Counts, Locks, Signals, Places, S.Ok, Test, Raise, TestEvent, RaiseEvent, S.Apply;
    match a
    case IntrUp(s) => RaiseProjects(k, s, p); WaiterBlocked(k, s);
    case Up(s) => RaiseProjects(k, s, p); WaiterBlocked(k, s);
    case Retest => TestProjects(k, p.s, p.next); TestAllowed(k, p.s);
    case SemaDown(s) => TestProjects(k, s, Return); TestAllowed(k, s);
    case _ => Unscheduled(k.sched);
  }

  lemma LockProjects(k: Kernel, a: LockAct)
    requires Inv(k) && LockEnabled(k, a)
    ensures S.Allowed(k.sched, LockEvent(k, a)) && DoLock(k, a).sched == S.Apply(k.sched, LockEvent(k, a))
  {
    var p := k.pc[k.sched.cur];
    hide Lists, Counts, Locks, Signals, Places, S.Ok, Test, Raise, TestEvent, RaiseEvent, S.Apply;
    match a
    case ReleaseUp => RaiseProjects(k, OfLock(p.l), AfterRelease(p.after)); WaiterBlocked(k, OfLock(p.l));
    case Acquire(l) => TestProjects(k, OfLock(l), Hold(l)); TestAllowed(k, OfLock(l));
    case _ => Unscheduled(k.sched);
  }

  lemma WaitProjects(k: Kernel, a: WaitAct)
    requires Inv(k) && WaitEnabled(k, a)
    ensures S.Allowed(k.sched, WaitEvent(k, a)) && DoWait(k, a).sched == S.Apply(k.sched, WaitEvent(k, a))
  {
    var p := k.pc[k.sched.cur];
    hide Lists, Counts, Locks, Signals, Places, S.Ok, Test, TestEvent, S.Apply;
    match a
    case WaitDown => TestProjects(k, OfWaiter(k.sched.cur), Rejoin(p.c)); TestAllowed(k, OfWaiter(k.sched.cur));
    case WaitAcquire =>
      var l := k.lockOf[p.c];
      TestProjects(k, OfLock(l), Hold(l));
      TestAllowed(k, OfLock(l));
    case _ => Unscheduled(k.sched);
  }

  lemma SignalProjects(k: Kernel, a: SignalAct)
    requires Inv(k) && SignalEnabled(k, a)
    ensures S.Allowed(k.sched, SignalEvent(k, a)) && DoSignal(k, a).sched == S.Apply(k.sched, SignalEvent(k, a))
  {
    var p := k.pc[k.sched.cur];
    hide Lists, Counts, Locks, Signals, Places, S.Ok, Raise, RaiseEvent, S.Apply;
    match a
    case SignalUp => RaiseProjects(k, OfWaiter(p.w), AfterSignal(p.c, p.more)); WaiterBlocked(k, OfWaiter(p.w));
    case _ => Unscheduled(k.sched);
  }

  lemma TestAllowed(k: Kernel, s: SemaId)
    requires s in k.semas
    ensures S.Allowed(k.sched, TestEvent(k, s))
  {}

  lemma Unscheduled(s: S.State)
    ensures S.Allowed(s, S.Other) && S.Apply(s, S.Other) == s
  {}

  ghost function Scheds(states: seq<Kernel>): seq<S.State> { seq(|states|, i requires 0 <= i < |states| => states[i].sched) }

  ghost function Events(states: seq<Kernel>, acts: seq<Act>): (es: seq<S.Event>)
    requires IsRun(states, acts)
  {
    seq(|acts|, i requires 0 <= i < |acts| => EventOf(states[i], acts[i]))
  }

  /** A run of the kernel is a run of its scheduler. */
  lemma RunProjects(states: seq<Kernel>, acts: seq<Act>)
    requires IsRun(states, acts)
    ensures S.IsRun(Scheds(states), Events(states, acts))
  {
    var ss, es := Scheds(states), Events(states, acts);
    RunInv(states, acts, 0);
    forall i | 0 <= i < |acts| ensures S.Allowed(ss[i], es[i]) && ss[i + 1] == S.Apply(ss[i], es[i]) {
      RunInv(states, acts, i);
      hide Inv, Do, Enabled, EventOf, S.Apply, S.Allowed;
      StepProjects(states[i], acts[i]);
    }
  }

  /**
   * A positive semaphore with waiters is taken up: one of the threads it
   * woke runs before four timer ticks have passed for each thread that
   * was ready, whatever the threads do.
   */
  lemma WokenRuns(states: seq<Kernel>, acts: seq<Act>, i: nat, j: nat, s: SemaId) returns (w: Tid, n: nat)
    requires IsRun(states, acts) && i <= j < |states|
    requires s in states[i].semas && states[i].semas[s].waiters != [] && states[i].semas[s].value > 0
    requires S.TicksHandled(Events(states, acts), i, j) >= 4 * |states[i].sched.ready|
    ensures InDown(states[i], w, s) && w !in states[i].semas[s].waiters && i <= n <= j && states[n].sched.cur == w
  {
    RunInv(states, acts, i);
    NoLostWakeup(states[i], s);
    w :| InDown(states[i], w, s) && w !in states[i].semas[s].waiters && (w == states[i].sched.cur || w in states[i].sched.ready);
    n := i;
    if w != states[i].sched.cur {
      var ss, es, ready := Scheds(states), Events(states, acts), states[i].sched.ready;
      var k: nat :| k < |ready| && ready[k] == w;
      RunProjects(states, acts);
      hide Inv, IsRun, S.IsRun;
      S.DispatchedByTicks(ss, es, w, k, i, j);
      n :| i < n <= j < |ss| && ss[n].cur == w;
    }
  }

  /** The lists that a list_elem can be linked into: elem of a thread, or the element on a waiter's stack. */
  datatype ListId = ReadyList | WaitersOf(s: SemaId) | WaitersOn(c: nat)

  predicate IsList(k: Kernel, l: ListId) {
    match l case ReadyList => true case WaitersOf(s) => s in k.semas case WaitersOn(c) => c in k.conds
  }

  function ListAt(k: Kernel, l: ListId): seq<Tid>
    requires IsList(k, l)
  {
    match l case ReadyList => k.sched.ready case WaitersOf(s) => k.semas[s].waiters case WaitersOn(c) => k.conds[c]
  }

  /** In every state of every run, a thread's elem is at one place of one list, and so is its element for cond_wait. */
  lemma OneListOnly(states: seq<Kernel>, acts: seq<Act>, i: nat, t: Tid, a: ListId, b: ListId)
    requires IsRun(states, acts) && i < |states| && IsList(states[i], a) && IsList(states[i], b)
    ensures NoDuplicates(ListAt(states[i], a))
    ensures t in ListAt(states[i], a) && t in ListAt(states[i], b) && (a.WaitersOn? <==> b.WaitersOn?) ==> a == b
  {
    hide Inv, IsRun;
    RunInv(states, acts, i);
    ListsApart(states[i], t, a, b);
  }

  lemma ListsApart(k: Kernel, t: Tid, a: ListId, b: ListId)
    requires Inv(k) && IsList(k, a) && IsList(k, b)
    ensures NoDuplicates(ListAt(k, a))
    ensures t in ListAt(k, a) && t in ListAt(k, b) && (a.WaitersOn? <==> b.WaitersOn?) ==> a == b
  {
    hide Places, Counts, Locks, Hands, Lists, S.Ok, Queues, NoDuplicates;
    if a.WaitersOn? {
      CondApart(k, t, a.c, if b.WaitersOn? then b.c else a.c);
    } else {
      ThreadApart(k, t);
      if a.WaitersOf? { WaitersListed(k, a.s, t); }
      if b.WaitersOf? { WaitersListed(k, b.s, t); }
    }
  }

  lemma CondApart(k: Kernel, t: Tid, c: nat, d: nat)
    requires Queues(k) && c in k.conds && d in k.conds
    ensures NoDuplicates(k.conds[c]) && (t in k.conds[c] && t in k.conds[d] ==> c == d)
  {
    hide NoDuplicates;
    if t in k.conds[c] && t in k.conds[d] { assert OnList(c) == k.token[t] == OnList(d); }
  }

  lemma ThreadApart(k: Kernel, t: Tid)
    requires S.Ok(k.sched)
    ensures NoDuplicates(k.sched.ready) && (t in k.sched.ready ==> t in k.sched.status && k.sched.status[t] == S.Ready)
  {
    hide NoDuplicates;
  }

  lemma WaitersListed(k: Kernel, s: SemaId, t: Tid)
    requires Lists(k) && s in k.semas
    ensures NoDuplicates(k.semas[s].waiters) && (t in k.semas[s].waiters ==> InDown(k, t, s) && t in k.sched.status && k.sched.status[t] == S.Blocked)
  {
    hide NoDuplicates;
  }

  // --------------------------------------------------------------- synch.c

  /**
   * The semaphore in memory. Its methods are the stretches that run with
   * interrupts off; the kernel's steps Take, Sleep and Raise are these.
   */
  class Semaphore {
    var value: nat
    var waiters: seq<Tid>

    ghost function Snap(): Sema
      reads this
    {
      Sema(value, waiters, {}, 0, 0, 0)
    }

    constructor (value: nat)
      ensures this.value == value && waiters == []
    {
      this.value, waiters := value, [];
    }

    /** sema_down from one test of its loop to the next switch, or to its end. */
    method DownOnce(sched: S.Scheduler) returns (done: bool)
      requires sched.Valid() && sched.cur !in waiters
      modifies this, sched
      ensures sched.Valid() && (done <==> old(value) > 0)
      ensures done ==> value == old(value) - 1 && waiters == old(waiters) && sched.Snap() == old(sched.Snap())
      ensures !done ==> value == 0 && waiters == old(waiters) + [old(sched.cur)] && sched.Snap() == S.Block(old(sched.Snap()))
    {
      if value == 0 {
        waiters := waiters + [sched.cur];
        sched.ThreadBlock();
        return false;
      }
      value := value - 1;
      return true;
    }

    method TryDown() returns (success: bool)
      modifies this`value
      ensures success <==> old(value) > 0
      ensures value == if success then old(value) - 1 else old(value)
    {
      if value > 0 {
        value := value - 1;
        success := true;
      } else {
        success := false;
      }
    }

    method Up(sched: S.Scheduler)
      requires sched.Valid() && (waiters != [] ==> S.Allowed(sched.Snap(), S.Unblocks(waiters[0])))
      modifies this, sched
      ensures sched.Valid() && sched.Snap() == WakeFirst(old(sched.Snap()), old(Snap()))
      ensures value == Raised(old(Snap())).value && waiters == Raised(old(Snap())).waiters
    {
      if waiters != [] {
        var t := waiters[0];
        waiters := waiters[1..];
        sched.ThreadUnblock(t);
      }
      value := value + 1;
    }
  }
}
