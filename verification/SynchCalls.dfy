/**
 * What a call has done when it returns, over every run: lock_acquire and
 * cond_wait return with the lock, lock_release without it, sema_down with
 * one unit, and the waiters of a semaphore or a condition are served in
 * the order in which they came.
 */
module SynchCalls {
  import opened Options
  import opened Sequences
  import S = Sched
  import opened Kernel
  import opened KernelSteps
  import opened Synch

  /** A thread calls at state i and is back at state j, the first since. */
  ghost predicate Returns(states: seq<Kernel>, t: Tid, i: nat, j: nat) {
    && i < j < |states| && states[i].sched.cur == t
    && (forall m :: i <= m <= j ==> t in states[m].pc)
    && states[i].pc[t].Run? && states[j].pc[t].Run?
    && forall m :: i < m < j ==> !states[m].pc[t].Run?
  }

  // ------------------------------------------------------------ one step of a thread

  /** The lock that a thread will hold when it is back: it is in lock_acquire, or in cond_wait. */
  function Aim(lockOf: map<nat, nat>, p: Pc): Option<nat> {
    match p
    case Down(_, Hold(l)) => Some(l)
    case Won(l) => Some(l)
    case Down(_, Rejoin(c)) => LockFor(lockOf, c)
    case Dropped(_, Await(c)) => LockFor(lockOf, c)
    case Queued(c) => LockFor(lockOf, c)
    case Unlocked(c) => LockFor(lockOf, c)
    case Signalled(c) => LockFor(lockOf, c)
    case _ => None
  }

  function LockFor(lockOf: map<nat, nat>, c: nat): Option<nat> { if c in lockOf then Some(lockOf[c]) else None }

  predicate Has(k: Kernel, t: Tid, l: nat) { l in k.holder && k.holder[l] == Some(t) }

  /** A step of the current thread: nobody else moves, and what it is after it keeps, or has. */
  ghost predicate Alone(k: Kernel, k': Kernel) {
    var me := k.sched.cur;
    && k'.lockOf == k.lockOf && me in k.pc && me in k'.pc && k'.pc == k.pc[me := k'.pc[me]]
    && (forall l :: Aim(k.lockOf, k.pc[me]) == Some(l) ==> Aim(k.lockOf, k'.pc[me]) == Some(l) || (k'.pc[me].Run? && Has(k', me, l)))
  }

  lemma TestAlone(k: Kernel, s: SemaId, next: Next)
    requires s in k.semas && k.sched.cur in k.pc
    ensures var k' := Test(k, s, next); var p := k'.pc[k.sched.cur];
      && k'.lockOf == k.lockOf && k'.holder == k.holder && k'.pc == k.pc[k.sched.cur := p] && (p == Down(s, next) || p == Resume(next))
  {
    hide S.Block, Resume, Take, Sleep;
    if k.semas[s].value == 0 { SleepAlone(k, s, next); } else { TakeAlone(k, s, next); }
  }

  lemma SleepAlone(k: Kernel, s: SemaId, next: Next)
    requires s in k.semas && k.sched.cur in k.pc
    ensures Sleep(k, s, next).pc == k.pc[k.sched.cur := Down(s, next)] && Sleep(k, s, next).lockOf == k.lockOf
  {}

  lemma TakeAlone(k: Kernel, s: SemaId, next: Next)
    requires s in k.semas && k.semas[s].value > 0 && k.sched.cur in k.pc
    ensures Take(k, s, next).pc == k.pc[k.sched.cur := Resume(next)] && Take(k, s, next).lockOf == k.lockOf
  {}

  lemma SemaAlone(k: Kernel, a: SemaAct)
    requires SemaEnabled(k, a) && k.sched.cur in k.pc
    ensures Alone(k, DoSema(k, a))
  {
    hide Test, Raised, WakeFirst;
    match a
    case Retest => TestAlone(k, k.pc[k.sched.cur].s, k.pc[k.sched.cur].next);
    case SemaDown(s) => TestAlone(k, s, Return);
    case _ =>
  }

  lemma LockAlone(k: Kernel, a: LockAct)
    requires LockEnabled(k, a) && k.sched.cur in k.pc
    ensures Alone(k, DoLock(k, a))
  {
    hide Test, Raised, WakeFirst;
    if a.Acquire? { TestAlone(k, OfLock(a.l), Hold(a.l)); }
  }

  lemma WaitAlone(k: Kernel, a: WaitAct)
    requires WaitEnabled(k, a) && k.sched.cur in k.pc
    ensures Alone(k, DoWait(k, a))
  {
    hide Test;
    var me := k.sched.cur;
    match a
    case WaitDown => TestAlone(k, OfWaiter(me), Rejoin(k.pc[me].c));
    case WaitAcquire => TestAlone(k, OfLock(k.lockOf[k.pc[me].c]), Hold(k.lockOf[k.pc[me].c]));
    case _ =>
  }

  lemma SignalAlone(k: Kernel, a: SignalAct)
    requires SignalEnabled(k, a) && k.sched.cur in k.pc
    ensures Alone(k, DoSignal(k, a))
  {
    hide Raised, WakeFirst;
  }

  lemma ThreadMoves(k: Kernel, a: ThreadAct)
    requires ThreadEnabled(k, a) && k.sched.cur in k.pc
    requires k.pc[k.sched.cur].Making? ==> k.pc[k.sched.cur].n in k.pc && k.pc[k.pc[k.sched.cur].n].Embryo?
    ensures var k' := DoThread(k, a);
      && k'.lockOf == k.lockOf && k.pc.Keys <= k'.pc.Keys
      && forall t :: t in k.pc && !k.pc[t].Embryo? && (t != k.sched.cur || Aim(k.lockOf, k.pc[t]).Some?) ==> k'.pc[t] == k.pc[t]
  {
    hide S.Tick, S.Yield, S.Block, S.Exit;
  }

  lemma MadeIsEmbryo(k: Kernel)
    requires Inv(k)
    ensures k.sched.cur in k.pc
    ensures k.pc[k.sched.cur].Making? ==> k.pc[k.sched.cur].n in k.pc && k.pc[k.pc[k.sched.cur].n].Embryo?
  {
    Here(k);
    hide Inv;
  }

  /** Only its own steps move a thread that has started. */
  lemma OthersStay(k: Kernel, a: Act, t: Tid)
    requires Inv(k) && Enabled(k, a) && t in k.pc && t != k.sched.cur && !k.pc[t].Embryo?
    ensures t in Do(k, a).pc && Do(k, a).pc[t] == k.pc[t]
  {
    hide Inv, DoThread, DoSema, DoLock, DoWait, DoSignal, ThreadEnabled, SemaEnabled, LockEnabled, WaitEnabled, SignalEnabled;
    MadeIsEmbryo(k);
    match a
    case OnThread(x) => ThreadMoves(k, x);
    case OnSema(x) => SemaAlone(k, x);
    case OnLock(x) => LockAlone(k, x);
    case OnWait(x) => WaitAlone(k, x);
    case OnSignal(x) => SignalAlone(k, x);
  }

  /** A thread that is after a lock stays after it until it is back and has it. */
  lemma AimStep(k: Kernel, a: Act, t: Tid, l: nat)
    requires Inv(k) && Enabled(k, a) && t in k.pc && Aim(k.lockOf, k.pc[t]) == Some(l)
    ensures var k' := Do(k, a);
      k'.lockOf == k.lockOf && t in k'.pc && (Aim(k.lockOf, k'.pc[t]) == Some(l) || (k'.pc[t].Run? && Has(k', t, l)))
  {
    hide Inv, DoThread, DoSema, DoLock, DoWait, DoSignal, ThreadEnabled, SemaEnabled, LockEnabled, WaitEnabled, SignalEnabled;
    MadeIsEmbryo(k);
    match a
    case OnThread(x) => ThreadMoves(k, x);
    case OnSema(x) => SemaAlone(k, x);
    case OnLock(x) => LockAlone(k, x);
    case OnWait(x) => WaitAlone(k, x);
    case OnSignal(x) => SignalAlone(k, x);
  }

  // -------------------------------------------------------------------- locks

  /** A call that is after a lock returns with it. */
  lemma {:induction false} Arrives(states: seq<Kernel>, acts: seq<Act>, t: Tid, l: nat, i: nat, j: nat)
    requires IsRun(states, acts) && i < j < |states|
    requires t in states[i + 1].pc && Aim(states[i + 1].lockOf, states[i + 1].pc[t]) == Some(l)
    requires forall m :: i < m < j && t in states[m].pc ==> !states[m].pc[t].Run?
    ensures t in states[j].pc && states[j].lockOf == states[i + 1].lockOf
    ensures Aim(states[j].lockOf, states[j].pc[t]) == Some(l) || (states[j].pc[t].Run? && Has(states[j], t, l))
  {
    hide Inv, IsRun, Enabled, Do;
    if j > i + 1 {
      Arrives(states, acts, t, l, i, j - 1);
      StepAt(states, acts, j - 1);
      AimStep(states[j - 1], acts[j - 1], t, l);
    }
  }

  /** lock_acquire and lock_try_acquire, when it succeeds, return with the lock. */
  lemma AcquireReturns(states: seq<Kernel>, acts: seq<Act>, t: Tid, l: nat, i: nat, j: nat)
    requires IsRun(states, acts) && Returns(states, t, i, j) && (acts[i] == OnLock(Acquire(l)) || acts[i] == OnLock(TryAcquire(l)))
    ensures Has(states[j], t, l)
  {
    assert Enabled(states[i], acts[i]) && states[i + 1] == Do(states[i], acts[i]);
    AcquireAims(states[i], acts[i].l);
    hide IsRun;
    Arrives(states, acts, t, l, i, j);
  }

  lemma AcquireAims(k: Kernel, a: LockAct)
    requires LockEnabled(k, a) && (a.Acquire? || a.TryAcquire?)
    ensures k.sched.cur in DoLock(k, a).pc && Aim(DoLock(k, a).lockOf, DoLock(k, a).pc[k.sched.cur]) == Some(a.l)
  {
    hide S.Block;
  }

  /** cond_wait returns with the lock of its condition. */
  lemma WaitReturns(states: seq<Kernel>, acts: seq<Act>, t: Tid, c: nat, i: nat, j: nat)
    requires IsRun(states, acts) && Returns(states, t, i, j) && acts[i] == OnWait(Wait(c))
    ensures c in states[j].lockOf && Has(states[j], t, states[j].lockOf[c])
  {
    assert Enabled(states[i], acts[i]) && states[i + 1] == Do(states[i], acts[i]);
    assert c in states[i].lockOf && states[i + 1].lockOf == states[i].lockOf && states[i + 1].pc[t] == Queued(c);
    hide IsRun;
    Arrives(states, acts, t, states[i].lockOf[c], i, j);
  }

  lemma StepAt(states: seq<Kernel>, acts: seq<Act>, m: nat)
    requires IsRun(states, acts) && m + 1 < |states|
    ensures |states| == |acts| + 1 && Inv(states[m]) && Enabled(states[m], acts[m]) && states[m + 1] == Do(states[m], acts[m])
  {
    RunInv(states, acts, m);
    hide Inv, Initial, Enabled, Do;
  }

  /** A thread in lock_release, past the assignment to the holder. */
  lemma ReleaseStep(k: Kernel, a: Act, t: Tid, l: nat)
    requires Inv(k) && Enabled(k, a) && t in k.pc && k.pc[t] == Dropped(l, Finish)
    ensures var k' := Do(k, a); t in k'.pc && (k'.pc[t] == k.pc[t] || (k'.pc[t].Run? && l in k'.holder && k'.holder[l].None?))
  {
    hide Inv, Enabled, Do;
    if t == k.sched.cur {
      Here(k);
      OwnRelease(k, a, l);
    } else {
      OthersStay(k, a, t);
    }
  }

  /** What happens to a thread inside a call, other than its own steps, moves nothing of what the call is about. */
  lemma Aside(k: Kernel, a: Act)
    requires Enabled(k, a) && k.sched.cur in k.pc && (a.OnThread? || a.OnSema?)
    requires !k.pc[k.sched.cur].Run? && !k.pc[k.sched.cur].Making? && !k.pc[k.sched.cur].Down?
    ensures Do(k, a).pc == k.pc && Do(k, a).holder == k.holder && Do(k, a).conds == k.conds
  {
    hide S.Tick, S.Yield, S.Block, Raised, WakeFirst;
    if a.OnThread? { ThreadAside(k, a.t); } else { SemaAside(k, a.s); }
  }

  lemma ThreadAside(k: Kernel, a: ThreadAct)
    requires ThreadEnabled(k, a) && !k.pc[k.sched.cur].Run? && !k.pc[k.sched.cur].Making?
    ensures DoThread(k, a) == k.(sched := DoThread(k, a).sched)
  {
    hide S.Tick, S.Yield, S.Block;
  }

  lemma SemaAside(k: Kernel, a: SemaAct)
    requires SemaEnabled(k, a) && !k.pc[k.sched.cur].Run? && !k.pc[k.sched.cur].Down?
    ensures DoSema(k, a).pc == k.pc && DoSema(k, a).holder == k.holder && DoSema(k, a).conds == k.conds
  {
    hide Raised, WakeFirst;
  }

  lemma OwnRelease(k: Kernel, a: Act, l: nat)
    requires Enabled(k, a) && k.sched.cur in k.pc && k.pc[k.sched.cur] == Dropped(l, Finish) && Placed(k, k.sched.cur)
    ensures var k' := Do(k, a); var t := k.sched.cur;
      t in k'.pc && (k'.pc[t] == k.pc[t] || (k'.pc[t].Run? && l in k'.holder && k'.holder[l].None?))
  {
    hide Raised, WakeFirst, DoThread, DoSema, DoWait, DoSignal;
    if a.OnThread? || a.OnSema? { Aside(k, a); }
  }

  lemma {:induction false} Releasing(states: seq<Kernel>, acts: seq<Act>, t: Tid, l: nat, i: nat, j: nat)
    requires IsRun(states, acts) && i < j < |states|
    requires t in states[i + 1].pc && states[i + 1].pc[t] == Dropped(l, Finish)
    requires forall m :: i < m < j && t in states[m].pc ==> !states[m].pc[t].Run?
    ensures t in states[j].pc && (states[j].pc[t] == Dropped(l, Finish) || (states[j].pc[t].Run? && l in states[j].holder && states[j].holder[l].None?))
  {
    hide Inv, IsRun, Enabled, Do;
    if j > i + 1 {
      Releasing(states, acts, t, l, i, j - 1);
      StepAt(states, acts, j - 1);
      ReleaseStep(states[j - 1], acts[j - 1], t, l);
    }
  }

  /** lock_release returns without the lock. */
  lemma ReleaseReturns(states: seq<Kernel>, acts: seq<Act>, t: Tid, l: nat, i: nat, j: nat)
    requires IsRun(states, acts) && Returns(states, t, i, j) && acts[i] == OnLock(Release(l))
    ensures !Has(states[j], t, l)
  {
    StepAt(states, acts, i);
    assert states[i + 1].pc[t] == Dropped(l, Finish);
    hide Inv, IsRun, Enabled, Do;
    Releasing(states, acts, t, l, i, j);
  }

  // --------------------------------------------------------------- semaphores

  /** The thread takes a unit from the semaphore in this step. */
  predicate TakesUnit(k: Kernel, a: Act, k': Kernel, t: Tid, s: SemaId) {
    && k.sched.cur == t && (Downs(a, s) || a == OnSema(Retest))
    && s in k.semas && s in k'.semas && k.semas[s].value == k'.semas[s].value + 1
  }

  ghost function Units(states: seq<Kernel>, acts: seq<Act>, t: Tid, s: SemaId, i: nat, j: nat): nat
    requires i <= j <= |acts| < |states|
  {
    if i == j then 0
    else Units(states, acts, t, s, i, j - 1) + if TakesUnit(states[j - 1], acts[j - 1], states[j], t, s) then 1 else 0
  }

  predicate Downs(a: Act, s: SemaId) { a == OnSema(SemaDown(s)) || a == OnSema(TryDown(s)) }

  lemma UnitStep(k: Kernel, a: Act, t: Tid, s: SemaId)
    requires Inv(k) && Enabled(k, a) && t in k.pc && (k.pc[t] == Down(s, Return) || (t == k.sched.cur && Downs(a, s)))
    ensures var k' := Do(k, a); t in k'.pc && if TakesUnit(k, a, k', t, s) then k'.pc[t].Run? else k'.pc[t] == Down(s, Return)
  {
    hide Inv, Enabled, Do;
    if t == k.sched.cur { OwnUnit(k, a, s); } else { OthersStay(k, a, t); }
  }

  lemma OwnUnit(k: Kernel, a: Act, s: SemaId)
    requires Enabled(k, a) && k.sched.cur in k.pc && (k.pc[k.sched.cur] == Down(s, Return) || Downs(a, s))
    ensures var k' := Do(k, a); var t := k.sched.cur;
      t in k'.pc && if TakesUnit(k, a, k', t, s) then k'.pc[t].Run? else k'.pc[t] == Down(s, Return)
  {
    hide DoThread, DoSema, DoLock, DoWait, DoSignal;
    if a.OnThread? { ThreadAside(k, a.t); }
    if a.OnSema? { SemaUnit(k, a.s, s); }
  }

  lemma SemaUnit(k: Kernel, a: SemaAct, s: SemaId)
    requires SemaEnabled(k, a) && k.sched.cur in k.pc && (k.pc[k.sched.cur] == Down(s, Return) || Downs(OnSema(a), s))
    ensures var k' := DoSema(k, a); var t := k.sched.cur;
      t in k'.pc && if TakesUnit(k, OnSema(a), k', t, s) then k'.pc[t].Run? else k'.pc[t] == Down(s, Return)
  {
    hide Sleep, Take, Raise;
    if a.Retest? || a.SemaDown? || a.TryDown? {
      if k.semas[s].value == 0 { SleepUnit(k, s); } else { TakeUnit(k, s); }
    }
  }

  lemma SleepUnit(k: Kernel, s: SemaId)
    requires s in k.semas && k.sched.cur in k.pc
    ensures var k' := Sleep(k, s, Return);
      s in k'.semas && k'.semas[s].value == k.semas[s].value && k.sched.cur in k'.pc && k'.pc[k.sched.cur] == Down(s, Return)
  {}

  lemma TakeUnit(k: Kernel, s: SemaId)
    requires s in k.semas && k.semas[s].value > 0 && k.sched.cur in k.pc
    ensures var k' := Take(k, s, Return);
      s in k'.semas && k.semas[s].value == k'.semas[s].value + 1 && k.sched.cur in k'.pc && k'.pc[k.sched.cur].Run?
  {}

  lemma {:induction false} Downing(states: seq<Kernel>, acts: seq<Act>, t: Tid, s: SemaId, i: nat, j: nat)
    requires IsRun(states, acts) && i < j < |states| && t in states[i].pc && states[i].sched.cur == t
    requires Downs(acts[i], s)
    requires forall m :: i < m < j && t in states[m].pc ==> !states[m].pc[t].Run?
    ensures t in states[j].pc
    ensures (states[j].pc[t] == Down(s, Return) && Units(states, acts, t, s, i, j) == 0) || (states[j].pc[t].Run? && Units(states, acts, t, s, i, j) == 1)
  {
    hide Inv, Initial, Enabled, Do, TakesUnit;
    StepAt(states, acts, j - 1);
    if j > i + 1 {
      Downing(states, acts, t, s, i, j - 1);
    } else {
      assert Units(states, acts, t, s, i, i) == 0;
    }
    UnitStep(states[j - 1], acts[j - 1], t, s);
  }

  /** sema_down, and sema_try_down when it succeeds, return with exactly one unit taken, however often the thread slept and lost the race. */
  lemma DownReturns(states: seq<Kernel>, acts: seq<Act>, t: Tid, s: SemaId, i: nat, j: nat)
    requires IsRun(states, acts) && Returns(states, t, i, j) && Downs(acts[i], s)
    ensures Units(states, acts, t, s, i, j) == 1
  {
    hide IsRun;
    Downing(states, acts, t, s, i, j);
  }

  // ------------------------------------------------------------------ signals

  /** The thread hands the signal for w to its semaphore in this step. */
  predicate Delivers(k: Kernel, a: Act, k': Kernel, t: Tid, w: Tid) {
    && k.sched.cur == t && a == OnSignal(SignalUp)
    && w in k.token && k.token[w] == InHand(t) && w in k'.token && k'.token[w] == Delivered
    && OfWaiter(w) in k.semas && OfWaiter(w) in k'.semas && k'.semas[OfWaiter(w)].value == k.semas[OfWaiter(w)].value + 1
  }

  /** A thread that has taken a waiter off the list delivers the signal, and goes on. */
  lemma HandStep(k: Kernel, a: Act, t: Tid, w: Tid, c: nat, more: bool)
    requires Inv(k) && Enabled(k, a) && t in k.pc && k.pc[t] == Popped(w, c, more)
    ensures var k' := Do(k, a);
      t in k'.pc && if Delivers(k, a, k', t, w) then k'.pc[t] == AfterSignal(c, more) && k'.conds == k.conds else k'.pc[t] == k.pc[t]
  {
    hide Inv, Enabled, Do;
    if t == k.sched.cur {
      HandToken(k);
      OwnHand(k, a, w, c, more);
    } else {
      OthersStay(k, a, t);
    }
  }

  lemma HandToken(k: Kernel)
    requires Inv(k) && k.sched.cur in k.pc && k.pc[k.sched.cur].Popped?
    ensures k.pc[k.sched.cur].w in k.token && k.token[k.pc[k.sched.cur].w] == InHand(k.sched.cur)
  {
    hide Lists, Counts, Locks, Places, S.Ok, Queues;
    PoppedToken(k);
  }

  lemma OwnHand(k: Kernel, a: Act, w: Tid, c: nat, more: bool)
    requires Enabled(k, a) && k.sched.cur in k.pc && k.pc[k.sched.cur] == Popped(w, c, more) && w in k.token && k.token[w] == InHand(k.sched.cur)
    ensures var k' := Do(k, a); var t := k.sched.cur;
      t in k'.pc && if Delivers(k, a, k', t, w) then k'.pc[t] == AfterSignal(c, more) && k'.conds == k.conds else k'.pc[t] == k.pc[t]
  {
    hide DoThread, DoSema, DoWait, DoLock, Raise;
    if a.OnThread? || a.OnSema? { Aside(k, a); }
    if a == OnSignal(SignalUp) { RaiseUnit(k, OfWaiter(w), AfterSignal(c, more)); }
  }

  lemma RaiseUnit(k: Kernel, s: SemaId, p: Pc)
    requires s in k.semas && k.sched.cur in k.pc
    ensures var k' := Raise(k, s, p);
      && s in k'.semas && k'.semas[s].value == k.semas[s].value + 1 && k'.pc == k.pc[k.sched.cur := p]
      && (s.OfWaiter? ==> k'.token == k.token[s.t := Delivered])
  {}

  /** cond_signal gives its signal to the thread that has waited longest, once, before it returns. */
  lemma SignalReturns(states: seq<Kernel>, acts: seq<Act>, t: Tid, c: nat, i: nat, j: nat) returns (w: Tid, n: nat)
    requires IsRun(states, acts) && Returns(states, t, i, j) && acts[i] == OnSignal(Signal(c))
    ensures c in states[i].conds && states[i].conds[c] != [] && w == states[i].conds[c][0]
    ensures i < n < j && Delivers(states[n], acts[n], states[n + 1], t, w)
  {
    StepAt(states, acts, i);
    w := states[i].conds[c][0];
    assert states[i + 1].pc[t] == Popped(w, c, false);
    hide Inv, IsRun, Enabled, Do;
    n := Hands(states, acts, t, w, c, false, i + 1, j);
  }

  /** A signaller that is back, or sweeps on, has delivered. */
  lemma {:induction false} Hands(states: seq<Kernel>, acts: seq<Act>, t: Tid, w: Tid, c: nat, more: bool, i: nat, j: nat) returns (n: nat)
    requires IsRun(states, acts) && i < j < |states| && t in states[i].pc && states[i].pc[t] == Popped(w, c, more)
    requires t in states[j].pc && states[j].pc[t] != Popped(w, c, more)
    ensures i <= n < j && Delivers(states[n], acts[n], states[n + 1], t, w)
    decreases j - i
  {
    hide Inv, IsRun, Enabled, Do, Delivers;
    StepAt(states, acts, i);
    HandStep(states[i], acts[i], t, w, c, more);
    if states[i + 1].pc[t] != Popped(w, c, more) {
      n := i;
    } else {
      n := Hands(states, acts, t, w, c, more, i + 1, j);
    }
  }

  /** The state in which a broadcaster is back at its loop test; nobody has joined the list. */
  lemma {:induction false} NextTest(states: seq<Kernel>, acts: seq<Act>, t: Tid, w: Tid, c: nat, i: nat, j: nat) returns (n: nat)
    requires IsRun(states, acts) && i < j < |states| && t in states[i].pc && states[i].pc[t] == Popped(w, c, true) && c in states[i].conds
    requires t in states[j].pc && states[j].pc[t] != Popped(w, c, true)
    ensures i < n <= j && t in states[n].pc && states[n].pc[t] == Sweeping(c) && c in states[n].conds && states[n].conds[c] == states[i].conds[c]
    decreases j - i
  {
    hide Inv, IsRun, Enabled, Do, Delivers;
    StepAt(states, acts, i);
    HandStep(states[i], acts[i], t, w, c, true);
    HandKeeps(states[i], acts[i], t, w, c);
    if states[i + 1].pc[t] != Popped(w, c, true) {
      n := i + 1;
    } else {
      n := NextTest(states, acts, t, w, c, i + 1, j);
    }
  }

  lemma HandKeeps(k: Kernel, a: Act, t: Tid, w: Tid, c: nat)
    requires Inv(k) && Enabled(k, a) && t in k.pc && k.pc[t] == Popped(w, c, true) && c in k.conds
    ensures c in Do(k, a).conds && Do(k, a).conds[c] == k.conds[c]
  {
    if t == k.sched.cur {
      hide Inv, DoThread, DoSema, DoWait, DoLock, Raised, WakeFirst;
      if a.OnThread? || a.OnSema? { Aside(k, a); }
    } else {
      hide Inv, Enabled, Do;
      BroadcastDrains(k, a, c, t);
    }
  }

  /** A broadcaster at its loop test. */
  lemma SweepStep(k: Kernel, a: Act, t: Tid, c: nat)
    requires Inv(k) && Enabled(k, a) && t in k.pc && k.pc[t] == Sweeping(c) && c in k.conds
    ensures var k' := Do(k, a); t in k'.pc && c in k'.conds && var p, l, l' := k'.pc[t], k.conds[c], k'.conds[c];
      || (p == Sweeping(c) && l' == l)
      || (l != [] && p == Popped(l[0], c, true) && l' == l[1..])
      || (l == [] && p.Run?)
  {
    if t == k.sched.cur {
      hide Inv, DoThread, DoSema, DoWait, DoLock;
      if a.OnThread? || a.OnSema? { Aside(k, a); }
    } else {
      hide Inv, Enabled, Do;
      OthersStay(k, a, t);
      BroadcastDrains(k, a, c, t);
    }
  }

  /** From its loop test to its return, a broadcaster signals everybody on the list. */
  lemma {:induction false} Sweeps(states: seq<Kernel>, acts: seq<Act>, t: Tid, c: nat, i: nat, j: nat, x: nat) returns (n: nat)
    requires IsRun(states, acts) && i < j < |states| && t in states[i].pc && states[i].pc[t] == Sweeping(c)
    requires c in states[i].conds && x < |states[i].conds[c]| && t in states[j].pc && states[j].pc[t].Run?
    ensures i <= n < j && Delivers(states[n], acts[n], states[n + 1], t, states[i].conds[c][x])
    decreases j - i
  {
    hide Inv, IsRun, Enabled, Do, Delivers;
    StepAt(states, acts, i);
    SweepStep(states[i], acts[i], t, c);
    var l := states[i].conds[c];
    if states[i + 1].pc[t] == Sweeping(c) {
      n := Sweeps(states, acts, t, c, i + 1, j, x);
    } else if x == 0 {
      n := Hands(states, acts, t, l[0], c, true, i + 1, j);
    } else {
      var b := NextTest(states, acts, t, l[0], c, i + 1, j);
      n := Sweeps(states, acts, t, c, b, j, x - 1);
    }
  }

  /** cond_broadcast signals every thread that waited when it was called, before it returns. */
  lemma BroadcastReturns(states: seq<Kernel>, acts: seq<Act>, t: Tid, c: nat, i: nat, j: nat, x: nat) returns (n: nat)
    requires IsRun(states, acts) && Returns(states, t, i, j) && acts[i] == OnSignal(Broadcast(c)) && c in states[i].conds && x < |states[i].conds[c]|
    ensures i < n < j && Delivers(states[n], acts[n], states[n + 1], t, states[i].conds[c][x])
  {
    StepAt(states, acts, i);
    assert states[i + 1].pc[t] == Sweeping(c) && states[i + 1].conds == states[i].conds;
    hide Inv, IsRun, Enabled, Do;
    n := Sweeps(states, acts, t, c, i + 1, j, x);
  }

  // --------------------------------------------------------------- first come, first served

  /** The threads that wait on a semaphore or a condition, the first first. */
  function Line(k: Kernel, l: ListId): seq<Tid> { if IsList(k, l) then ListAt(k, l) else [] }

  /** The step serves the line: an up of the semaphore, or a signal, or a turn of a broadcast, of the condition. */
  predicate Serves(k: Kernel, a: Act, l: ListId) {
    match l
    case ReadyList => false
    case WaitersOf(s) =>
      || a == OnSema(Up(s)) || a == OnSema(IntrUp(s))
      || (a == OnLock(ReleaseUp) && k.sched.cur in k.pc && k.pc[k.sched.cur].Dropped? && s == OfLock(k.pc[k.sched.cur].l))
      || (a == OnSignal(SignalUp) && k.sched.cur in k.pc && k.pc[k.sched.cur].Popped? && s == OfWaiter(k.pc[k.sched.cur].w))
    case WaitersOn(c) =>
      || a == OnSignal(Signal(c))
      || (a == OnSignal(Sweep) && k.sched.cur in k.pc && k.pc[k.sched.cur] == Sweeping(c))
  }

  /** The first leaves when the line is served; otherwise nobody leaves, and newcomers go to the end. */
  predicate Advances(l: seq<Tid>, served: bool, l': seq<Tid>) {
    if served then l' == (if l == [] then [] else l[1..]) else l <= l'
  }

  lemma TestLine(k: Kernel, s: SemaId, next: Next, l: ListId)
    requires s in k.semas && !l.ReadyList?
    ensures Advances(Line(k, l), false, Line(Test(k, s, next), l))
  {
    hide S.Block;
  }

  lemma TakeLine(k: Kernel, s: SemaId, next: Next, l: ListId)
    requires s in k.semas && k.semas[s].value > 0 && !l.ReadyList?
    ensures Advances(Line(k, l), false, Line(Take(k, s, next), l))
  {}

  lemma RaiseLine(k: Kernel, s: SemaId, p: Pc, l: ListId)
    requires s in k.semas && !l.ReadyList?
    ensures Advances(Line(k, l), l == WaitersOf(s), Line(Raise(k, s, p), l))
  {
    hide WakeFirst;
  }

  lemma SemaLine(k: Kernel, a: SemaAct, l: ListId)
    requires SemaEnabled(k, a) && k.sched.cur in k.pc && !l.ReadyList?
    ensures Advances(Line(k, l), Serves(k, OnSema(a), l), Line(DoSema(k, a), l))
  {
    hide Test, Take, Raise, Advances;
    match a
    case Retest => TestLine(k, k.pc[k.sched.cur].s, k.pc[k.sched.cur].next, l);
    case SemaDown(s) => TestLine(k, s, Return, l);
    case TryDown(s) => TakeLine(k, s, Return, l);
    case Up(s) => RaiseLine(k, s, k.pc[k.sched.cur], l);
    case IntrUp(s) => RaiseLine(k, s, k.pc[k.sched.cur], l);
    case IntrTryDown(s) => HandlerLine(k, s, l);
  }

  lemma HandlerLine(k: Kernel, s: SemaId, l: ListId)
    requires s in k.semas && k.semas[s].value > 0 && !l.ReadyList?
    ensures Advances(Line(k, l), false, Line(TakeInHandler(k, s), l))
  {}

  lemma LockLine(k: Kernel, a: LockAct, l: ListId)
    requires LockEnabled(k, a) && k.sched.cur in k.pc && !l.ReadyList?
    ensures Advances(Line(k, l), Serves(k, OnLock(a), l), Line(DoLock(k, a), l))
  {
    hide Test, Raise;
    match a
    case Acquire(m) => TestLine(k, OfLock(m), Hold(m), l);
    case TryAcquire(m) => TakeLine(k, OfLock(m), Hold(m), l);
    case ReleaseUp => RaiseLine(k, OfLock(k.pc[k.sched.cur].l), AfterRelease(k.pc[k.sched.cur].after), l);
    case _ =>
  }

  /** Nobody else ever waits on a thread's own semaphore. */
  lemma OwnSleeper(k: Kernel, t: Tid, w: Tid)
    requires Inv(k) && OfWaiter(t) in k.semas && w in k.semas[OfWaiter(t)].waiters
    ensures w == t && InDown(k, t, OfWaiter(t))
  {
    hide Counts, Locks, Signals, S.Ok, NoDuplicates;
    assert InDown(k, w, OfWaiter(t)) && Placed(k, w);
  }

  lemma OwnLineEmpty(k: Kernel)
    requires Inv(k) && k.sched.cur in k.pc && k.pc[k.sched.cur].Run? && OfWaiter(k.sched.cur) in k.semas
    ensures k.semas[OfWaiter(k.sched.cur)].waiters == []
  {
    hide Inv;
    if k.semas[OfWaiter(k.sched.cur)].waiters != [] { OwnSleeper(k, k.sched.cur, k.semas[OfWaiter(k.sched.cur)].waiters[0]); }
  }

  lemma EnqueueLine(k: Kernel, c: nat, l: ListId)
    requires c in k.conds && !l.ReadyList? && (OfWaiter(k.sched.cur) in k.semas ==> k.semas[OfWaiter(k.sched.cur)].waiters == [])
    ensures Advances(Line(k, l), false, Line(Enqueue(k, c), l))
  {}

  lemma WaitLine(k: Kernel, a: WaitAct, l: ListId)
    requires Inv(k) && WaitEnabled(k, a) && !l.ReadyList?
    ensures Advances(Line(k, l), Serves(k, OnWait(a), l), Line(DoWait(k, a), l))
  {
    hide Inv, Test, Enqueue, Advances;
    var me := k.sched.cur;
    match a
    case Wait(c) =>
      if OfWaiter(me) in k.semas { OwnLineEmpty(k); }
      EnqueueLine(k, c, l);
    case WaitDown => TestLine(k, OfWaiter(me), Rejoin(k.pc[me].c), l);
    case WaitAcquire => TestLine(k, OfLock(k.lockOf[k.pc[me].c]), Hold(k.lockOf[k.pc[me].c]), l);
    case WaitRelease => ClearLine(k, k.lockOf[k.pc[me].c], Await(k.pc[me].c), l);
  }

  lemma ClearLine(k: Kernel, m: nat, after: After, l: ListId)
    requires !l.ReadyList?
    ensures Advances(Line(k, l), false, Line(Clear(k, m, after), l))
  {}

  lemma SignalLine(k: Kernel, a: SignalAct, l: ListId)
    requires SignalEnabled(k, a) && k.sched.cur in k.pc && !l.ReadyList?
    ensures Advances(Line(k, l), Serves(k, OnSignal(a), l), Line(DoSignal(k, a), l))
  {
    hide Raise;
    if a.SignalUp? { RaiseLine(k, OfWaiter(k.pc[k.sched.cur].w), AfterSignal(k.pc[k.sched.cur].c, k.pc[k.sched.cur].more), l); }
  }

  lemma ThreadLine(k: Kernel, a: ThreadAct, l: ListId)
    requires ThreadEnabled(k, a) && !l.ReadyList?
    ensures Line(DoThread(k, a), l) == Line(k, l)
  {
    hide S.Tick, S.Yield, S.Block, S.Exit;
  }

  lemma LineStep(k: Kernel, a: Act, l: ListId)
    requires Inv(k) && Enabled(k, a) && !l.ReadyList?
    ensures Advances(Line(k, l), Serves(k, a, l), Line(Do(k, a), l))
  {
    Here(k);
    hide Inv, DoThread, DoSema, DoLock, DoWait, DoSignal, ThreadEnabled, SemaEnabled, LockEnabled, WaitEnabled, SignalEnabled, Line;
    match a
    case OnThread(x) => ThreadLine(k, x, l);
    case OnSema(x) => SemaLine(k, x, l);
    case OnLock(x) => LockLine(k, x, l);
    case OnWait(x) => WaitLine(k, x, l);
    case OnSignal(x) => SignalLine(k, x, l);
  }

  /** How often the line was served. */
  ghost function Served(states: seq<Kernel>, acts: seq<Act>, l: ListId, i: nat, j: nat): nat
    requires i <= j <= |acts| <= |states|
  {
    if i == j then 0 else Served(states, acts, l, i, j - 1) + if Serves(states[j - 1], acts[j - 1], l) then 1 else 0
  }

  /** A thread stays in line until those before it have been served, and moves up one place each time. */
  lemma {:induction false} InTurn(states: seq<Kernel>, acts: seq<Act>, l: ListId, p: nat, i: nat, j: nat)
    requires IsRun(states, acts) && i <= j < |states| && !l.ReadyList? && p < |Line(states[i], l)| && Served(states, acts, l, i, j) <= p
    ensures var q := p - Served(states, acts, l, i, j); q < |Line(states[j], l)| && Line(states[j], l)[q] == Line(states[i], l)[p]
  {
    hide Inv, Initial, Enabled, Do, Line, Serves;
    if i < j {
      InTurn(states, acts, l, p, i, j - 1);
      StepAt(states, acts, j - 1);
      LineStep(states[j - 1], acts[j - 1], l);
    }
  }

  /** When the line has been served once more than there were threads before it, a thread has left it, at its own turn. */
  lemma {:induction false} TurnComes(states: seq<Kernel>, acts: seq<Act>, l: ListId, p: nat, i: nat, j: nat) returns (n: nat)
    requires IsRun(states, acts) && i <= j < |states| && !l.ReadyList? && p < |Line(states[i], l)| && Served(states, acts, l, i, j) > p
    ensures i <= n < j && Served(states, acts, l, i, n) == p && Serves(states[n], acts[n], l)
    ensures Line(states[n], l) != [] && Line(states[n], l)[0] == Line(states[i], l)[p] && Line(states[n + 1], l) == Line(states[n], l)[1..]
  {
    hide Inv, Initial, Enabled, Do, Line, Serves;
    if Served(states, acts, l, i, j - 1) > p {
      n := TurnComes(states, acts, l, p, i, j - 1);
    } else {
      n := j - 1;
      InTurn(states, acts, l, p, i, n);
      StepAt(states, acts, n);
      LineStep(states[n], acts[n], l);
    }
  }
}
