/**
 * Semaphores, locks and condition variables (threads/synch.c) over the
 * scheduler, as a machine whose steps are the stretches of code that an
 * interrupt cannot split. A thread can be preempted between any two
 * steps, in particular between sema_down and the assignment of a lock's
 * holder, and between cond_wait's release and its sema_down.
 */
module Kernel {
  import opened Options
  import opened Sequences
  import S = Sched

  type Tid = S.Tid

  /** A semaphore by itself, the one inside a lock, or the one on a waiter's stack. */
  datatype SemaId = Plain(n: nat) | OfLock(l: nat) | OfWaiter(t: Tid)

  /** value and waiters are the semaphore; the rest records its history. */
  datatype Sema = Sema(value: nat, waiters: seq<Tid>, woken: set<Tid>, init: nat, ups: nat, downs: nat)

  /** What follows a sema_down, and what follows a lock_release. */
  datatype Next = Return | Hold(l: nat) | Rejoin(c: nat)
  datatype After = Finish | Await(c: nat)

  /** Where a thread is in the code of this file; a thread elsewhere is at Run. */
  datatype Pc =
    | Embryo                                  // made by thread_create, not yet unblocked
    | Run
    | Making(n: Tid)                          // thread_create: before thread_unblock
    | Down(s: SemaId, next: Next)             // sema_down: blocked, or woken and about to test again
    | Won(l: nat)                             // lock_acquire: after sema_down, before the holder is set
    | Dropped(l: nat, after: After)           // lock_release: after the holder is cleared, before sema_up
    | Queued(c: nat)                          // cond_wait: before lock_release
    | Unlocked(c: nat)                        // cond_wait: before sema_down
    | Signalled(c: nat)                       // cond_wait: before lock_acquire
    | Popped(w: Tid, c: nat, more: bool)      // cond_signal: before sema_up
    | Sweeping(c: nat)                        // cond_broadcast: at the loop test

  /** Where the signal for a thread in cond_wait is. */
  datatype Token = NoToken | OnList(c: nat) | InHand(p: Tid) | Delivered

  /** owner, token and maker record history. */
  datatype Kernel = Kernel(
    sched: S.State, pc: map<Tid, Pc>, semas: map<SemaId, Sema>,
    holder: map<nat, Option<Tid>>, conds: map<nat, seq<Tid>>, lockOf: map<nat, nat>,
    owner: map<nat, Option<Tid>>, token: map<Tid, Token>, maker: map<Tid, Tid>)

  datatype ThreadAct = Create(n: Tid) | Start | Exit | Yield | Tick | IdleBlock
  datatype SemaAct = SemaDown(s: SemaId) | Retest | TryDown(s: SemaId) | Up(s: SemaId) | IntrUp(s: SemaId) | IntrTryDown(s: SemaId)
  datatype LockAct = Acquire(l: nat) | TryAcquire(l: nat) | SetHolder | Release(l: nat) | ReleaseUp
  datatype WaitAct = Wait(c: nat) | WaitRelease | WaitDown | WaitAcquire
  datatype SignalAct = Signal(c: nat) | SignalUp | Broadcast(c: nat) | Sweep
  datatype Act = OnThread(t: ThreadAct) | OnSema(s: SemaAct) | OnLock(l: LockAct) | OnWait(w: WaitAct) | OnSignal(g: SignalAct)

  // ------------------------------------------------------------------ steps

  function At(k: Kernel, p: Pc): Kernel { k.(pc := k.pc[k.sched.cur := p]) }

  function Resume(next: Next): Pc {
    match next
    case Return => Run
    case Hold(l) => Won(l)
    case Rejoin(c) => Signalled(c)
  }

  function AfterRelease(after: After): Pc { if after.Finish? then Run else Unlocked(after.c) }

  function AfterSignal(c: nat, more: bool): Pc { if more then Sweeping(c) else Run }

  /** The semaphore is positive, and the current thread decrements it. */
  function Take(k: Kernel, s: SemaId, next: Next): (k': Kernel)
    requires s in k.semas && k.semas[s].value > 0
    ensures k'.holder == k.holder && k'.conds == k.conds && k'.lockOf == k.lockOf && k'.maker == k.maker && k'.sched == k.sched
  {
    var z := k.semas[s];
    var me := k.sched.cur;
    At(k, Resume(next)).(
      semas := k.semas[s := z.(value := z.value - 1, downs := z.downs + 1, woken := z.woken - {me})],
      owner := if s.OfLock? then k.owner[s.l := Some(me)] else k.owner,
      token := if s.OfWaiter? then k.token[s.t := NoToken] else k.token)
  }

  /** sema_try_down by an interrupt handler. */
  function TakeInHandler(k: Kernel, s: SemaId): Kernel
    requires s in k.semas && k.semas[s].value > 0
  {
    k.(semas := k.semas[s := k.semas[s].(value := k.semas[s].value - 1, downs := k.semas[s].downs + 1)])
  }

  /** The semaphore is zero, and the current thread joins its waiters. */
  function Sleep(k: Kernel, s: SemaId, next: Next): (k': Kernel)
    requires s in k.semas
    ensures k'.holder == k.holder && k'.conds == k.conds && k'.lockOf == k.lockOf && k'.maker == k.maker && k'.token == k.token
  {
    var z := k.semas[s];
    var me := k.sched.cur;
    At(k, Down(s, next)).(
      semas := k.semas[s := z.(waiters := z.waiters + [me], woken := z.woken - {me})],
      sched := S.Block(k.sched))
  }

  /** One test of sema_down's loop, with what follows it. */
  function Test(k: Kernel, s: SemaId, next: Next): (k': Kernel)
    requires s in k.semas
    ensures k'.holder == k.holder && k'.conds == k.conds && k'.lockOf == k.lockOf && k'.maker == k.maker
  {
    if k.semas[s].value == 0 then Sleep(k, s, next) else Take(k, s, next)
  }

  function Raised(z: Sema): Sema {
    if z.waiters == [] then z.(value := z.value + 1, ups := z.ups + 1)
    else z.(value := z.value + 1, ups := z.ups + 1, waiters := z.waiters[1..], woken := z.woken + {z.waiters[0]})
  }

  function WakeFirst(sched: S.State, z: Sema): S.State {
    if z.waiters == [] then sched else S.Unblock(sched, z.waiters[0])
  }

  /** sema_up; the current thread goes on at p. */
  function Raise(k: Kernel, s: SemaId, p: Pc): (k': Kernel)
    requires s in k.semas
    ensures k'.holder == k.holder && k'.conds == k.conds && k'.lockOf == k.lockOf && k'.maker == k.maker
  {
    k.(pc := k.pc[k.sched.cur := p],
       semas := k.semas[s := Raised(k.semas[s])],
       sched := WakeFirst(k.sched, k.semas[s]),
       owner := if s.OfLock? then k.owner[s.l := None] else k.owner,
       token := if s.OfWaiter? then k.token[s.t := Delivered] else k.token)
  }

  /** list_pop_front of a condition's waiters. */
  function Pop(k: Kernel, c: nat, more: bool): Kernel
    requires c in k.conds && k.conds[c] != []
  {
    var w := k.conds[c][0];
    At(k, Popped(w, c, more)).(conds := k.conds[c := k.conds[c][1..]], token := k.token[w := InHand(k.sched.cur)])
  }

  /** lock_acquire's assignment to the holder, and lock_release's. */
  function Claim(k: Kernel, l: nat): Kernel { At(k, Run).(holder := k.holder[l := Some(k.sched.cur)]) }

  function Clear(k: Kernel, l: nat, after: After): Kernel { At(k, Dropped(l, after)).(holder := k.holder[l := None]) }

  /** cond_wait up to its lock_release. */
  function Enqueue(k: Kernel, c: nat): Kernel
    requires c in k.conds
  {
    At(k, Queued(c)).(
      semas := k.semas[OfWaiter(k.sched.cur) := Sema(0, [], {}, 0, 0, 0)],
      conds := k.conds[c := k.conds[c] + [k.sched.cur]],
      token := k.token[k.sched.cur := OnList(c)])
  }

  /** thread_create up to its thread_unblock, and the rest. */
  function Conceive(k: Kernel, n: Tid): Kernel {
    k.(sched := S.Spawn(k.sched, n), pc := k.pc[k.sched.cur := Making(n)][n := Embryo],
       token := k.token[n := NoToken], maker := k.maker[n := k.sched.cur])
  }

  function Launch(k: Kernel, n: Tid): Kernel {
    k.(sched := S.Unblock(k.sched, n), pc := k.pc[k.sched.cur := Run][n := Run])
  }

  predicate Holds(k: Kernel, l: nat) { l in k.holder && k.holder[l] == Some(k.sched.cur) }

  /** The current thread calls an operation, being in none; only the idle thread never does. */
  predicate Calls(k: Kernel) { Current(k) && k.sched.cur in k.pc && k.pc[k.sched.cur].Run? && k.sched.cur != k.sched.idle }

  predicate Current(k: Kernel) { k.sched.cur in k.sched.status && k.sched.status[k.sched.cur] == S.Running }

  /** A woken thread runs with interrupts off until it has tested its semaphore again. */
  predicate Interruptible(k: Kernel) { k.sched.cur in k.pc && !k.pc[k.sched.cur].Down? }

  // What the source demands of a caller, or where the current thread must be.

  predicate ThreadEnabled(k: Kernel, a: ThreadAct) {
    match a
    case Tick => Interruptible(k)
    case Yield => Interruptible(k)
    case IdleBlock => k.sched.cur in k.pc && k.sched.cur == k.sched.idle
    case Create(n) => Calls(k) && n !in k.pc
    case Start => k.sched.cur in k.pc && k.pc[k.sched.cur].Making?
    case Exit => Calls(k)
  }

  predicate SemaEnabled(k: Kernel, a: SemaAct) {
    match a
    case IntrUp(s) => Interruptible(k) && s.Plain? && s in k.semas
    case IntrTryDown(s) => Interruptible(k) && s.Plain? && s in k.semas && k.semas[s].value > 0
    case Retest => k.sched.cur in k.pc && k.pc[k.sched.cur].Down? && k.pc[k.sched.cur].s in k.semas
    case SemaDown(s) => Calls(k) && s.Plain? && s in k.semas
    case TryDown(s) => Calls(k) && s.Plain? && s in k.semas && k.semas[s].value > 0
    case Up(s) => Calls(k) && s.Plain? && s in k.semas
  }

  predicate LockEnabled(k: Kernel, a: LockAct) {
    match a
    case Acquire(l) => Calls(k) && l in k.holder && !Holds(k, l) && OfLock(l) in k.semas
    case TryAcquire(l) => Calls(k) && l in k.holder && !Holds(k, l) && OfLock(l) in k.semas && k.semas[OfLock(l)].value > 0
    case SetHolder => k.sched.cur in k.pc && k.pc[k.sched.cur].Won?
    case Release(l) => Calls(k) && Holds(k, l)
    case ReleaseUp => k.sched.cur in k.pc && k.pc[k.sched.cur].Dropped? && OfLock(k.pc[k.sched.cur].l) in k.semas
  }

  predicate WaitEnabled(k: Kernel, a: WaitAct) {
    match a
    case Wait(c) => Calls(k) && HeldFor(k, k.sched.cur, c)
    case WaitRelease => k.sched.cur in k.pc && k.pc[k.sched.cur].Queued? && k.pc[k.sched.cur].c in k.lockOf
    case WaitDown => k.sched.cur in k.pc && k.pc[k.sched.cur].Unlocked? && OfWaiter(k.sched.cur) in k.semas
    case WaitAcquire =>
      && k.sched.cur in k.pc && k.pc[k.sched.cur].Signalled?
      && k.pc[k.sched.cur].c in k.lockOf && OfLock(k.lockOf[k.pc[k.sched.cur].c]) in k.semas
  }

  predicate SignalEnabled(k: Kernel, a: SignalAct) {
    match a
    case Signal(c) => Calls(k) && HeldFor(k, k.sched.cur, c) && k.conds[c] != []
    case SignalUp => k.sched.cur in k.pc && k.pc[k.sched.cur].Popped? && OfWaiter(k.pc[k.sched.cur].w) in k.semas
    case Broadcast(c) => Calls(k) && c in k.conds && (k.conds[c] == [] || HeldFor(k, k.sched.cur, c))  // asserted by cond_signal, for a waiter
    case Sweep => k.sched.cur in k.pc && k.pc[k.sched.cur].Sweeping? && k.pc[k.sched.cur].c in k.conds
  }

  predicate Enabled(k: Kernel, a: Act) {
    match a
    case OnThread(t) => ThreadEnabled(k, t)
    case OnSema(s) => SemaEnabled(k, s)
    case OnLock(l) => LockEnabled(k, l)
    case OnWait(w) => WaitEnabled(k, w)
    case OnSignal(g) => SignalEnabled(k, g)
  }

  function DoThread(k: Kernel, a: ThreadAct): Kernel
    requires ThreadEnabled(k, a)
  {
    match a
    case Tick => k.(sched := S.Tick(k.sched))
    case Yield => k.(sched := S.Yield(k.sched))
    case IdleBlock => k.(sched := S.Block(k.sched))
    case Exit => k.(sched := S.Exit(k.sched))
    case Create(n) => Conceive(k, n)
    case Start => Launch(k, k.pc[k.sched.cur].n)
  }

  function DoSema(k: Kernel, a: SemaAct): Kernel
    requires SemaEnabled(k, a)
  {
    var p := k.pc[k.sched.cur];
    match a
    case IntrUp(s) => Raise(k, s, p)
    case Up(s) => Raise(k, s, p)
    case IntrTryDown(s) => TakeInHandler(k, s)
    case Retest => Test(k, p.s, p.next)
    case SemaDown(s) => Test(k, s, Return)
    case TryDown(s) => Take(k, s, Return)
  }

  function DoLock(k: Kernel, a: LockAct): Kernel
    requires LockEnabled(k, a)
  {
    var p := k.pc[k.sched.cur];
    match a
    case Acquire(l) => Test(k, OfLock(l), Hold(l))
    case TryAcquire(l) => Take(k, OfLock(l), Hold(l))
    case SetHolder => Claim(k, p.l)
    case Release(l) => Clear(k, l, Finish)
    case ReleaseUp => Raise(k, OfLock(p.l), AfterRelease(p.after))
  }

  function DoWait(k: Kernel, a: WaitAct): Kernel
    requires WaitEnabled(k, a)
  {
    var p := k.pc[k.sched.cur];
    match a
    case Wait(c) => Enqueue(k, c)
    case WaitRelease => Clear(k, k.lockOf[p.c], Await(p.c))
    case WaitDown => Test(k, OfWaiter(k.sched.cur), Rejoin(p.c))
    case WaitAcquire => Test(k, OfLock(k.lockOf[p.c]), Hold(k.lockOf[p.c]))
  }

  function DoSignal(k: Kernel, a: SignalAct): Kernel
    requires SignalEnabled(k, a)
  {
    var p := k.pc[k.sched.cur];
    match a
    case Signal(c) => Pop(k, c, false)
    case SignalUp => Raise(k, OfWaiter(p.w), AfterSignal(p.c, p.more))
    case Broadcast(c) => if HeldFor(k, k.sched.cur, c) then At(k, Sweeping(c)) else k
    case Sweep => if k.conds[p.c] == [] then At(k, Run) else Pop(k, p.c, true)
  }

  function Do(k: Kernel, a: Act): Kernel
    requires Enabled(k, a)
  {
    match a
    case OnThread(t) => DoThread(k, t)
    case OnSema(s) => DoSema(k, s)
    case OnLock(l) => DoLock(k, l)
    case OnWait(w) => DoWait(k, w)
    case OnSignal(g) => DoSignal(k, g)
  }

  // The scheduler's part of a step.

  function ThreadEvent(k: Kernel, a: ThreadAct): S.Event
    requires ThreadEnabled(k, a)
  {
    match a
    case Tick => S.Ticks
    case Yield => S.Yields
    case IdleBlock => S.Blocks
    case Exit => S.Exits
    case Create(n) => S.Spawns(n)
    case Start => S.Unblocks(k.pc[k.sched.cur].n)
  }

  function SemaEvent(k: Kernel, a: SemaAct): S.Event
    requires SemaEnabled(k, a)
  {
    match a
    case Retest => TestEvent(k, k.pc[k.sched.cur].s)
    case SemaDown(s) => TestEvent(k, s)
    case Up(s) => RaiseEvent(k, s)
    case IntrUp(s) => RaiseEvent(k, s)
    case _ => S.Other
  }

  function LockEvent(k: Kernel, a: LockAct): S.Event
    requires LockEnabled(k, a)
  {
    match a
    case Acquire(l) => TestEvent(k, OfLock(l))
    case ReleaseUp => RaiseEvent(k, OfLock(k.pc[k.sched.cur].l))
    case _ => S.Other
  }

  function WaitEvent(k: Kernel, a: WaitAct): S.Event
    requires WaitEnabled(k, a)
  {
    match a
    case WaitDown => TestEvent(k, OfWaiter(k.sched.cur))
    case WaitAcquire => TestEvent(k, OfLock(k.lockOf[k.pc[k.sched.cur].c]))
    case _ => S.Other
  }

  function SignalEvent(k: Kernel, a: SignalAct): S.Event
    requires SignalEnabled(k, a)
  {
    match a
    case SignalUp => RaiseEvent(k, OfWaiter(k.pc[k.sched.cur].w))
    case _ => S.Other
  }

  function EventOf(k: Kernel, a: Act): S.Event
    requires Enabled(k, a)
  {
    match a
    case OnThread(t) => ThreadEvent(k, t)
    case OnSema(s) => SemaEvent(k, s)
    case OnLock(l) => LockEvent(k, l)
    case OnWait(w) => WaitEvent(k, w)
    case OnSignal(g) => SignalEvent(k, g)
  }

  function TestEvent(k: Kernel, s: SemaId): S.Event
    requires s in k.semas
  {
    if k.semas[s].value == 0 then S.Blocks else S.Other
  }

  function RaiseEvent(k: Kernel, s: SemaId): S.Event
    requires s in k.semas
  {
    if k.semas[s].waiters == [] then S.Other else S.Unblocks(k.semas[s].waiters[0])
  }

  // -------------------------------------------------------------- invariants

  /** A thread sleeps on, or was woken from, the semaphore its place in the code says. */
  predicate InDown(k: Kernel, t: Tid, s: SemaId) { t in k.pc && k.pc[t].Down? && k.pc[t].s == s }

  ghost predicate Lists(k: Kernel) {
    && k.pc.Keys == k.sched.status.Keys == k.token.Keys
    && k.sched.idle in k.pc && k.pc[k.sched.idle].Run?
    && (forall s :: s in k.semas ==> NoDuplicates(k.semas[s].waiters))
    && (forall s, t :: s in k.semas ==>
          (t in k.semas[s].waiters <==> InDown(k, t, s) && k.sched.status[t] == S.Blocked))
    && (forall s, t :: s in k.semas ==>
          (t in k.semas[s].woken <==> InDown(k, t, s) && k.sched.status[t] != S.Blocked))
    && (forall t :: t in k.pc && k.sched.status[t] == S.Blocked ==> t == k.sched.idle || k.pc[t].Down? || k.pc[t].Embryo?)
    && (forall t :: t in k.pc && k.pc[t].Embryo? ==> k.sched.status[t] == S.Blocked)
    && (forall t :: t in k.pc && k.sched.status[t] == S.Dying ==> k.pc[t].Run?)
  }

  /** Every down is paid for, and while threads wait each unit of value is promised to a woken one. */
  ghost predicate Counted(z: Sema) {
    z.value + z.downs == z.init + z.ups && (z.waiters != [] ==> z.value <= |z.woken|)
  }

  ghost predicate Counts(k: Kernel) {
    forall s :: s in k.semas ==> Counted(k.semas[s])
  }

  /** The thread is between its sema_down and its sema_up on the lock. */
  predicate Inside(k: Kernel, t: Tid, l: nat) {
    && t in k.pc && l in k.holder
    && (k.holder[l] == Some(t) || k.pc[t] == Won(l) || (k.pc[t].Dropped? && k.pc[t].l == l))
  }

  ghost predicate Locks(k: Kernel) {
    && k.owner.Keys == k.holder.Keys
    && (forall l :: l in k.holder ==> OfLock(l) in k.semas && k.semas[OfLock(l)].value == if k.owner[l].None? then 1 else 0)
    && (forall l, t: Tid :: l in k.holder ==> (Inside(k, t, l) <==> k.owner[l] == Some(t)))
    && (forall l :: l in k.holder && k.holder[l].Some? ==> k.holder[l].value in k.pc)
  }

  /** The thread is in cond_wait and has not taken its signal. */
  predicate Waiting(p: Pc, t: Tid) {
    p.Queued? || p.Unlocked? || (p.Dropped? && p.after.Await?) || (p.Down? && p.s == OfWaiter(t))
  }

  function WaitsOn(p: Pc, t: Tid): Option<nat> {
    match p
    case Queued(c) => Some(c)
    case Unlocked(c) => Some(c)
    case Dropped(_, Await(c)) => Some(c)
    case Down(OfWaiter(u), Rejoin(c)) => if u == t then Some(c) else None
    case _ => None
  }

  ghost predicate Queues(k: Kernel) {
    && (forall c :: c in k.conds ==> NoDuplicates(k.conds[c]))
    && (forall c, w :: c in k.conds ==> (w in k.conds[c] <==> w in k.token && k.token[w] == OnList(c)))
  }

  ghost predicate Hands(k: Kernel) {
    && (forall p :: p in k.pc && k.pc[p].Popped? ==> k.pc[p].w in k.token && k.token[k.pc[p].w] == InHand(p))
    && (forall w :: w in k.token && k.token[w].InHand? ==>
          k.token[w].p in k.pc && k.pc[k.token[w].p].Popped? && k.pc[k.token[w].p].w == w)
  }

  ghost predicate Sent(k: Kernel, w: Tid) {
    w in k.token && w in k.pc ==>
      && (k.token[w].OnList? ==> k.token[w].c in k.conds && WaitsOn(k.pc[w], w) == Some(k.token[w].c))
      && (k.token[w] != NoToken <==> Waiting(k.pc[w], w))
      && (k.token[w] != NoToken ==>
            OfWaiter(w) in k.semas && k.semas[OfWaiter(w)].value == if k.token[w].Delivered? then 1 else 0)
  }

  /** Each thread in cond_wait has exactly one signal, on the list, in a signaller's hand or delivered. */
  ghost predicate Signals(k: Kernel) {
    Queues(k) && Hands(k) && forall w :: w in k.token ==> Sent(k, w)
  }

  /** The thread holds the lock of a condition, or does not. */
  predicate HeldFor(k: Kernel, t: Tid, c: nat) {
    c in k.conds && c in k.lockOf && k.lockOf[c] in k.holder && k.holder[k.lockOf[c]] == Some(t)
  }

  predicate FreeFor(k: Kernel, t: Tid, c: nat) {
    c in k.conds && c in k.lockOf && k.lockOf[c] in k.holder && k.holder[k.lockOf[c]] != Some(t)
  }

  /** What each place in the code knows. */
  predicate Placed(k: Kernel, t: Tid)
    requires t in k.pc
  {
    match k.pc[t]
    case Embryo | Run => true
    case Making(n) => n in k.pc && k.pc[n].Embryo? && n in k.maker && k.maker[n] == t
    case Down(s, next) =>
      && s in k.semas
      && (match next
          case Return => s.Plain?
          case Hold(l) => s == OfLock(l) && l in k.holder && k.holder[l] != Some(t)
          case Rejoin(c) => s == OfWaiter(t) && FreeFor(k, t, c))
    case Won(l) => l in k.holder && k.holder[l] == None
    case Dropped(l, after) =>
      l in k.holder && k.holder[l] == None && (after.Await? ==> FreeFor(k, t, after.c) && k.lockOf[after.c] == l)
    case Queued(c) => HeldFor(k, t, c)
    case Unlocked(c) => FreeFor(k, t, c)
    case Signalled(c) => FreeFor(k, t, c)
    case Popped(_, c, _) => HeldFor(k, t, c)
    case Sweeping(c) => HeldFor(k, t, c)
  }

  ghost predicate Places(k: Kernel) {
    && k.conds.Keys == k.lockOf.Keys
    && (forall c :: c in k.conds ==> k.lockOf[c] in k.holder)
    && (forall t :: t in k.pc ==> Placed(k, t))
  }

  ghost predicate Inv(k: Kernel) {
    S.Ok(k.sched) && Lists(k) && Counts(k) && Locks(k) && Signals(k) && Places(k)
  }
}
