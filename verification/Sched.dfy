/**
 * The thread scheduler (threads/thread.c). Interrupts are off inside
 * every operation here, so each is one step; switch_threads is the
 * change of cur. The kernel has started: the idle thread exists.
 */
module Sched {
  import opened Sequences

  type Tid = nat

  const TIME_SLICE := 4

  datatype Status = Running | Ready | Blocked | Dying

  /** A snapshot of the scheduler. freed holds the threads whose page was given back. */
  datatype State = State(
    cur: Tid, idle: Tid, initial: Tid, ready: seq<Tid>, status: map<Tid, Status>, ticks: nat, freed: set<Tid>)

  ghost predicate Ok(s: State) {
    && s.cur in s.status && s.idle in s.status
    && (forall t :: t in s.status ==> (s.status[t] == Running <==> t == s.cur))
    && (forall t :: t in s.ready <==> t in s.status && t != s.idle && s.status[t] == Ready)
    && NoDuplicates(s.ready)
    && s.status[s.idle] != Dying
    && (forall t :: t in s.freed <==> t in s.status && s.status[t] == Dying && t != s.initial)
    && s.ticks < TIME_SLICE
  }

  // ---------------------------------------------------- what each operation does

  /** schedule and thread_schedule_tail, once cur has left the running state. */
  function Switch(s: State): State
    requires s.cur in s.status
  {
    var next := if s.ready == [] then s.idle else s.ready[0];
    s.(cur := next,
       ready := if s.ready == [] then [] else s.ready[1..],
       status := s.status[next := Running],
       ticks := 0,
       freed := if next != s.cur && s.status[s.cur] == Dying && s.cur != s.initial then s.freed + {s.cur} else s.freed)
  }

  function Block(s: State): State { Switch(s.(status := s.status[s.cur := Blocked])) }

  function Yield(s: State): State {
    Switch(s.(ready := if s.cur != s.idle then s.ready + [s.cur] else s.ready, status := s.status[s.cur := Ready]))
  }

  function Exit(s: State): State { Switch(s.(status := s.status[s.cur := Dying])) }

  function Unblock(s: State, t: Tid): State { s.(ready := s.ready + [t], status := s.status[t := Ready]) }

  /** init_thread, for a page that held no thread. */
  function Spawn(s: State, t: Tid): State { s.(status := s.status[t := Blocked]) }

  /** A timer interrupt: thread_tick, then the yield it may have asked for. */
  function Tick(s: State): State {
    if s.ticks + 1 >= TIME_SLICE then Yield(s.(ticks := s.ticks + 1)) else s.(ticks := s.ticks + 1)
  }

  datatype Event = Blocks | Yields | Exits | Unblocks(t: Tid) | Spawns(t: Tid) | Ticks | Other

  predicate Allowed(s: State, e: Event) {
    match e
    case Exits => s.cur != s.idle
    case Unblocks(t) => t in s.status && s.status[t] == Blocked && t != s.idle
    case Spawns(t) => t !in s.status
    case _ => true
  }

  function Apply(s: State, e: Event): State {
    match e
    case Blocks => Block(s)
    case Yields => Yield(s)
    case Exits => Exit(s)
    case Unblocks(t) => Unblock(s, t)
    case Spawns(t) => Spawn(s, t)
    case Ticks => Tick(s)
    case Other => s
  }

  // ---------------------------------------------------------------- safety

  /** The thread that a switch is about to run is a live one that was not running. */
  ghost predicate Leaving(s: State) {
    && s.cur in s.status && s.idle in s.status && s.status[s.cur] != Running
    && (forall t :: t in s.status ==> s.status[t] != Running)
    && (forall t :: t in s.ready <==> t in s.status && t != s.idle && s.status[t] == Ready)
    && NoDuplicates(s.ready)
    && s.status[s.idle] != Dying
    && (forall t :: t in s.freed <==> t in s.status && s.status[t] == Dying && t != s.initial && t != s.cur)
  }

  lemma SwitchOk(s: State)
    requires Leaving(s)
    ensures Ok(Switch(s))
  {
    if s.ready != [] {
      var next := s.ready[0];
      assert next in s.ready;
      assert next !in s.ready[1..];
      forall t | t in s.ready && t != next ensures t in s.ready[1..] {
        var i :| 0 <= i < |s.ready| && s.ready[i] == t;
        assert s.ready[1..][i - 1] == t;
      }
      assert NoDuplicates(s.ready[1..]);
    }
  }

  lemma YieldOk(s: State)
    requires s.ticks <= TIME_SLICE && Ok(s.(ticks := 0))
    ensures Ok(Yield(s))
  {
    AppendKeeps(s.ready, s.cur);
    SwitchOk(s.(ready := if s.cur != s.idle then s.ready + [s.cur] else s.ready, status := s.status[s.cur := Ready]));
  }

  /** Every operation keeps the scheduler well formed. */
  lemma ApplyOk(s: State, e: Event)
    requires Ok(s) && Allowed(s, e)
    ensures Ok(Apply(s, e))
  {
    match e
    case Blocks => SwitchOk(s.(status := s.status[s.cur := Blocked]));
    case Yields => YieldOk(s);
    case Exits => SwitchOk(s.(status := s.status[s.cur := Dying]));
    case Unblocks(t) => AppendKeeps(s.ready, t);
    case Spawns(t) =>
    case Ticks => if s.ticks + 1 >= TIME_SLICE { YieldOk(s.(ticks := s.ticks + 1)); }
    case Other =>
  }

  /** A thread that is dying, or whose page is gone, stays so and is never run. */
  lemma DyingForever(s: State, e: Event, t: Tid)
    requires Ok(s) && Allowed(s, e) && t in s.status && s.status[t] == Dying
    ensures t in Apply(s, e).status && Apply(s, e).status[t] == Dying && Apply(s, e).cur != t
  {
    ApplyOk(s, e);
  }

  /** No call of schedule blocks, unblocks or ends a thread, but for the caller of thread_block or thread_exit. */
  lemma BlockedKept(s: State, e: Event)
    requires Ok(s) && !e.Unblocks? && !e.Spawns?
    ensures var s' := Apply(s, e);
      && s'.status.Keys == s.status.Keys && s'.idle == s.idle
      && forall t :: t in s.status && t != s.idle ==>
           && (s'.status[t] == Blocked <==> s.status[t] == Blocked || (e.Blocks? && t == s.cur))
           && (s'.status[t] == Dying ==> (s.status[t] == Dying && t != s.cur) || (e.Exits? && t == s.cur))
  {
    assert s.cur !in s.ready;
    assert s.ready != [] ==> s.ready[0] in s.ready;
  }

  // ---------------------------------------------------------------- runs

  ghost predicate IsRun(states: seq<State>, events: seq<Event>) {
    && |states| == |events| + 1 && Ok(states[0])
    && forall k :: 0 <= k < |events| ==> Allowed(states[k], events[k]) && states[k + 1] == Apply(states[k], events[k])
  }

  lemma {:induction false} RunOk(states: seq<State>, events: seq<Event>, k: nat)
    requires IsRun(states, events) && k < |states|
    ensures Ok(states[k])
  {
    if k > 0 {
      RunOk(states, events, k - 1);
      ApplyOk(states[k - 1], events[k - 1]);
    }
  }

  lemma {:induction false} NeverRunsAgain(states: seq<State>, events: seq<Event>, t: Tid, i: nat, j: nat)
    requires IsRun(states, events) && i <= j < |states| && t in states[i].status && states[i].status[t] == Dying
    ensures t in states[j].status && states[j].status[t] == Dying && states[j].cur != t
  {
    hide Ok, Apply, Allowed;
    RunOk(states, events, j);
    if i < j {
      NeverRunsAgain(states, events, t, i, j - 1);
      RunOk(states, events, j - 1);
      DyingForever(states[j - 1], events[j - 1], t);
    }
  }

  // ---------------------------------------------------------- bounded waiting

  predicate Waits(s: State, t: Tid, k: nat) { k < |s.ready| && s.ready[k] == t }

  /** The event calls schedule. */
  predicate Schedules(s: State, e: Event) {
    e.Blocks? || e.Yields? || e.Exits? || (e.Ticks? && s.ticks + 1 >= TIME_SLICE)
  }

  /** A call of schedule moves a waiting thread one place up, or runs it; nothing else moves it. */
  lemma PositionStep(s: State, e: Event, t: Tid, k: nat)
    requires Ok(s) && Allowed(s, e) && Waits(s, t, k)
    ensures !Schedules(s, e) ==> Waits(Apply(s, e), t, k)
    ensures Schedules(s, e) && k > 0 ==> Waits(Apply(s, e), t, k - 1)
    ensures Schedules(s, e) && k == 0 ==> Apply(s, e).cur == t
  {}

  ghost function ScheduleCalls(states: seq<State>, events: seq<Event>, i: nat, j: nat): nat
    requires i <= j <= |events| <= |states|
  {
    if i == j then 0 else ScheduleCalls(states, events, i, j - 1) + (if Schedules(states[j - 1], events[j - 1]) then 1 else 0)
  }

  ghost function TicksHandled(events: seq<Event>, i: nat, j: nat): nat
    requires i <= j <= |events|
  {
    if i == j then 0 else TicksHandled(events, i, j - 1) + (if events[j - 1].Ticks? then 1 else 0)
  }

  ghost predicate DispatchedWithin(states: seq<State>, t: Tid, i: nat, j: nat) {
    exists n :: i < n <= j < |states| && states[n].cur == t
  }

  /** Until it runs, a thread at place k has moved up once for each call of schedule. */
  lemma {:induction false} Position(states: seq<State>, events: seq<Event>, t: Tid, k: nat, i: nat, j: nat)
    requires IsRun(states, events) && i <= j < |states| && Waits(states[i], t, k) && !DispatchedWithin(states, t, i, j)
    ensures ScheduleCalls(states, events, i, j) <= k && Waits(states[j], t, k - ScheduleCalls(states, events, i, j))
  {
    hide Ok, Apply, Allowed;
    if i < j {
      assert !DispatchedWithin(states, t, i, j - 1) by {
        assert forall n :: i < n <= j - 1 ==> states[n].cur != t;
      }
      Position(states, events, t, k, i, j - 1);
      RunOk(states, events, j - 1);
      PositionStep(states[j - 1], events[j - 1], t, k - ScheduleCalls(states, events, i, j - 1));
      assert states[j].cur != t;
    }
  }

  /** A thread at place k of the ready list runs by the (k + 1)-th call of schedule. */
  lemma DispatchedBySchedule(states: seq<State>, events: seq<Event>, t: Tid, k: nat, i: nat, j: nat)
    requires IsRun(states, events) && i <= j < |states| && Waits(states[i], t, k)
    requires ScheduleCalls(states, events, i, j) > k
    ensures DispatchedWithin(states, t, i, j)
  {
    if !DispatchedWithin(states, t, i, j) { Position(states, events, t, k, i, j); }
  }

  /** Each handled tick brings a call of schedule nearer by one. */
  lemma {:induction false} TicksSchedule(states: seq<State>, events: seq<Event>, i: nat, j: nat)
    requires IsRun(states, events) && i <= j < |states|
    ensures TicksHandled(events, i, j) + states[i].ticks <= TIME_SLICE * ScheduleCalls(states, events, i, j) + states[j].ticks
    ensures states[j].ticks < TIME_SLICE
  {
    RunOk(states, events, j);
    if i < j {
      TicksSchedule(states, events, i, j - 1);
      RunOk(states, events, j - 1);
    }
  }

  /** ... and so within 4 (k + 1) handled timer ticks, whatever the other threads do. */
  lemma DispatchedByTicks(states: seq<State>, events: seq<Event>, t: Tid, k: nat, i: nat, j: nat)
    requires IsRun(states, events) && i <= j < |states| && Waits(states[i], t, k)
    requires TicksHandled(events, i, j) >= 4 * (k + 1)
    ensures DispatchedWithin(states, t, i, j)
  {
    TicksSchedule(states, events, i, j);
    DispatchedBySchedule(states, events, t, k, i, j);
  }

  /** The running thread gives up the processor by itself. */
  predicate GivesUp(e: Event) { e.Blocks? || e.Yields? || e.Exits? }

  /**
   * A thread that was switched to, and does not give up the processor,
   * runs on until the fourth timer tick, and is then sent to the end of
   * the ready list, behind all that wait; the idle thread is not.
   */
  lemma {:induction false} SliceKept(states: seq<State>, events: seq<Event>, i: nat, j: nat)
    requires IsRun(states, events) && 0 < i <= j < |states| && Schedules(states[i - 1], events[i - 1])
    requires forall m :: i <= m < j ==> !GivesUp(events[m])
    requires TicksHandled(events, i, j) <= 3
    ensures states[j].cur == states[i].cur && states[j].ticks == TicksHandled(events, i, j) && |states[i].ready| <= |states[j].ready|
    ensures j < |events| && events[j].Ticks? && TicksHandled(events, i, j) == 3 ==>
      var s, s' := states[j], states[j + 1];
      s'.ticks == 0 && [s'.cur] + s'.ready == if s.cur != s.idle then s.ready + [s.cur] else if s.ready == [] then [s.idle] else s.ready
  {
    assert states[i] == Apply(states[i - 1], events[i - 1]);
    if i < j {
      SliceKept(states, events, i, j - 1);
      assert states[j] == Apply(states[j - 1], events[j - 1]);
    }
    if j < |events| { assert states[j + 1] == Apply(states[j], events[j]); }
  }

  // ------------------------------------------------------------- thread.c

  class Scheduler {
    var cur: Tid
    const idle: Tid
    const initial: Tid
    var ready: seq<Tid>
    var status: map<Tid, Status>
    var ticks: nat
    var freed: set<Tid>

    ghost function Snap(): State
      reads this
    {
      State(cur, idle, initial, ready, status, ticks, freed)
    }

    ghost predicate Valid()
      reads this
    {
      Ok(Snap())
    }

    /** The kernel as thread_start leaves it: main runs, the idle thread has blocked. */
    constructor (main: Tid, idle: Tid)
      requires main != idle
      ensures Valid() && cur == main && this.idle == idle && ready == [] && status == map[main := Running, idle := Blocked]
    {
      cur, this.idle, initial := main, idle, main;
      ready, status, ticks, freed := [], map[main := Running, idle := Blocked], 0, {};
    }

    method NextThreadToRun() returns (next: Tid)
      modifies this`ready
      ensures old(ready) == [] ==> next == idle && ready == []
      ensures old(ready) != [] ==> [next] + ready == old(ready)
    {
      if ready == [] {
        return idle;
      } else {
        next := ready[0];
        ready := ready[1..];
      }
    }

    /** thread_schedule_tail, running as the new thread. */
    method ThreadScheduleTail(prev: Tid)
      requires prev in status
      modifies this`status, this`ticks, this`freed
      ensures status == old(status)[cur := Running] && ticks == 0
      ensures freed == if prev != cur && old(status)[prev] == Dying && prev != initial then old(freed) + {prev} else old(freed)
    {
      status := status[cur := Running];
      ticks := 0;
      if prev != cur && status[prev] == Dying && prev != initial {
        freed := freed + {prev};
      }
    }

    method Schedule()
      requires Leaving(Snap())
      modifies this
      ensures Snap() == Switch(old(Snap())) && Valid()
    {
      SwitchOk(Snap());
      var next := NextThreadToRun();
      var prev := cur;
      cur := next;
      ThreadScheduleTail(prev);
    }

    method ThreadBlock()
      requires Valid()
      modifies this
      ensures Snap() == Block(old(Snap())) && Valid()
    {
      status := status[cur := Blocked];
      Schedule();
    }

    method ThreadUnblock(t: Tid)
      requires Valid() && t in status && status[t] == Blocked && t != idle
      modifies this`ready, this`status
      ensures Snap() == Unblock(old(Snap()), t) && Valid()
    {
      ApplyOk(Snap(), Unblocks(t));
      ready := ready + [t];
      status := status[t := Ready];
    }

    method ThreadYield()
      requires ticks <= TIME_SLICE && Ok(Snap().(ticks := 0))
      modifies this
      ensures Snap() == Yield(old(Snap())) && Valid()
    {
      AppendKeeps(ready, cur);
      if cur != idle {
        ready := ready + [cur];
      }
      status := status[cur := Ready];
      Schedule();
    }

    method ThreadExit()
      requires Valid() && cur != idle
      modifies this
      ensures Snap() == Exit(old(Snap())) && Valid()
    {
      status := status[cur := Dying];
      Schedule();
    }

    method ThreadTick()
      requires Valid()
      modifies this
      ensures Snap() == Tick(old(Snap())) && Valid()
    {
      ticks := ticks + 1;
      if ticks >= TIME_SLICE {
        ThreadYield();
      }
    }

    /** init_thread, for a page that held no thread. */
    method InitThread(t: Tid)
      requires Valid() && t !in status
      modifies this`status
      ensures Snap() == Spawn(old(Snap()), t) && Valid()
    {
      ApplyOk(Snap(), Spawns(t));
      status := status[t := Blocked];
    }

    /** One event, if the assertions of the code let it be. */
    method Perform(e: Event)
      requires Valid() && Allowed(Snap(), e)
      modifies this
      ensures Valid() && Snap() == Apply(old(Snap()), e)
    {
      match e
      case Blocks => ThreadBlock();
      case Yields => ThreadYield();
      case Exits => ThreadExit();
      case Unblocks(t) => ThreadUnblock(t);
      case Spawns(t) => InitThread(t);
      case Ticks => ThreadTick();
      case Other =>
    }
  }

  /**
   * Any events, up to the first that an assertion of the code forbids: a
   * run from the scheduler's state to the one it is left in, through the
   * threads that ran.
   */
  method Play(s: Scheduler, events: seq<Event>) returns (n: nat, ran: seq<Tid>, ghost states: seq<State>)
    requires s.Valid()
    modifies s
    ensures s.Valid() && n <= |events| && IsRun(states, events[..n]) && states[0] == old(s.Snap()) && states[n] == s.Snap()
    ensures n < |events| ==> !Allowed(s.Snap(), events[n])
    ensures |ran| == n + 1 && forall i :: 0 <= i <= n ==> ran[i] == states[i].cur
  {
    hide Ok, Apply;
    n, ran, states := 0, [s.cur], [s.Snap()];
    while n < |events| && Permitted(s, events[n])
      invariant s.Valid() && n <= |events| && IsRun(states, events[..n]) && states[0] == old(s.Snap()) && states[n] == s.Snap()
      invariant |ran| == n + 1 && forall i :: 0 <= i <= n ==> ran[i] == states[i].cur
    {
      s.Perform(events[n]);
      RunExtended(states, events, n, s.Snap());
      n, ran, states := n + 1, ran + [s.cur], states + [s.Snap()];
    }
  }

  /** What the assertions test. */
  predicate Permitted(s: Scheduler, e: Event)
    reads s
    ensures Permitted(s, e) <==> Allowed(s.Snap(), e)
  {
    match e
    case Exits => s.cur != s.idle
    case Unblocks(t) => t in s.status && s.status[t] == Blocked && t != s.idle
    case Spawns(t) => t !in s.status
    case _ => true
  }

  lemma RunExtended(states: seq<State>, events: seq<Event>, n: nat, s: State)
    requires n < |events| && |states| == n + 1 && IsRun(states, events[..n]) && Allowed(states[n], events[n]) && s == Apply(states[n], events[n])
    ensures IsRun(states + [s], events[..n + 1])
  {
    hide Ok, Apply, Allowed;
    var es := events[..n + 1];
    forall k | 0 <= k < n ensures Allowed(states[k], es[k]) && states[k + 1] == Apply(states[k], es[k]) {
      assert es[k] == events[..n][k];
    }
  }
}
