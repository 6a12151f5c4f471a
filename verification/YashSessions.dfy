/**
 * The sessions of yashd: one thread per client, each with its own job
 * table, all of them parents of the same process's children. A step is
 * one system call of one session, with the answer it gets, and the
 * bookkeeping up to the next call; the steps of the sessions and of the
 * children interleave freely. The code is jobs.c, exec.c, builtins.c and
 * session.c under server/src.
 */
module YashSessions {
  import opened Options

  type Pid = nat
  type Fd = nat
  type Sid = nat

  const MAX_JOBS := 20

  // ----------------------------------------------------------------- the kernel

  /**
   * A child that has not been waited for. owner is the session that forked
   * it; strayed records that it has left the process group it was put in.
   */
  datatype Child = Child(pgid: Pid, owner: Sid, zombie: bool, strayed: bool)

  /** The children of the daemon, and the write ends of pipes that are open, by the session that opened them. */
  datatype Kernel = Kernel(children: map<Pid, Child>, fds: map<Fd, Sid>)

  ghost function PidsIn(k: Kernel, g: Pid): set<Pid> { set p | p in k.children && k.children[p].pgid == g }

  /** What waitpid on a process group can answer. */
  datatype Status = Exited(pid: Pid) | StoppedBy(pid: Pid) | ContinuedBy(pid: Pid) | Nothing | Interrupted | NoChild

  ghost predicate CanWait(k: Kernel, g: Pid, block: bool, st: Status) {
    match st
    case Exited(p) => p in PidsIn(k, g) && k.children[p].zombie
    case StoppedBy(p) => p in PidsIn(k, g) && !k.children[p].zombie
    case ContinuedBy(p) => p in PidsIn(k, g) && !k.children[p].zombie
    case Nothing => !block && PidsIn(k, g) != {}
    case Interrupted => true
    case NoChild => PidsIn(k, g) == {}
  }

  ghost function AfterWait(k: Kernel, st: Status): Kernel {
    if st.Exited? then k.(children := k.children - {st.pid}) else k
  }

  ghost function Close(k: Kernel, f: Option<Fd>): Kernel {
    if f.Some? then k.(fds := k.fds - {f.value}) else k
  }

  /** A number that fork can give: neither a child nor the group of one has it. */
  ghost predicate FreshPid(k: Kernel, p: Pid) { p != 0 && p !in k.children && PidsIn(k, p) == {} }

  // -------------------------------------------------------------------- sessions

  datatype JobState = Running | Stopped | Done

  /** job_t: pids are the processes not yet reaped; uid, forked and reaped record its history. */
  datatype Job = Job(
    uid: nat, jid: nat, pgid: Pid, state: JobState, background: bool, nlive: int,
    pids: set<Pid>, infd: Option<Fd>, forked: set<Pid>, reaped: set<Pid>)

  /** Where jobs_wait_fg is: at the top of its loop, in session_pump, or in poll_job. */
  datatype Mode = Top | Pumping | Polling(block: bool)

  /** Where a session's thread is. */
  datatype Pc =
    | Reaping(k: nat) | Reporting(k: nat)  // the two loops of jobs_reap
    | Prompt                               // in session_readsocket
    | Forking(job: Job, left: nat)         // in exec_job
    | Waiting(i: nat, mode: Mode)          // in jobs_wait_fg
    | Killing(waiting: bool)               // in jobs_kill_all, at the first job of the list
    | Gone

  datatype Session = Session(jobs: seq<Job>, fg: Option<nat>, quit: bool, count: nat, pc: Pc, reported: seq<Job>)

  const NEW_SESSION := Session([], None, false, 0, Reaping(0), [])

  datatype Act =
    | Pass                                 // the next turn of a loop
    | Wait(st: Status)
    | Report(failed: bool) | ShowPrompt(ok: bool)
    | Disconnect | Ignore | Quit | Bg(failed: bool) | Fg(failed: bool)
    | LaunchFails | Launch(fd: Fd, n: nat, background: bool) | ForkFails | Fork(pid: Pid) | Enter(room: bool)
    | Ctl | CtlEof | TextFails | PumpEnds | PumpGone
    | Finish | KillNext | KillDone

  function Without<T>(s: seq<T>, i: nat): seq<T>
    requires i < |s|
  {
    s[..i] + s[i + 1..]
  }

  /** One turn of the loop of poll_job. */
  ghost function Polled(j: Job, st: Status): Job {
    match st
    case Exited(p) => j.(pids := j.pids - {p}, nlive := j.nlive - 1, reaped := j.reaped + {p})
    case StoppedBy(_) => j.(state := Stopped)
    case ContinuedBy(_) => j.(state := Running)
    case Nothing => j
    case Interrupted => j
    case NoChild => j.(nlive := 0)
  }

  /** poll_job returns. */
  ghost predicate PollEnds(j: Job, st: Status) { st.StoppedBy? || st.Nothing? || st.NoChild? || j.nlive <= 0 }

  /** Back in the loop of session_main, after dispatch. */
  function Back(s: Session): Session { s.(pc := if s.quit then Killing(false) else Reaping(0)) }

  /** The jobs that fg can take, Running or Stopped, and those that bg can, Stopped. */
  predicate Picks(j: Job, stoppedOnly: bool) { j.state.Stopped? || (!stoppedOnly && j.state.Running?) }

  /** The newest such job: jobs_current and jobs_recent_stopped. */
  function Newest(jobs: seq<Job>, stoppedOnly: bool): (r: Option<nat>)
    ensures r.None? ==> forall m :: 0 <= m < |jobs| ==> !Picks(jobs[m], stoppedOnly)
    ensures r.Some? ==> r.value < |jobs| && Picks(jobs[r.value], stoppedOnly) && forall m :: r.value < m < |jobs| ==> !Picks(jobs[m], stoppedOnly)
  {
    if jobs == [] then None
    else
      var n := |jobs| - 1;
      if Picks(jobs[n], stoppedOnly) then Some(n) else Newest(jobs[..n], stoppedOnly)
  }

  /** The loop of jobs_current and of jobs_recent_stopped, which keeps the last that it finds. */
  method FindNewest(jobs: seq<Job>, stoppedOnly: bool) returns (found: Option<nat>)
    ensures found == Newest(jobs, stoppedOnly)
  {
    found := None;
    for i := 0 to |jobs|
      invariant found == Newest(jobs[..i], stoppedOnly)
    {
      assert jobs[..i + 1][..i] == jobs[..i];
      if Picks(jobs[i], stoppedOnly) { found := Some(i); }
    }
    assert jobs[..|jobs|] == jobs;
  }

  ghost predicate Enabled(k: Kernel, s: Session, a: Act) {
    match s.pc
    case Reaping(i) =>
      if i < |s.jobs| && !s.jobs[i].state.Done? && s.jobs[i].nlive > 0 then a.Wait? && CanWait(k, s.jobs[i].pgid, false, a.st)
      else a.Pass?
    case Reporting(i) =>
      if i >= |s.jobs| then a.ShowPrompt? else if s.jobs[i].state.Done? then a.Report? else a.Pass?
    case Prompt =>
      a.Disconnect? || a.Ignore? || a.Quit? || a.Bg? || a.Fg? || a.LaunchFails? || (a.Launch? && a.fd !in k.fds && 1 <= a.n <= 2)
    case Forking(_, left) =>
      if left > 0 then a.ForkFails? || (a.Fork? && FreshPid(k, a.pid)) else a.Enter?
    case Waiting(i, mode) =>
      i < |s.jobs| && (match mode
        case Top => if s.jobs[i].nlive > 0 then a.Pass? else a.Finish?
        case Pumping => a.Ctl? || a.CtlEof? || a.TextFails? || a.PumpEnds? || a.PumpGone?
        case Polling(block) => a.Wait? && s.jobs[i].nlive > 0 && CanWait(k, s.jobs[i].pgid, block, a.st))
    case Killing(waiting) =>
      if s.jobs == [] then a.KillDone?
      else if !waiting then a.KillNext?
      else if s.jobs[0].nlive > 0 then a.Wait? && CanWait(k, s.jobs[0].pgid, true, a.st)
      else a.Pass?
    case Gone => false
  }

  ghost function ReapStep(s: Session, i: nat, st: Status): Session
    requires i < |s.jobs|
  {
    var j := Polled(s.jobs[i], st);
    var j' := if j.nlive <= 0 then j.(state := Done) else j;
    s.(jobs := s.jobs[i := j'], pc := if PollEnds(j, st) then Reaping(i + 1) else s.pc)
  }

  ghost function PollStep(s: Session, i: nat, st: Status): Session
    requires i < |s.jobs|
  {
    var j := Polled(s.jobs[i], st);
    var s' := s.(jobs := s.jobs[i := j]);
    if st.StoppedBy? then Back(s'.(fg := None))
    else if PollEnds(j, st) then s'.(pc := Waiting(i, Top)) else s'
  }

  ghost function KillStep(s: Session, st: Status): Session
    requires s.jobs != []
  {
    if st.NoChild? then s.(jobs := s.jobs[1..], pc := Killing(false))
    else if st.Exited? then s.(jobs := s.jobs[0 := Polled(s.jobs[0], st)])
    else s
  }

  ghost function EnterStep(s: Session, room: bool): Session
    requires s.pc.Forking?
  {
    var p := s.pc.job;
    if p.nlive == 0 || |s.jobs| >= MAX_JOBS || !room then Back(s)
    else
      var jid := if s.jobs == [] then 1 else s.jobs[|s.jobs| - 1].jid + 1;
      var j := p.(jid := jid, uid := s.count, infd := if p.background then None else p.infd);
      var s' := s.(jobs := s.jobs + [j], count := s.count + 1);
      if p.background then Back(s') else s'.(fg := Some(|s.jobs|), pc := Waiting(|s.jobs|, Top))
  }

  ghost function SessionStep(s: Session, a: Act): Session
    requires s.pc.Waiting? ==> s.pc.i < |s.jobs|
    requires s.pc.Killing? && (a.Wait? || a.Pass? || a.KillNext?) ==> s.jobs != []
    requires s.pc.Reaping? && a.Wait? ==> s.pc.k < |s.jobs|
    requires s.pc.Reporting? && a.Report? ==> s.pc.k < |s.jobs|
  {
    match s.pc
    case Reaping(i) =>
      if a.Wait? then ReapStep(s, i, a.st)
      else s.(pc := if i < |s.jobs| then Reaping(i + 1) else Reporting(0))
    case Reporting(i) =>
      (match a
       case Report(failed) => s.(jobs := Without(s.jobs, i), reported := s.reported + [s.jobs[i]], quit := s.quit || failed)
       case ShowPrompt(ok) => s.(pc := if ok then Prompt else Killing(false))
       case _ => s.(pc := Reporting(i + 1)))
    case Prompt =>
      (match a
       case Disconnect => s.(pc := Killing(false))
       case Quit => Back(s.(quit := true))
       case Bg(failed) =>
         var n := Newest(s.jobs, true);
         Back(if n.None? then s
              else s.(jobs := s.jobs[n.value := s.jobs[n.value].(state := Running, background := true)], quit := s.quit || failed))
       case Fg(failed) =>
         var n := Newest(s.jobs, false);
         if n.None? then Back(s)
         else s.(jobs := s.jobs[n.value := s.jobs[n.value].(state := Running, background := false)],
                 quit := s.quit || failed, fg := n, pc := Waiting(n.value, Top))
       case Launch(fd, n, bg) => s.(pc := Forking(Job(0, 0, 0, Running, bg, 0, {}, Some(fd), {}, {}), n))
       case _ => Back(s))
    case Forking(p, left) =>
      (match a
       case Fork(pid) =>
         s.(pc := Forking(p.(pgid := if p.pgid == 0 then pid else p.pgid, pids := p.pids + {pid}, nlive := p.nlive + 1,
                             forked := p.forked + {pid}), if left > 0 then left - 1 else 0))
       case ForkFails => s.(pc := Forking(p, 0))
       case _ => EnterStep(s, a.Enter? && a.room))
    case Waiting(i, mode) =>
      (match a
       case Finish => Back(s.(jobs := Without(s.jobs, i), fg := None))
       case CtlEof => if s.jobs[i].infd.Some? then s.(jobs := s.jobs[i := s.jobs[i].(infd := None)]) else s.(quit := true)
       case TextFails => s.(jobs := s.jobs[i := s.jobs[i].(infd := None)])
       case PumpEnds => s.(pc := Waiting(i, Polling(false)))
       case PumpGone => s.(quit := true, pc := Waiting(i, Polling(false)))
       case Wait(st) => PollStep(s, i, st)
       case Pass => s.(pc := Waiting(i, if s.quit then Polling(true) else Pumping))
       case _ => s)
    case Killing(_) =>
      (match a
       case KillNext => s.(jobs := s.jobs[0 := s.jobs[0].(infd := None)], pc := Killing(true))
       case Wait(st) => KillStep(s, st)
       case Pass => s.(jobs := s.jobs[1..], pc := Killing(false))
       case _ => s.(pc := Gone))
    case Gone => s
  }

  /** The write end that a step closes, if any. */
  ghost function Closes(s: Session, a: Act): Option<Fd>
    requires s.pc.Waiting? ==> s.pc.i < |s.jobs|
    requires s.pc.Killing? && a.KillNext? ==> s.jobs != []
    requires s.pc.Reporting? && a.Report? ==> s.pc.k < |s.jobs|
  {
    match s.pc
    case Reporting(i) => if a.Report? then s.jobs[i].infd else None
    case Forking(p, _) =>
      if a.Enter? && (p.background || p.nlive == 0 || |s.jobs| >= MAX_JOBS || !a.room) then p.infd else None
    case Waiting(i, _) => if a.Finish? || a.CtlEof? || a.TextFails? then s.jobs[i].infd else None
    case Killing(_) => if a.KillNext? then s.jobs[0].infd else None
    case _ => None
  }

  /** The process groups of the jobs that have children left to wait for, the job that is being started among them. */
  ghost predicate Names(s: Session, g: Pid) {
    || (exists i :: 0 <= i < |s.jobs| && s.jobs[i].nlive > 0 && s.jobs[i].pgid == g)
    || (s.pc.Forking? && s.pc.job.nlive > 0 && s.pc.job.pgid == g)
  }

  /** The process group that a step signals, if any. */
  ghost function Signals(s: Session, a: Act): Option<Pid>
    requires s.pc.Waiting? ==> s.pc.i < |s.jobs|
    requires s.pc.Killing? && a.KillNext? ==> s.jobs != []
  {
    match s.pc
    case Prompt =>
      var n := Newest(s.jobs, a.Bg?);
      if (a.Bg? || a.Fg?) && n.Some? && s.jobs[n.value].state.Stopped? then Some(s.jobs[n.value].pgid) else None
    case Forking(p, _) => if a.Enter? && p.nlive != 0 && (|s.jobs| >= MAX_JOBS || !a.room) then Some(p.pgid) else None
    case Waiting(i, _) => if a.Ctl? || a.PumpGone? then Some(s.jobs[i].pgid) else None
    case Killing(_) => if a.KillNext? then Some(s.jobs[0].pgid) else None
    case _ => None
  }

  ghost function KernelStep(k: Kernel, sid: Sid, s: Session, a: Act): Kernel
    requires s.pc.Waiting? ==> s.pc.i < |s.jobs|
    requires s.pc.Killing? && a.KillNext? ==> s.jobs != []
    requires s.pc.Reporting? && a.Report? ==> s.pc.k < |s.jobs|
  {
    match a
    case Wait(st) => AfterWait(k, st)
    case Launch(fd, _, _) => k.(fds := k.fds[fd := sid])
    case Fork(pid) =>
      if s.pc.Forking? then k.(children := k.children[pid := Child(if s.pc.job.pgid == 0 then pid else s.pc.job.pgid, sid, false, false)]) else k
    case _ => Close(k, Closes(s, a))
  }
}
