/**
 * Runs of the daemon on which children outlive their session, and runs on
 * which one session takes the status of another session's child.
 */
module YashStories {
  import opened Options
  import opened YashSessions
  import opened YashWorld
  import opened YashChildren

  /** A run, and what happened on it. */
  datatype Tale = Tale(ws: seq<World>, es: seq<Event>)

  ghost predicate Real(t: Tale) { IsRun(t.ws, t.es) }

  /** The world that the run has come to. */
  ghost function Now(t: Tale): World { if t.ws == [] then BOOT else t.ws[|t.ws| - 1] }

  /** No child was given the number of a group that a job went by. */
  ghost predicate NoReuse(t: Tale) {
    forall i :: 0 <= i < |t.es| && t.es[i].By? && t.es[i].a.Fork? ==> i < |t.ws| && Unnamed(t.ws[i], t.es[i].a.pid)
  }

  ghost predicate NoJoin(t: Tale) { forall i :: 0 <= i < |t.es| ==> !t.es[i].Join? }

  ghost predicate NoRefusal(t: Tale) { forall i :: 0 <= i < |t.es| && t.es[i].By? ==> t.es[i].a != Enter(false) }

  lemma Orderly(t: Tale)
    requires Real(t) && NoReuse(t) && NoJoin(t)
    ensures IsOrderly(t.ws, t.es)
  {}

  /** What of the three still holds of a longer run. */
  ghost predicate Longer(t: Tale, t': Tale, reuse: bool, join: bool, refusal: bool) {
    (NoReuse(t) && !reuse ==> NoReuse(t')) && (NoJoin(t) && !join ==> NoJoin(t')) && (NoRefusal(t) && !refusal ==> NoRefusal(t'))
  }

  lemma Goes(t: Tale, e: Event) returns (t': Tale)
    requires Real(t) && Possible(Now(t), e)
    ensures Real(t') && Now(t') == Next(Now(t), e)
    ensures Longer(t, t', e.By? && e.a.Fork? && !Unnamed(Now(t), e.a.pid), e.Join?, e.By? && e.a == Enter(false))
  {
    t' := Tale(t.ws + [Next(Now(t), e)], t.es + [e]);
  }

  /** A step of a session. */
  lemma Does(t: Tale, sid: Sid, s: Session, a: Act) returns (t': Tale)
    requires Real(t) && sid in Now(t).sessions && Now(t).sessions[sid] == s && Enabled(Now(t).k, s, a)
    ensures Real(t')
    ensures Now(t') == World(KernelStep(Now(t).k, sid, s, a), Now(t).sessions[sid := SessionStep(s, a)])
    ensures Longer(t, t', a.Fork? && !Unnamed(Now(t), a.pid), false, a == Enter(false))
  {
    t' := Goes(t, By(sid, a));
  }

  ghost predicate Alike(t: Tale, t': Tale) { Longer(t, t', false, false, false) }

  /** A client connects and gets a prompt. */
  lemma Connects(t: Tale, sid: Sid) returns (t': Tale)
    requires Real(t) && sid !in Now(t).sessions
    ensures Real(t') && Now(t') == Now(t).(sessions := Now(t).sessions[sid := NEW_SESSION.(pc := Prompt)]) && Alike(t, t')
  {
    hide Real, NoReuse, NoJoin, NoRefusal, Now;
    t' := Goes(t, Accept(sid));
    t' := Does(t', sid, NEW_SESSION, Pass);
    t' := Does(t', sid, NEW_SESSION.(pc := Reporting(0)), ShowPrompt(true));
    SetThrice(Now(t).sessions, sid, NEW_SESSION, NEW_SESSION.(pc := Reporting(0)), NEW_SESSION.(pc := Prompt));
  }

  lemma SetThrice(m: map<Sid, Session>, sid: Sid, s: Session, s': Session, s'': Session)
    ensures m[sid := s][sid := s'] == m[sid := s'] && m[sid := s][sid := s'][sid := s''] == m[sid := s'']
  {}

  /** The job that exec_job is starting, with n children. */
  function Starts(g: Pid, fd: Fd, pids: set<Pid>, n: nat): Job { Job(0, 0, g, Running, false, n, pids, Some(fd), pids, {}) }

  /** A session at its first prompt starts a foreground job of n children, and forks the first of them. */
  lemma Launches(t: Tale, sid: Sid, fd: Fd, n: nat, p: Pid) returns (t': Tale)
    requires Real(t) && 1 <= n <= 2 && fd !in Now(t).k.fds && FreshPid(Now(t).k, p)
    requires sid in Now(t).sessions && Now(t).sessions[sid] == NEW_SESSION.(pc := Prompt)
    ensures Real(t') && Longer(t, t', !Unnamed(Now(t), p), false, false)
    ensures Now(t') == World(
      Kernel(Now(t).k.children[p := Child(p, sid, false, false)], Now(t).k.fds[fd := sid]),
      Now(t).sessions[sid := NEW_SESSION.(pc := Forking(Starts(p, fd, {p}, 1), n - 1))])
  {
    var s1, s2 := NEW_SESSION.(pc := Forking(Starts(0, fd, {}, 0), n)), NEW_SESSION.(pc := Forking(Starts(p, fd, {p}, 1), n - 1));
    Unnoticed(Now(t), sid, fd, n, p);
    hide Real, NoReuse, NoJoin, NoRefusal, Now, FreshPid, Unnamed;
    t' := Does(t, sid, NEW_SESSION.(pc := Prompt), Launch(fd, n, false));
    t' := Does(t', sid, s1, Fork(p));
    assert {} + {p} == {p};
    SetThrice(Now(t).sessions, sid, s1, s2, s2);
  }

  /** Opening a pipe uses up no number. */
  lemma Unnoticed(w: World, sid: Sid, fd: Fd, n: nat, p: Pid)
    requires sid in w.sessions && w.sessions[sid] == NEW_SESSION.(pc := Prompt) && FreshPid(w.k, p)
    ensures var w' := World(w.k.(fds := w.k.fds[fd := sid]), w.sessions[sid := NEW_SESSION.(pc := Forking(Starts(0, fd, {}, 0), n))]);
      FreshPid(w'.k, p) && (Unnamed(w, p) ==> Unnamed(w', p))
  {
    assert PidsIn(w.k.(fds := w.k.fds[fd := sid]), p) == PidsIn(w.k, p);
  }

  ghost predicate Plain(t: Tale) { Real(t) && NoReuse(t) && NoJoin(t) && NoRefusal(t) }

  lemma Begins() returns (t: Tale)
    ensures Plain(t) && Now(t) == BOOT
  {
    t := Tale([BOOT], []);
  }

  /** A pipeline of two, as in sleep 1 | setsid sleep 1000. */
  const PIPE := Job(0, 1, 7, Running, false, 2, {7, 8}, Some(3), {7, 8}, {})

  const PIPES := Kernel(map[7 := Child(7, 1, false, false), 8 := Child(7, 1, false, false)], map[3 := 1])

  function Alone(k: Kernel, s: Session): World { World(k, map[1 := s]) }

  /** The first session waits for its job, in poll_job. */
  function Waits(j: Job, mode: Mode): Session { Session([j], Some(0), false, 1, Waiting(0, mode), []) }

  lemma Piped() returns (t: Tale)
    ensures Plain(t) && Now(t) == Alone(PIPES, Waits(PIPE, Polling(false)))
  {
    t := Forked8();
    var s := NEW_SESSION.(pc := Forking(Starts(7, 3, {7, 8}, 2), 0));
    hide Real, NoReuse, NoJoin, NoRefusal, Now;
    assert SessionStep(s, Enter(true)).jobs == [PIPE];
    t := Does(t, 1, s, Enter(true));
    assert Now(t) == Alone(PIPES, Waits(PIPE, Top));
    t := Does(t, 1, Waits(PIPE, Top), Pass);
    assert Now(t) == Alone(PIPES, Waits(PIPE, Pumping));
    t := Does(t, 1, Waits(PIPE, Pumping), PumpEnds);
    assert Now(t) == Alone(PIPES, Waits(PIPE, Polling(false)));
  }

  lemma Forked8() returns (t: Tale)
    ensures Plain(t) && Now(t) == Alone(PIPES, NEW_SESSION.(pc := Forking(Starts(7, 3, {7, 8}, 2), 0)))
  {
    hide Real, NoReuse, NoJoin, NoRefusal, Now;
    t := Begins();
    t := Connects(t, 1);
    t := Launches(t, 1, 3, 2, 7);
    var s := NEW_SESSION.(pc := Forking(Starts(7, 3, {7}, 1), 1));
    assert Now(t) == Alone(Kernel(map[7 := Child(7, 1, false, false)], map[3 := 1]), s);
    assert {7 as Pid} + {8} == {7, 8};
    t := Does(t, 1, s, Fork(8));
  }

  const STRAY := Kernel(map[8 := Child(8, 1, false, true)], map[3 := 1])

  const HALF := PIPE.(nlive := 1, pids := {8}, reaped := {7})

  /** The second child leaves the group; the first one exits, and is reaped. */
  lemma Strays() returns (t: Tale)
    ensures Plain(t) && Now(t) == Alone(STRAY, Waits(HALF, Polling(false)))
  {
    t := Piped();
    hide Real, NoReuse, NoJoin, NoRefusal, Now;
    var s := Waits(PIPE, Polling(false));
    t := Goes(t, Leave(8));
    t := Goes(t, Exits(7));
    assert Now(t) == Alone(Kernel(map[7 := Child(7, 1, true, false), 8 := Child(8, 1, false, true)], map[3 := 1]), s);
    assert Polled(PIPE, Exited(7)) == HALF by { assert {7 as Pid, 8} - {7} == {8} && {} + {7 as Pid} == {7}; }
    assert SessionStep(s, Wait(Exited(7))).jobs == [HALF];
    t := Does(t, 1, s, Wait(Exited(7)));
    assert Now(t).k == STRAY;
    assert Now(t) == Alone(STRAY, Waits(HALF, Polling(false)));
  }

  const OVER := HALF.(nlive := 0)

  const NO_JOB := NEW_SESSION.(count := 1)

  /** waitpid says that there is no child. */
  lemma TakenOver() returns (t: Tale)
    ensures Plain(t) && Now(t) == Alone(STRAY, Waits(OVER, Top))
  {
    t := Strays();
    hide Real, NoReuse, NoJoin, NoRefusal, Now;
    assert PidsIn(STRAY, 7) == {};
    t := Does(t, 1, Waits(HALF, Polling(false)), Wait(NoChild));
    assert SessionStep(Waits(HALF, Polling(false)), Wait(NoChild)).jobs == [OVER];
    assert Now(t) == Alone(STRAY, Waits(OVER, Top));
  }

  /** The pipeline is taken to be over, its client leaves, and a child that the session forked is still running. */
  lemma StrayOutlives() returns (t: Tale)
    ensures IsOrderly(t.ws, t.es) && NoRefusal(t) && 1 in Now(t).sessions && Now(t).sessions[1].pc.Gone?
    ensures Owned(Now(t), 8, 1) && Alive(Now(t).k, 8)
  {
    t := TakenOver();
    hide Real, NoReuse, NoJoin, NoRefusal, Now;
    var k := STRAY.(fds := map[]);
    t := Does(t, 1, Waits(OVER, Top), Finish);
    assert Without([OVER], 0) == [];
    assert Now(t) == Alone(k, NO_JOB);
    t := ClientLeaves(t, k, NO_JOB);
    Orderly(t);
  }

  /** The first session finds its client gone. */
  lemma ClientLeaves(t: Tale, k: Kernel, s: Session) returns (t': Tale)
    requires Real(t) && s.jobs == [] && s.pc == Reaping(0) && Now(t) == Alone(k, s)
    ensures Real(t') && Alike(t, t') && Now(t').k == k && 1 in Now(t').sessions && Now(t').sessions[1].pc.Gone?
  {
    hide Real, NoReuse, NoJoin, NoRefusal, Now;
    t' := Does(t, 1, s, Pass);
    t' := Does(t', 1, s.(pc := Reporting(0)), ShowPrompt(false));
    t' := Does(t', 1, s.(pc := Killing(false)), KillDone);
  }

  /** The job of a client cannot be entered for want of memory; the client leaves, and the child is never waited for. */
  lemma RefusedOutlives() returns (t: Tale)
    ensures IsOrderly(t.ws, t.es) && 1 in Now(t).sessions && Now(t).sessions[1].pc.Gone?
    ensures Owned(Now(t), 7, 1) && !Strayed(Now(t).k, 7)
  {
    hide Real, NoReuse, NoJoin, NoRefusal, Now;
    t := Begins();
    t := Connects(t, 1);
    t := Launches(t, 1, 3, 1, 7);
    t := Does(t, 1, NEW_SESSION.(pc := Forking(Starts(7, 3, {7}, 1), 0)), Enter(false));
    var k := Kernel(map[7 := Child(7, 1, false, false)], map[]);
    assert Now(t) == Alone(k, NEW_SESSION);
    t := ClientLeaves(t, k, NEW_SESSION);
    Orderly(t);
  }

  /** The number of a group is given to a child of another session while a job still goes by it, and its status is taken. */
  lemma NumberReused() returns (t: Tale)
    ensures Real(t) && NoJoin(t) && Possible(Now(t), By(1, Wait(Exited(7)))) && Owned(Now(t), 7, 2)
  {
    t := Strays();
    hide Real, NoReuse, NoJoin, NoRefusal, Now;
    t := Connects(t, 2);
    t := Launches(t, 2, 4, 1, 7);
    t := Goes(t, Exits(7));
  }

  /** A child joins the group of another session's job, and its status is taken. */
  lemma JoinedOther() returns (t: Tale)
    ensures Real(t) && NoReuse(t) && Possible(Now(t), By(1, Wait(Exited(9)))) && Owned(Now(t), 9, 2)
  {
    t := Piped();
    hide Real, NoReuse, NoJoin, NoRefusal, Now;
    t := Connects(t, 2);
    t := Launches(t, 2, 4, 1, 9);
    assert 7 in PidsIn(Now(t).k, 7);
    t := Goes(t, Join(9, 7));
    t := Goes(t, Exits(9));
  }
}
