/**
 * Whom a session waits for and signals. All the children belong to one
 * process, so only the numbers of their groups keep the sessions apart.
 */
module YashOwners {
  import opened Options
  import opened YashSessions
  import opened YashWorld
  import opened YashTables

  /** No child of one session joins a group that holds a child of another, and no number is reused while a job goes by it. */
  ghost predicate Civil(w: World, e: Event) {
    match e
    case Join(p, g) => p in w.k.children && forall q :: q in PidsIn(w.k, g) ==> w.k.children[q].owner == w.k.children[p].owner
    case By(_, a) => a.Fork? ==> Unnamed(w, a.pid)
    case _ => true
  }

  ghost predicate IsCivil(ws: seq<World>, es: seq<Event>) {
    IsRun(ws, es) && forall i :: 0 <= i < |es| ==> Civil(ws[i], es[i])
  }

  /** The number is the session's: whoever is in the group, or has the number, was forked by it. */
  ghost predicate Ours(k: Kernel, sid: Sid, g: Pid) {
    && g != 0 && (forall p :: p in PidsIn(k, g) ==> k.children[p].owner == sid)
    && (g in k.children ==> k.children[g].owner == sid)
  }

  ghost predicate AllOurs(k: Kernel, sid: Sid, s: Session) { forall g :: Names(s, g) ==> Ours(k, sid, g) }

  ghost predicate Apart(w: World) {
    forall t, u, g :: t in w.sessions && u in w.sessions && t != u && Names(w.sessions[t], g) ==> !Names(w.sessions[u], g)
  }

  ghost predicate OwnInv(w: World) {
    (forall t :: t in w.sessions ==> AllOurs(w.k, t, w.sessions[t])) && Apart(w)
  }

  // ------------------------------------------------------------- one step of a session

  ghost predicate NamesIn(jobs: seq<Job>, g: Pid) { exists i :: 0 <= i < |jobs| && jobs[i].nlive > 0 && jobs[i].pgid == g }

  lemma ReplacedNames(jobs: seq<Job>, i: nat, j: Job, g: Pid)
    requires i < |jobs| && j.pgid == jobs[i].pgid && (j.nlive > 0 ==> jobs[i].nlive > 0) && NamesIn(jobs[i := j], g)
    ensures NamesIn(jobs, g)
  {
    var m :| 0 <= m < |jobs| && jobs[i := j][m].nlive > 0 && jobs[i := j][m].pgid == g;
    assert jobs[m].nlive > 0 && jobs[m].pgid == g;
  }

  lemma RemovedNames(jobs: seq<Job>, i: nat, g: Pid)
    requires i < |jobs| && NamesIn(Without(jobs, i), g)
    ensures NamesIn(jobs, g)
  {
    var jobs' := Without(jobs, i);
    var m :| 0 <= m < |jobs'| && jobs'[m].nlive > 0 && jobs'[m].pgid == g;
    assert jobs'[m] == jobs[if m < i then m else m + 1];
  }

  lemma AddedNames(jobs: seq<Job>, j: Job, g: Pid)
    requires NamesIn(jobs + [j], g)
    ensures NamesIn(jobs, g) || (j.nlive > 0 && j.pgid == g)
  {
    var m :| 0 <= m < |jobs + [j]| && (jobs + [j])[m].nlive > 0 && (jobs + [j])[m].pgid == g;
    assert m < |jobs| ==> jobs[m].pgid == g;
  }

  /** A step learns of no number but that of the child it forks. */
  lemma StepNames(k: Kernel, s: Session, a: Act, g: Pid)
    requires Enabled(k, s, a) && Placed(s) && Names(SessionStep(s, a), g)
    ensures Names(s, g) || (a.Fork? && g == a.pid && FreshPid(k, g))
  {
    hide SessionStep, CanWait, FreshPid, Lively, PlaceOk, Names;
    match s.pc
    case Prompt => PromptNames(k, s, a, g);
    case Forking(_, _) => ForkingNames(k, s, a, g);
    case Waiting(_, _) => WaitingNames(k, s, a, g);
    case _ => LoopNames(k, s, a, g);
  }

  lemma LoopNames(k: Kernel, s: Session, a: Act, g: Pid)
    requires Enabled(k, s, a) && Placed(s) && Names(SessionStep(s, a), g) && (s.pc.Reaping? || s.pc.Reporting? || s.pc.Killing?)
    ensures Names(s, g)
  {
    hide CanWait, FreshPid, Lively, PlaceOk;
    var s' := SessionStep(s, a);
    assert NamesIn(s'.jobs, g);
    hide NamesIn;
    if a.Report? {
      RemovedNames(s.jobs, s.pc.k, g);
    } else if s.pc.Killing? && (a.Pass? || a == Wait(NoChild)) {
      assert s.jobs[1..] == Without(s.jobs, 0);
      RemovedNames(s.jobs, 0, g);
    } else if a.Wait? || a.KillNext? {
      var i := if s.pc.Reaping? then s.pc.k else 0;
      assert s'.jobs == s.jobs[i := s'.jobs[i]];
      ReplacedNames(s.jobs, i, s'.jobs[i], g);
    }
  }

  lemma PromptNames(k: Kernel, s: Session, a: Act, g: Pid)
    requires Enabled(k, s, a) && s.pc.Prompt? && Names(SessionStep(s, a), g)
    ensures Names(s, g)
  {
    hide CanWait, FreshPid;
    var s' := SessionStep(s, a);
    assert NamesIn(s'.jobs, g);
    hide NamesIn;
    var n := Newest(s.jobs, a.Bg?);
    if (a.Bg? || a.Fg?) && n.Some? { ReplacedNames(s.jobs, n.value, s'.jobs[n.value], g); }
  }

  lemma WaitingNames(k: Kernel, s: Session, a: Act, g: Pid)
    requires Enabled(k, s, a) && s.pc.Waiting? && Names(SessionStep(s, a), g)
    ensures Names(s, g)
  {
    hide CanWait, FreshPid;
    var s', i := SessionStep(s, a), s.pc.i;
    assert NamesIn(s'.jobs, g);
    hide NamesIn;
    if a.Finish? {
      RemovedNames(s.jobs, i, g);
    } else {
      assert s'.jobs == s.jobs[i := s'.jobs[i]];
      ReplacedNames(s.jobs, i, s'.jobs[i], g);
    }
  }

  lemma ForkingNames(k: Kernel, s: Session, a: Act, g: Pid)
    requires Enabled(k, s, a) && s.pc.Forking? && Names(SessionStep(s, a), g) && PlaceOk(s)
    ensures Names(s, g) || (a.Fork? && g == a.pid && FreshPid(k, g))
  {
    hide CanWait, FreshPid;
    var s' := SessionStep(s, a);
    if NamesIn(s'.jobs, g) && s'.jobs != s.jobs { AddedNames(s.jobs, s'.jobs[|s.jobs|], g); }
  }

  // ------------------------------------------------------------- all the sessions

  /** What a step of a session does to the groups: children go, and one may come, into a group that the session goes by. */
  ghost predicate Tends(k: Kernel, k': Kernel, sid: Sid, s: Session, a: Act) {
    forall p :: p in k'.children ==>
      (p in k.children && k'.children[p] == k.children[p])
      || (a.Fork? && p == a.pid && FreshPid(k, p) && k'.children[p].owner == sid && (k'.children[p].pgid == p || Names(s, k'.children[p].pgid)))
  }

  lemma StepTends(k: Kernel, sid: Sid, s: Session, a: Act)
    requires Enabled(k, s, a) && PlaceOk(s)
    ensures Tends(k, KernelStep(k, sid, s, a), sid, s, a)
  {
    hide SessionStep, CanWait, FreshPid, Closes;
  }

  lemma StaysOurs(k: Kernel, k': Kernel, sid: Sid, s: Session, a: Act, t: Sid, g: Pid)
    requires Tends(k, k', sid, s, a) && Ours(k, t, g)
    requires t != sid ==> !Names(s, g) && (a.Fork? ==> g != a.pid)
    ensures Ours(k', t, g)
  {}

  lemma NewOurs(k: Kernel, k': Kernel, sid: Sid, s: Session, p: Pid)
    requires Tends(k, k', sid, s, Fork(p)) && FreshPid(k, p) && p != 0
    ensures Ours(k', sid, p)
  {
    forall q | q in PidsIn(k', p) ensures k'.children[q].owner == sid { assert q !in PidsIn(k, p); }
  }

  lemma StepOwn(w: World, sid: Sid, a: Act)
    requires Tables(w) && OwnInv(w) && Possible(w, By(sid, a)) && Civil(w, By(sid, a))
    ensures OwnInv(Next(w, By(sid, a)))
  {
    var w', s := Next(w, By(sid, a)), w.sessions[sid];
    var s' := w'.sessions[sid];
    assert Answers(w.k, sid, s);
    StepTends(w.k, sid, s, a);
    forall g | Names(s', g) ensures Names(s, g) || (a.Fork? && g == a.pid && FreshPid(w.k, g)) { StepNames(w.k, s, a, g); }
    hide SessionStep, KernelStep, Enabled, Tables, Book, Names, Tends;
    forall t | t in w'.sessions ensures AllOurs(w'.k, t, w'.sessions[t]) {
      forall g | Names(w'.sessions[t], g) ensures Ours(w'.k, t, g) {
        if Names(w.sessions[t], g) { StaysOurs(w.k, w'.k, sid, s, a, t, g); } else { NewOurs(w.k, w'.k, sid, s, g); }
      }
    }
  }

  /** A client is accepted, or a child exits or goes to another group. */
  lemma OtherOwn(w: World, e: Event)
    requires OwnInv(w) && Possible(w, e) && Civil(w, e) && !e.By?
    ensures OwnInv(Next(w, e))
  {
    var w' := Next(w, e);
    assert forall g :: !Names(NEW_SESSION, g);
    hide Names;
    forall t | t in w.sessions ensures AllOurs(w'.k, t, w.sessions[t]) {
      forall g | Names(w.sessions[t], g) ensures Ours(w'.k, t, g) {
        assert Ours(w.k, t, g);
        forall p | p in PidsIn(w'.k, g) ensures w'.k.children[p].owner == t {
          if e.Join? && p == e.pid && g == e.g {
            var q :| q in PidsIn(w.k, g);
            assert w.k.children[q].owner == t;
          } else {
            assert p in PidsIn(w.k, g) || p == g;
          }
        }
      }
    }
  }

  lemma {:induction false} RunOwn(ws: seq<World>, es: seq<Event>, i: nat)
    requires IsCivil(ws, es) && i < |ws|
    ensures OwnInv(ws[i])
  {
    hide OwnInv, Civil;
    if i == 0 {
      assert OwnInv(BOOT) by { BootOwn(); }
    } else {
      RunOwn(ws, es, i - 1);
      RunTables(ws, es, i - 1);
      if es[i - 1].By? { StepOwn(ws[i - 1], es[i - 1].sid, es[i - 1].a); } else { OtherOwn(ws[i - 1], es[i - 1]); }
    }
  }

  lemma BootOwn()
    ensures OwnInv(BOOT)
  {}

  /** The child that a wait tells about. */
  function About(st: Status): Option<Pid> {
    match st
    case Exited(p) => Some(p)
    case StoppedBy(p) => Some(p)
    case ContinuedBy(p) => Some(p)
    case _ => None
  }

  /** No step takes a status of a child that another session forked. */
  lemma OwnStatus(ws: seq<World>, es: seq<Event>, i: nat)
    requires IsCivil(ws, es) && i < |es| && es[i].By? && es[i].a.Wait?
    ensures var p := About(es[i].a.st); p.Some? ==> p.value in ws[i].k.children && ws[i].k.children[p.value].owner == es[i].sid
  {
    RunOwn(ws, es, i);
    var w, sid, st := ws[i], es[i].sid, es[i].a.st;
    assert Possible(w, es[i]);
    hide IsCivil;
    if About(st).Some? {
      var s := w.sessions[sid];
      var n := match s.pc case Reaping(n) => n case Waiting(n, _) => n case _ => 0;
      var g := s.jobs[n].pgid;
      assert Names(s, g) && About(st).value in PidsIn(w.k, g);
    }
  }

  /** No step signals a child that another session forked, nor the daemon's own group. */
  lemma OwnGroup(ws: seq<World>, es: seq<Event>, i: nat)
    requires IsCivil(ws, es) && i < |es| && es[i].By?
    ensures var g := Signals(ws[i].sessions[es[i].sid], es[i].a);
      g.Some? ==> g.value != 0 && forall p :: p in PidsIn(ws[i].k, g.value) ==> ws[i].k.children[p].owner == es[i].sid
  {
    RunOwn(ws, es, i);
    RunTables(ws, es, i);
    var w, sid, a := ws[i], es[i].sid, es[i].a;
    assert Possible(w, es[i]);
    hide IsCivil;
    assert Answers(w.k, sid, w.sessions[sid]);
    if Signals(w.sessions[sid], a).Some? { SignalsNamed(w.k, w.sessions[sid], a); }
  }

  lemma SignalsNamed(k: Kernel, s: Session, a: Act)
    requires Enabled(k, s, a) && Placed(s) && Signals(s, a).Some?
    ensures Names(s, Signals(s, a).value)
  {
    hide CanWait, FreshPid;
    if !s.pc.Forking? {
      var i := match s.pc case Prompt => Newest(s.jobs, a.Bg?).value case Waiting(i, _) => i case _ => 0;
      assert !Over(s, i);
    }
  }

  /** What the daemon takes for granted makes a run civil. */
  lemma OrderlyCivil(ws: seq<World>, es: seq<Event>)
    requires IsOrderly(ws, es)
    ensures IsCivil(ws, es)
  {
    forall i | 0 <= i < |es| ensures Civil(ws[i], es[i]) { assert Careful(ws[i], es[i]); }
  }
}
