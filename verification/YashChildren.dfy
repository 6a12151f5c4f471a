/**
 * Which children outlive the session that forked them. The comments in
 * session.c and jobs.h say that none does; but the path on which jobs_add
 * refuses a job (exec.c) forgets the children it has already forked, and a
 * child that has left its process group is neither signalled nor waited for.
 */
module YashChildren {
  import opened Options
  import opened YashSessions
  import opened YashWorld
  import opened YashTables
  import opened YashInvariant
  import opened YashRuns

  ghost predicate InTable(jobs: seq<Job>, p: Pid) { exists i :: 0 <= i < |jobs| && p in jobs[i].pids }

  /** The session knows of the child: by a job of its table, or by the one it is starting. */
  ghost predicate Has(s: Session, p: Pid) { InTable(s.jobs, p) || (s.pc.Forking? && p in s.pc.job.pids) }

  /** jobs_add finds no place for the job that was just forked. */
  ghost predicate Refuses(s: Session, a: Act) {
    s.pc.Forking? && s.pc.left == 0 && a.Enter? && (|s.jobs| >= MAX_JOBS || !a.room)
  }

  ghost predicate LostAt(w: World, e: Event, sid: Sid, p: Pid) {
    e.By? && e.sid == sid && sid in w.sessions && Refuses(w.sessions[sid], e.a) && p in w.sessions[sid].pc.job.pids
  }

  /** The child was forked for a job that was refused before the state i. */
  ghost predicate Lost(ws: seq<World>, es: seq<Event>, i: nat, sid: Sid, p: Pid)
    requires i <= |es| <= |ws|
  {
    exists m :: 0 <= m < i && LostAt(ws[m], es[m], sid, p)
  }

  lemma LostNext(ws: seq<World>, es: seq<Event>, i: nat, sid: Sid, p: Pid)
    requires i < |es| <= |ws|
    ensures Lost(ws, es, i + 1, sid, p) <==> Lost(ws, es, i, sid, p) || LostAt(ws[i], es[i], sid, p)
  {
    if Lost(ws, es, i, sid, p) {
      var m :| 0 <= m < i && LostAt(ws[m], es[m], sid, p);
      assert 0 <= m < i + 1;
    }
  }

  ghost predicate LeftAt(w: World, e: Event, sid: Sid, p: Pid) { e == Leave(p) && Owned(w, p, sid) }

  /** A child of the session left its process group before the state i. */
  ghost predicate Left(ws: seq<World>, es: seq<Event>, i: nat, sid: Sid, p: Pid)
    requires i <= |es| <= |ws|
  {
    exists m :: 0 <= m < i && LeftAt(ws[m], es[m], sid, p)
  }

  lemma LeftNext(ws: seq<World>, es: seq<Event>, i: nat, sid: Sid, p: Pid)
    requires i < |es| <= |ws|
    ensures Left(ws, es, i + 1, sid, p) <==> Left(ws, es, i, sid, p) || LeftAt(ws[i], es[i], sid, p)
  {
    if Left(ws, es, i, sid, p) {
      var m :| 0 <= m < i && LeftAt(ws[m], es[m], sid, p);
      assert 0 <= m < i + 1;
    }
  }

  ghost predicate Owned(w: World, p: Pid, sid: Sid) { p in w.k.children && w.k.children[p].owner == sid }

  ghost predicate Strayed(k: Kernel, p: Pid) { p in k.children && k.children[p].strayed }

  // ------------------------------------------------------------- one step of a session

  /** What a session knows of is there and its own. */
  lemma HasOwn(k: Kernel, sid: Sid, s: Session, p: Pid)
    requires ChildrenOk(k, sid, s) && Has(s, p)
    ensures p in k.children && k.children[p].owner == sid
  {
    if InTable(s.jobs, p) {
      var i :| 0 <= i < |s.jobs| && p in s.jobs[i].pids;
      assert JobOk(k, sid, s.jobs[i]);
      assert s.jobs[i].nlive > 0 ==> Member(k, sid, s.jobs[i].pgid, p);
    } else {
      assert Member(k, sid, s.pc.job.pgid, p);
    }
  }

  lemma Updated(jobs: seq<Job>, i: nat, j: Job, p: Pid)
    requires i < |jobs| && (p in jobs[i].pids <==> p in j.pids)
    ensures InTable(jobs[i := j], p) <==> InTable(jobs, p)
  {
    if m :| 0 <= m < |jobs| && p in jobs[m].pids { assert p in jobs[i := j][m].pids; }
    var jobs' := jobs[i := j];
    if m :| 0 <= m < |jobs'| && p in jobs'[m].pids { assert p in jobs[m].pids; }
  }

  lemma Removed(jobs: seq<Job>, i: nat, p: Pid)
    requires i < |jobs| && p !in jobs[i].pids
    ensures InTable(Without(jobs, i), p) <==> InTable(jobs, p)
  {
    var jobs' := Without(jobs, i);
    if m :| 0 <= m < |jobs| && p in jobs[m].pids { assert p in jobs'[if m < i then m else m - 1].pids; }
    if m :| 0 <= m < |jobs'| && p in jobs'[m].pids { assert p in jobs[if m < i then m else m + 1].pids; }
  }

  lemma Added(jobs: seq<Job>, j: Job, p: Pid)
    requires p in j.pids
    ensures InTable(jobs + [j], p)
  {
    assert (jobs + [j])[|jobs|] == j;
  }

  lemma AddedOther(jobs: seq<Job>, j: Job, p: Pid)
    requires p !in j.pids
    ensures InTable(jobs + [j], p) <==> InTable(jobs, p)
  {
    assert Without(jobs + [j], |jobs|) == jobs;
    Removed(jobs + [j], |jobs|, p);
  }

  /** No job of the table has a child of the job that is being started, as long as it stays. */
  lemma StartsApart(k: Kernel, sid: Sid, s: Session, p: Pid)
    requires ChildrenOk(k, sid, s) && s.pc.Forking? && p in s.pc.job.pids && !Strayed(k, p)
    ensures !InTable(s.jobs, p)
  {
    forall i | 0 <= i < |s.jobs| ensures p !in s.jobs[i].pids {
      assert JobOk(k, sid, s.jobs[i]) && JobOk(k, sid, s.pc.job);
      assert Member(k, sid, s.pc.job.pgid, p);
      assert s.jobs[i].nlive > 0 && p in s.jobs[i].pids ==> Member(k, sid, s.jobs[i].pgid, p);
    }
  }

  /** A child that a step reaps is one that the session knows of. */
  lemma ReapsKnown(k: Kernel, sid: Sid, s: Session, p: Pid)
    requires ChildrenOk(k, sid, s) && Enabled(k, s, Wait(Exited(p)))
    ensures Has(s, p) && !Strayed(k, p)
  {
    hide ReportsOk, ProtoOk, JobOk, CanWait;
    var i := match s.pc case Reaping(i) => i case Waiting(i, _) => i case _ => 0;
    var block := match s.pc case Reaping(_) => false case Waiting(_, Polling(b)) => b case _ => true;
    ReapsOwn(k, sid, s.jobs[i], block, p);
  }

  lemma ReapsOwn(k: Kernel, sid: Sid, j: Job, block: bool, p: Pid)
    requires JobOk(k, sid, j) && j.nlive > 0 && CanWait(k, j.pgid, block, Exited(p))
    ensures p in j.pids && !Strayed(k, p)
  {
    assert p in Staying(k, j.pids);
  }

  ghost predicate Gives(s: Session, a: Act, p: Pid) { Refuses(s, a) && p in s.pc.job.pids }

  /** A step forgets a child that has not strayed just when it refuses its job, and learns of none but the one it forks. */
  lemma StepHas(k: Kernel, sid: Sid, s: Session, a: Act, p: Pid)
    requires ChildrenOk(k, sid, s) && Enabled(k, s, a) && p in k.children && !Strayed(k, p) && a != Wait(Exited(p))
    ensures Has(SessionStep(s, a), p) <==> Has(s, p) && !Gives(s, a, p)
  {
    hide ChildrenOk, SessionStep, Has, CanWait, FreshPid;
    match s.pc
    case Reaping(_) => LoopHas(k, sid, s, a, p);
    case Reporting(_) => LoopHas(k, sid, s, a, p);
    case Prompt => PromptHas(s, a, p);
    case Forking(_, _) => ForkingHas(k, sid, s, a, p);
    case Waiting(_, _) => WaitingHas(k, sid, s, a, p);
    case Killing(_) => KillingHas(k, sid, s, a, p);
  }

  lemma LoopHas(k: Kernel, sid: Sid, s: Session, a: Act, p: Pid)
    requires ChildrenOk(k, sid, s) && Enabled(k, s, a) && !Strayed(k, p) && a != Wait(Exited(p)) && (s.pc.Reaping? || s.pc.Reporting?)
    ensures Has(SessionStep(s, a), p) <==> Has(s, p)
  {
    hide GroupOk, ProtoOk, ReportsOk, InTable, CanWait;
    var i := s.pc.k;
    if a.Wait? {
      Updated(s.jobs, i, SessionStep(s, a).jobs[i], p);
    } else if a.Report? {
      assert JobOk(k, sid, s.jobs[i]);
      Removed(s.jobs, i, p);
    }
  }

  lemma WaitingHas(k: Kernel, sid: Sid, s: Session, a: Act, p: Pid)
    requires ChildrenOk(k, sid, s) && Enabled(k, s, a) && !Strayed(k, p) && a != Wait(Exited(p)) && s.pc.Waiting?
    ensures Has(SessionStep(s, a), p) <==> Has(s, p)
  {
    hide GroupOk, ProtoOk, ReportsOk, InTable, CanWait;
    var i := s.pc.i;
    if a.Finish? {
      assert JobOk(k, sid, s.jobs[i]);
      Removed(s.jobs, i, p);
    } else if a.Wait? || a.CtlEof? || a.TextFails? {
      Updated(s.jobs, i, SessionStep(s, a).jobs[i], p);
    }
  }

  lemma PromptHas(s: Session, a: Act, p: Pid)
    requires s.pc.Prompt?
    ensures Has(SessionStep(s, a), p) <==> Has(s, p)
  {
    if a.Bg? || a.Fg? {
      var n := Newest(s.jobs, a.Bg?);
      if n.Some? { Updated(s.jobs, n.value, SessionStep(s, a).jobs[n.value], p); }
    }
  }

  lemma ForkingHas(k: Kernel, sid: Sid, s: Session, a: Act, p: Pid)
    requires ChildrenOk(k, sid, s) && Enabled(k, s, a) && p in k.children && !Strayed(k, p) && s.pc.Forking?
    ensures Has(SessionStep(s, a), p) <==> Has(s, p) && !Gives(s, a, p)
  {
    if a.Enter? {
      var job := s.pc.job;
      if p in job.pids {
        StartsApart(k, sid, s, p);
        if !Refuses(s, a) { Added(s.jobs, SessionStep(s, a).jobs[|s.jobs|], p); }
      } else if !Refuses(s, a) && job.nlive != 0 {
        AddedOther(s.jobs, SessionStep(s, a).jobs[|s.jobs|], p);
      }
    }
  }

  lemma KillingHas(k: Kernel, sid: Sid, s: Session, a: Act, p: Pid)
    requires ChildrenOk(k, sid, s) && Enabled(k, s, a) && !Strayed(k, p) && a != Wait(Exited(p)) && s.pc.Killing?
    ensures Has(SessionStep(s, a), p) <==> Has(s, p)
  {
    hide GroupOk, ProtoOk, ReportsOk, InTable;
    if s.jobs != [] {
      var s' := SessionStep(s, a);
      assert JobOk(k, sid, s.jobs[0]);
      if a.Pass? || a == Wait(NoChild) {
        assert s.jobs[1..] == Without(s.jobs, 0);
        if s.jobs[0].nlive > 0 { AllStrayed(k, sid, s.jobs[0].pgid, s.jobs[0].pids); }
        Removed(s.jobs, 0, p);
      } else if s'.jobs != s.jobs {
        Updated(s.jobs, 0, s'.jobs[0], p);
      }
    }
  }

  // ------------------------------------------------------------------------- runs

  /** Every child is known to the session that forked it, or lost, or strayed; what is lost stays, and is not waited for. */
  ghost predicate Tally(ws: seq<World>, es: seq<Event>, i: nat)
    requires i <= |es| < |ws|
  {
    var w := ws[i];
    && (forall p :: p in w.k.children ==>
          var sid := w.k.children[p].owner;
          sid in w.sessions && (Has(w.sessions[sid], p) || Lost(ws, es, i, sid, p) || w.k.children[p].strayed))
    && (forall sid, p :: Lost(ws, es, i, sid, p) ==>
          Owned(w, p, sid) && (w.k.children[p].strayed || forall t :: t in w.sessions ==> !Has(w.sessions[t], p)))
  }

  lemma KernelKeeps(k: Kernel, sid: Sid, s: Session, a: Act, p: Pid)
    requires ChildrenOk(k, sid, s) && Enabled(k, s, a)
    ensures var k' := KernelStep(k, sid, s, a);
      && (p in k.children && a != Wait(Exited(p)) ==> p in k'.children && k'.children[p] == k.children[p])
      && (p !in k.children && p in k'.children ==> k'.children[p].owner == sid && !k'.children[p].strayed && Has(SessionStep(s, a), p))
      && (a == Wait(Exited(p)) ==> p !in k'.children)
  {
    hide AllOk, ProtoOk, ReportsOk, Closes, CanWait;
  }

  /** What a step does to a child, and to what its session knows of it. */
  ghost predicate KnowsAt(k: Kernel, k': Kernel, sid: Sid, s: Session, s': Session, a: Act, p: Pid) {
    && (p in k.children && a != Wait(Exited(p)) ==>
          && p in k'.children && k'.children[p] == k.children[p]
          && (!k.children[p].strayed ==> (Has(s', p) <==> Has(s, p) && !Gives(s, a, p))))
    && (p in k'.children && p !in k.children ==> k'.children[p].owner == sid && !k'.children[p].strayed && Has(s', p))
    && (a == Wait(Exited(p)) ==> Has(s, p) && !Strayed(k, p) && p !in k'.children)
  }

  ghost predicate Knows(k: Kernel, k': Kernel, sid: Sid, s: Session, s': Session, a: Act) {
    forall p :: KnowsAt(k, k', sid, s, s', a, p)
  }

  lemma StepKnows(k: Kernel, sid: Sid, s: Session, a: Act, p: Pid)
    requires ChildrenOk(k, sid, s) && Enabled(k, s, a)
    ensures KnowsAt(k, KernelStep(k, sid, s, a), sid, s, SessionStep(s, a), a, p)
  {
    hide ChildrenOk, Has, Gives, CanWait, Closes, FreshPid;
    KernelKeeps(k, sid, s, a, p);
    if p in k.children && !Strayed(k, p) && a != Wait(Exited(p)) { StepHas(k, sid, s, a, p); }
    if a == Wait(Exited(p)) { ReapsKnown(k, sid, s, p); }
  }

  ghost predicate AllOwned(w: World) {
    forall t, p :: t in w.sessions && Has(w.sessions[t], p) ==> Owned(w, p, t)
  }

  lemma InvOwned(w: World)
    requires Inv(w)
    ensures AllOwned(w)
  {
    forall t, p | t in w.sessions && Has(w.sessions[t], p) ensures Owned(w, p, t) { HasOwn(w.k, t, w.sessions[t], p); }
    hide ChildrenOk, Has;
  }

  lemma StepTally(ws: seq<World>, es: seq<Event>, i: nat)
    requires i < |es| < |ws| && es[i].By? && Tally(ws, es, i) && AllOwned(ws[i])
    requires var w := ws[i]; var sid := es[i].sid;
      && sid in w.sessions && ws[i + 1].sessions.Keys == w.sessions.Keys
      && (forall t :: t in w.sessions && t != sid ==> ws[i + 1].sessions[t] == w.sessions[t])
      && Knows(w.k, ws[i + 1].k, sid, w.sessions[sid], ws[i + 1].sessions[sid], es[i].a)
    ensures Tally(ws, es, i + 1)
  {
    hide Has, Lost, Refuses;
    var n := i + 1;
    forall t, p ensures Lost(ws, es, n, t, p) <==> Lost(ws, es, i, t, p) || LostAt(ws[i], es[i], t, p) { LostNext(ws, es, i, t, p); }
    forall t, p | LostAt(ws[i], es[i], t, p) ensures Has(ws[i].sessions[t], p) && es[i].a.Enter? { LostHad(ws[i], es[i], t, p); }
    var w, w', sid, a := ws[i], ws[n], es[i].sid, es[i].a;
    forall p | p in w'.k.children
      ensures var o := w'.k.children[p].owner; o in w'.sessions && (Has(w'.sessions[o], p) || Lost(ws, es, n, o, p) || w'.k.children[p].strayed)
    {
      assert KnowsAt(w.k, w'.k, sid, w.sessions[sid], w'.sessions[sid], a, p);
      if p in w.k.children && w.k.children[p].owner == sid && Gives(w.sessions[sid], a, p) { assert LostAt(w, es[i], sid, p); }
    }
    forall t, p | Lost(ws, es, n, t, p)
      ensures Owned(w', p, t) && (w'.k.children[p].strayed || forall u :: u in w'.sessions ==> !Has(w'.sessions[u], p))
    {
      assert KnowsAt(w.k, w'.k, sid, w.sessions[sid], w'.sessions[sid], a, p);
      if LostAt(w, es[i], t, p) { assert Has(w.sessions[t], p) && Gives(w.sessions[t], a, p); }
    }
  }

  lemma LostHad(w: World, e: Event, t: Sid, p: Pid)
    requires LostAt(w, e, t, p)
    ensures Has(w.sessions[t], p) && e.a.Enter?
  {}

  lemma NextKnows(w: World, e: Event)
    requires Inv(w) && Possible(w, e) && e.By?
    ensures var w' := Next(w, e);
      && w'.sessions.Keys == w.sessions.Keys && (forall t :: t in w.sessions && t != e.sid ==> w'.sessions[t] == w.sessions[t])
      && Knows(w.k, w'.k, e.sid, w.sessions[e.sid], w'.sessions[e.sid], e.a)
  {
    hide ChildrenOk, KnowsAt, KernelStep, SessionStep;
    var w', sid, a := Next(w, e), e.sid, e.a;
    forall p ensures KnowsAt(w.k, w'.k, sid, w.sessions[sid], w'.sessions[sid], a, p) { StepKnows(w.k, sid, w.sessions[sid], a, p); }
  }

  lemma NoChildren(ws: seq<World>, es: seq<Event>)
    requires IsRun(ws, es)
    ensures Tally(ws, es, 0) && Wandered(ws, es, 0)
  {}

  lemma {:induction false} RunTally(ws: seq<World>, es: seq<Event>, i: nat)
    requires IsOrderly(ws, es) && i < |ws|
    ensures Tally(ws, es, i) && Wandered(ws, es, i)
  {
    hide Next, Inv, Knows, AllOwned, Tally, Wandered;
    if i == 0 {
      NoChildren(ws, es);
    } else {
      RunTally(ws, es, i - 1);
      RunInv(ws, es, i - 1);
      assert Careful(ws[i - 1], es[i - 1]);
      if es[i - 1].By? {
        NextKnows(ws[i - 1], es[i - 1]);
        InvOwned(ws[i - 1]);
        StepTally(ws, es, i - 1);
        StepWandered(ws, es, i - 1);
      } else {
        OtherTally(ws, es, i - 1);
      }
    }
  }

  lemma OtherTally(ws: seq<World>, es: seq<Event>, i: nat)
    requires IsRun(ws, es) && i < |es| && !es[i].By? && !es[i].Join? && Tally(ws, es, i) && Wandered(ws, es, i)
    ensures Tally(ws, es, i + 1) && Wandered(ws, es, i + 1)
  {
    hide Has, Lost, Left;
    var w, w' := ws[i], ws[i + 1];
    assert w' == Next(w, es[i]);
    NoneNew();
    var n := i + 1;
    forall t, p ensures Lost(ws, es, n, t, p) <==> Lost(ws, es, i, t, p) { LostNext(ws, es, i, t, p); }
    forall t, p ensures Left(ws, es, n, t, p) <==> Left(ws, es, i, t, p) || LeftAt(w, es[i], t, p) { LeftNext(ws, es, i, t, p); }
    forall t, p ensures Owned(w', p, t) == Owned(w, p, t) {}
    forall p | p in w'.k.children ensures p in w.k.children && (w'.k.children[p].strayed <==> w.k.children[p].strayed || es[i] == Leave(p)) {}
    forall t, p | t in w'.sessions && Has(w'.sessions[t], p) ensures t in w.sessions && Has(w.sessions[t], p) {}
  }

  lemma NoneNew()
    ensures forall p :: !Has(NEW_SESSION, p)
  {}

  /** The children that have strayed are those that left their groups; none of them has been reaped. */
  ghost predicate Wandered(ws: seq<World>, es: seq<Event>, i: nat)
    requires i <= |es| < |ws|
  {
    forall sid, p :: Left(ws, es, i, sid, p) <==> Owned(ws[i], p, sid) && Strayed(ws[i].k, p)
  }

  lemma StepWandered(ws: seq<World>, es: seq<Event>, i: nat)
    requires i < |es| < |ws| && es[i].By? && Wandered(ws, es, i)
    requires var w := ws[i]; var sid := es[i].sid;
      sid in w.sessions && sid in ws[i + 1].sessions && Knows(w.k, ws[i + 1].k, sid, w.sessions[sid], ws[i + 1].sessions[sid], es[i].a)
    ensures Wandered(ws, es, i + 1)
  {
    hide Has, Left, Gives;
    var w, w', sid, a := ws[i], ws[i + 1], es[i].sid, es[i].a;
    forall t, p ensures Left(ws, es, i + 1, t, p) <==> Owned(w', p, t) && Strayed(w'.k, p) {
      LeftNext(ws, es, i, t, p);
      assert KnowsAt(w.k, w'.k, sid, w.sessions[sid], w'.sessions[sid], a, p);
    }
  }

  /** The children that outlive a session are those of the jobs it refused and those that left their groups, all of them and no others. */
  lemma Outlives(ws: seq<World>, es: seq<Event>, i: nat, sid: Sid, p: Pid)
    requires IsOrderly(ws, es) && i < |ws| && sid in ws[i].sessions && ws[i].sessions[sid].pc.Gone?
    ensures Owned(ws[i], p, sid) <==> Lost(ws, es, i, sid, p) || Left(ws, es, i, sid, p)
  {
    RunTally(ws, es, i);
    RunInv(ws, es, i);
    NothingLeft(ws, es, i, sid);
    hide IsOrderly;
    assert !Has(ws[i].sessions[sid], p);
  }
}
