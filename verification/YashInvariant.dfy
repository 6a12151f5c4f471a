/** What every step of every session keeps of the children: whose they are, and which job they belong to. */
module YashInvariant {
  import opened Options
  import opened YashSessions
  import opened YashTables

  // ---------------------------------------------------------------- the invariant

  /** A child of the session that is in the group it was put in, or has left it for one of its own. */
  ghost predicate Member(k: Kernel, sid: Sid, g: Pid, p: Pid) {
    p in k.children && k.children[p].owner == sid && k.children[p].pgid == if k.children[p].strayed then p else g
  }

  /** The children among these that have not strayed. */
  ghost function Staying(k: Kernel, pids: set<Pid>): set<Pid> { set p | p in pids && p in k.children && !k.children[p].strayed }

  /** The session forked these children into the group; it holds just those that have not strayed, and nobody else has its number. */
  ghost predicate GroupOk(k: Kernel, sid: Sid, g: Pid, pids: set<Pid>) {
    && g != 0 && pids != {} && (forall p :: p in pids ==> Member(k, sid, g, p))
    && PidsIn(k, g) == Staying(k, pids) && (g in k.children ==> g in pids)
  }

  /** Children of the session that have left the group they were put in. */
  ghost predicate Strays(k: Kernel, sid: Sid, pids: set<Pid>) {
    forall p :: p in pids ==> p in k.children && k.children[p].owner == sid && k.children[p].strayed
  }

  ghost predicate JobOk(k: Kernel, sid: Sid, j: Job) {
    && j.nlive >= 0 && j.forked == j.reaped + j.pids && (j.state.Done? ==> j.nlive == 0)
    && (if j.nlive > 0 then j.nlive == |j.pids| && GroupOk(k, sid, j.pgid, j.pids) else Strays(k, sid, j.pids))
  }

  ghost predicate AllOk(k: Kernel, sid: Sid, jobs: seq<Job>) { forall i :: 0 <= i < |jobs| ==> JobOk(k, sid, jobs[i]) }

  /** No two jobs of the table go by the same number. */
  ghost predicate GroupsApart(jobs: seq<Job>) {
    forall i, j :: 0 <= i < j < |jobs| && jobs[i].nlive > 0 && jobs[j].nlive > 0 ==> jobs[i].pgid != jobs[j].pgid
  }

  /** The job that exec_job is starting. */
  ghost predicate ProtoOk(k: Kernel, sid: Sid, s: Session) {
    s.pc.Forking? ==>
      var p := s.pc.job;
      && JobOk(k, sid, p) && p.reaped == {} && (if p.nlive == 0 then p.pids == {} else p.pgid in p.pids)
      && forall i :: 0 <= i < |s.jobs| && p.nlive > 0 && s.jobs[i].nlive > 0 ==> s.jobs[i].pgid != p.pgid
  }

  /** A job that was reported: it had been reaped but for children that had strayed. */
  ghost predicate ReportOk(k: Kernel, sid: Sid, r: Job) { r.nlive == 0 && r.forked == r.reaped + r.pids && Strays(k, sid, r.pids) }

  ghost predicate ReportsOk(k: Kernel, sid: Sid, reported: seq<Job>) {
    forall i :: 0 <= i < |reported| ==> ReportOk(k, sid, reported[i])
  }

  ghost predicate ChildrenOk(k: Kernel, sid: Sid, s: Session) {
    AllOk(k, sid, s.jobs) && GroupsApart(s.jobs) && ProtoOk(k, sid, s) && ReportsOk(k, sid, s.reported)
  }

  // ------------------------------------------------------- what sessions owe each other

  /** Children that have strayed are never waited for, and stay as they are. */
  ghost predicate StraysStay(k: Kernel, k': Kernel) {
    forall p :: p in k.children && k.children[p].strayed ==> p in k'.children && k'.children[p].strayed && k'.children[p].owner == k.children[p].owner
  }

  lemma StillStrays(k: Kernel, k': Kernel, sid: Sid, pids: set<Pid>)
    requires StraysStay(k, k') && Strays(k, sid, pids)
    ensures Strays(k', sid, pids)
  {}

  /** The number of the child that a step makes, or 0. */
  function NewNumber(a: Act): Pid { if a.Fork? then a.pid else 0 }

  lemma ReportsStay(k: Kernel, k': Kernel, sid: Sid, reported: seq<Job>)
    requires StraysStay(k, k') && ReportsOk(k, sid, reported)
    ensures ReportsOk(k', sid, reported)
  {
    hide StraysStay, Strays;
    forall i | 0 <= i < |reported| ensures ReportOk(k', sid, reported[i]) {
      assert ReportOk(k, sid, reported[i]);
      StillStrays(k, k', sid, reported[i].pids);
    }
  }

  /** A step that does not touch what other sessions have forked; n is the number of a new child, or 0. */
  ghost predicate Leaves(k: Kernel, k': Kernel, sid: Sid, n: Pid) {
    (forall g, t, pids :: t != sid && g != n && GroupOk(k, t, g, pids) ==> GroupOk(k', t, g, pids)) && StraysStay(k, k')
  }

  /** Others do not notice, unless the new number is one that a job of theirs still goes by. */
  lemma Undisturbed(k: Kernel, k': Kernel, sid: Sid, n: Pid, t: Sid, s: Session)
    requires Leaves(k, k', sid, n) && t != sid && ChildrenOk(k, t, s) && !Names(s, n)
    ensures ChildrenOk(k', t, s)
  {
    ReportsStay(k, k', t, s.reported);
    hide GroupOk, Strays, StraysStay, ReportsOk;
    forall i | 0 <= i < |s.jobs| ensures JobOk(k', t, s.jobs[i]) {
      assert JobOk(k, t, s.jobs[i]);
      if s.jobs[i].nlive == 0 { StillStrays(k, k', t, s.jobs[i].pids); }
    }
    if s.pc.Forking? && s.pc.job.nlive == 0 { StillStrays(k, k', t, s.pc.job.pids); }
  }

  /** Own groups other than g stay as they are. */
  ghost predicate OnlyIn(k: Kernel, k': Kernel, sid: Sid, g: Pid) {
    forall h, pids :: h != g && GroupOk(k, sid, h, pids) ==> GroupOk(k', sid, h, pids)
  }

  lemma Collect(k: Kernel, sid: Sid, g: Pid, pids: set<Pid>, p: Pid)
    requires GroupOk(k, sid, g, pids) && p in PidsIn(k, g)
    ensures var k' := AfterWait(k, Exited(p));
      && p in pids && Leaves(k, k', sid, 0) && OnlyIn(k, k', sid, g)
      && (|pids| > 1 ==> GroupOk(k', sid, g, pids - {p}))
  {
    var k' := AfterWait(k, Exited(p));
    forall h ensures PidsIn(k', h) == PidsIn(k, h) - {p} {}
    assert p in Staying(k, pids) && Member(k, sid, g, p);
    assert |pids| > 1 ==> |pids - {p}| > 0;
    forall h, t, qs | GroupOk(k, t, h, qs) && (t != sid || h != g) ensures GroupOk(k', t, h, qs) {
      assert p in qs ==> Member(k, t, h, p);
      forall q | q in qs ensures Member(k', t, h, q) { assert Member(k, t, h, q); }
      assert Staying(k', qs) == Staying(k, qs);
    }
    if |pids| > 1 {
      forall q | q in pids - {p} ensures Member(k', sid, g, q) { assert Member(k, sid, g, q); }
      assert Staying(k', pids - {p}) == Staying(k, pids) - {p};
    }
  }

  /** A step that reaps and forks nobody. */
  lemma SameChildren(k: Kernel, k': Kernel)
    requires k'.children == k.children
    ensures forall t, g, pids :: GroupOk(k, t, g, pids) ==> GroupOk(k', t, g, pids)
    ensures StraysStay(k, k')
  {
    forall g ensures PidsIn(k', g) == PidsIn(k, g) {}
    forall pids ensures Staying(k', pids) == Staying(k, pids) {}
    forall t, g, p ensures Member(k', t, g, p) == Member(k, t, g, p) {}
    hide PidsIn, Staying, Member;
  }

  /** A child is forked, into a group of its own or into that of the job's first child. */
  lemma Forked(k: Kernel, sid: Sid, g: Pid, pids: set<Pid>, p: Pid)
    requires FreshPid(k, p) && (if g == 0 then pids == {} else GroupOk(k, sid, g, pids) && g in pids)
    ensures var g' := if g == 0 then p else g; var k' := k.(children := k.children[p := Child(g', sid, false, false)]);
      && Leaves(k, k', sid, p) && (forall h, qs :: h != g' && h != p && GroupOk(k, sid, h, qs) ==> GroupOk(k', sid, h, qs))
      && p !in pids && GroupOk(k', sid, g', pids + {p})
  {
    var g' := if g == 0 then p else g;
    var k' := k.(children := k.children[p := Child(g', sid, false, false)]);
    forall h ensures PidsIn(k', h) == PidsIn(k, h) + if h == g' then {p} else {} {}
    forall q | q in pids ensures q != p && Member(k', sid, g', q) { assert Member(k, sid, g, q); }
    assert Staying(k', pids + {p}) == Staying(k, pids) + {p};
    assert g != 0 ==> Member(k, sid, g, g);
    forall h, t, qs | GroupOk(k, t, h, qs) && h != p && (t != sid || h != g') ensures GroupOk(k', t, h, qs) {
      assert p in qs ==> Member(k, t, h, p);
      forall q | q in qs ensures Member(k', t, h, q) { assert Member(k, t, h, q); }
      assert Staying(k', qs) == Staying(k, qs);
      assert g in qs ==> Member(k, t, h, g);
    }
  }


  // ------------------------------------------------------------- changes to a table

  /** Groups of the session stay, except perhaps the one of a job that has children. */
  ghost predicate Keeps(k: Kernel, k': Kernel, sid: Sid, j: Job) {
    && (forall h, pids :: (j.nlive <= 0 || h != j.pgid) && GroupOk(k, sid, h, pids) ==> GroupOk(k', sid, h, pids))
    && StraysStay(k, k')
  }

  lemma KeptOk(k: Kernel, k': Kernel, sid: Sid, j: Job, j2: Job)
    requires Keeps(k, k', sid, j) && JobOk(k, sid, j2) && (j.nlive > 0 && j2.nlive > 0 ==> j.pgid != j2.pgid)
    ensures JobOk(k', sid, j2)
  {
    hide GroupOk, Strays, StraysStay;
    if j2.nlive == 0 { StillStrays(k, k', sid, j2.pids); }
  }

  /** One job of the table changes. */
  lemma JobChanged(k: Kernel, k': Kernel, sid: Sid, s: Session, s': Session, i: nat, j': Job)
    requires ChildrenOk(k, sid, s) && !s'.pc.Forking? && i < |s.jobs| && s'.jobs == s.jobs[i := j'] && s'.reported == s.reported
    requires Keeps(k, k', sid, s.jobs[i]) && JobOk(k', sid, j') && j'.pgid == s.jobs[i].pgid && (j'.nlive > 0 ==> s.jobs[i].nlive > 0)
    ensures ChildrenOk(k', sid, s')
  {
    ReportsStay(k, k', sid, s.reported);
    hide JobOk, ReportsOk, Keeps;
    forall m | 0 <= m < |s'.jobs| ensures JobOk(k', sid, s'.jobs[m]) {
      if m != i { KeptOk(k, k', sid, s.jobs[i], s.jobs[m]); }
    }
  }

  /** A job leaves the table, and may be reported. */
  lemma JobGone(k: Kernel, k': Kernel, sid: Sid, s: Session, s': Session, i: nat)
    requires ChildrenOk(k, sid, s) && !s'.pc.Forking? && i < |s.jobs| && s'.jobs == Without(s.jobs, i) && Keeps(k, k', sid, s.jobs[i])
    requires s'.reported == s.reported || (s'.reported == s.reported + [s.jobs[i]] && ReportOk(k', sid, s.jobs[i]))
    ensures ChildrenOk(k', sid, s')
  {
    ReportsStay(k, k', sid, s.reported);
    hide JobOk, ReportOk, Keeps;
    forall m | 0 <= m < |s'.jobs| ensures s'.jobs[m] == s.jobs[if m < i then m else m + 1] {}
    forall m | 0 <= m < |s'.jobs| ensures JobOk(k', sid, s'.jobs[m]) { KeptOk(k, k', sid, s.jobs[i], s'.jobs[m]); }
  }

  /** The table stays. */
  lemma TableStays(k: Kernel, k': Kernel, sid: Sid, s: Session, s': Session)
    requires ChildrenOk(k, sid, s) && s'.jobs == s.jobs && s'.reported == s.reported && k'.children == k.children && ProtoOk(k', sid, s')
    ensures ChildrenOk(k', sid, s')
  {
    SameChildren(k, k');
    ReportsStay(k, k', sid, s.reported);
    hide GroupOk, StraysStay, Strays, ReportsOk;
    forall i | 0 <= i < |s.jobs| ensures JobOk(k', sid, s.jobs[i]) { StillOk(k, k', sid, s.jobs[i]); }
  }

  lemma StillOk(k: Kernel, k': Kernel, sid: Sid, j: Job)
    requires JobOk(k, sid, j) && k'.children == k.children
    ensures JobOk(k', sid, j)
  {
    SameChildren(k, k');
    hide GroupOk, StraysStay;
  }

  // --------------------------------------------------------- waiting

  /** One turn of poll_job keeps a job in order, and finds that there is no child only when all that are left have strayed. */
  lemma PolledOk(k: Kernel, sid: Sid, j: Job, block: bool, st: Status)
    requires JobOk(k, sid, j) && j.nlive > 0 && CanWait(k, j.pgid, block, st)
    ensures var k' := AfterWait(k, st); var j' := Polled(j, st);
      && (st.NoChild? ==> Strays(k, sid, j.pids)) && Leaves(k, k', sid, 0) && Keeps(k, k', sid, j)
      && JobOk(k', sid, j') && (j'.nlive <= 0 ==> JobOk(k', sid, j'.(state := Done)))
  {
    hide GroupOk, Leaves, PidsIn, OnlyIn, Staying;
    if st.Exited? {
      Collect(k, sid, j.pgid, j.pids, st.pid);
      OnlyThere(k, AfterWait(k, st), sid, j);
      assert |j.pids - {st.pid}| == |j.pids| - 1;
      if |j.pids| == 1 { Single(j.pids, st.pid); }
    } else {
      NothingLeaves(k, k, sid);
      if st.NoChild? { AllStrayed(k, sid, j.pgid, j.pids); }
    }
  }

  lemma OnlyThere(k: Kernel, k': Kernel, sid: Sid, j: Job)
    requires OnlyIn(k, k', sid, j.pgid) && Leaves(k, k', sid, 0) && j.nlive > 0
    ensures Keeps(k, k', sid, j)
  {
    hide GroupOk;
  }

  lemma Single(pids: set<Pid>, p: Pid)
    requires |pids| == 1 && p in pids
    ensures pids - {p} == {}
  {
    assert |pids - {p}| == 0;
  }

  lemma AllStrayed(k: Kernel, sid: Sid, g: Pid, pids: set<Pid>)
    requires GroupOk(k, sid, g, pids) && PidsIn(k, g) == {}
    ensures Strays(k, sid, pids)
  {
    forall p | p in pids ensures p in k.children && k.children[p].owner == sid && k.children[p].strayed {
      assert Member(k, sid, g, p) && p !in Staying(k, pids);
    }
  }

  lemma NothingLeaves(k: Kernel, k': Kernel, sid: Sid)
    requires k'.children == k.children
    ensures Leaves(k, k', sid, 0) && forall j :: Keeps(k, k', sid, j)
  {
    SameChildren(k, k');
    hide GroupOk, StraysStay;
  }

  lemma WaitedFor(k: Kernel, sid: Sid, s: Session, st: Status)
    requires ChildrenOk(k, sid, s) && Enabled(k, s, Wait(st))
    ensures var k' := AfterWait(k, st); WaitsFor(s) < |s.jobs| && var j := s.jobs[WaitsFor(s)]; var j' := Polled(j, st);
      && j.nlive > 0 && Leaves(k, k', sid, 0) && Keeps(k, k', sid, j)
      && JobOk(k', sid, j') && (j'.nlive <= 0 ==> JobOk(k', sid, j'.(state := Done)))
  {
    var i := WaitsFor(s);
    var block := match s.pc case Reaping(_) => false case Waiting(_, Polling(b)) => b case _ => true;
    assert CanWait(k, s.jobs[i].pgid, block, st) && JobOk(k, sid, s.jobs[i]);
    hide ChildrenOk, CanWait, Leaves, Keeps;
    PolledOk(k, sid, s.jobs[i], block, st);
  }

  lemma WaitOk(k: Kernel, sid: Sid, s: Session, st: Status)
    requires ChildrenOk(k, sid, s) && Enabled(k, s, Wait(st))
    ensures ChildrenOk(AfterWait(k, st), sid, SessionStep(s, Wait(st))) && Leaves(k, AfterWait(k, st), sid, 0)
  {
    hide ChildrenOk, JobOk, Keeps, Leaves, CanWait;
    WaitedFor(k, sid, s, st);
    var i, s', k' := WaitsFor(s), SessionStep(s, Wait(st)), AfterWait(k, st);
    if s.pc.Killing? && st.NoChild? {
      assert s.jobs[1..] == Without(s.jobs, 0);
      JobGone(k, k', sid, s, s', 0);
    } else if s.pc.Killing? && !st.Exited? {
      assert s' == s && k' == k;
    } else {
      JobChanged(k, k', sid, s, s', i, s'.jobs[i]);
    }
  }

  // --------------------------------------------------------- forking

  lemma ForkOk(k: Kernel, sid: Sid, s: Session, pid: Pid)
    requires Book(s) && ChildrenOk(k, sid, s) && s.pc.Forking? && FreshPid(k, pid) && !Names(s, pid)
    ensures ChildrenOk(KernelStep(k, sid, s, Fork(pid)), sid, SessionStep(s, Fork(pid))) && Leaves(k, KernelStep(k, sid, s, Fork(pid)), sid, pid)
  {
    AllLive(s);
    assert s.pc.job.state.Running? && (s.pc.job.nlive == 0 <==> s.pc.job.pgid == 0);
    hide Book, GroupOk, Leaves, FreshPid, ReportsOk;
    var p, k' := s.pc.job, KernelStep(k, sid, s, Fork(pid));
    Forked(k, sid, p.pgid, p.pids, pid);
    ReportsStay(k, k', sid, s.reported) by { LeavesStrays(k, k', sid, pid); }
    forall i | 0 <= i < |s.jobs| ensures JobOk(k', sid, s.jobs[i]) { assert JobOk(k, sid, s.jobs[i]); }
    ProtoForked(k, k', sid, s, pid);
    hide JobOk, ProtoOk;
  }

  lemma ProtoForked(k: Kernel, k': Kernel, sid: Sid, s: Session, pid: Pid)
    requires s.pc.Forking? && ProtoOk(k, sid, s) && !Names(s, pid) && pid !in s.pc.job.pids && s.pc.job.state.Running?
    requires var p := s.pc.job; (p.nlive == 0 <==> p.pgid == 0) && GroupOk(k', sid, if p.pgid == 0 then pid else p.pgid, p.pids + {pid})
    ensures ProtoOk(k', sid, SessionStep(s, Fork(pid)))
  {
    hide GroupOk;
  }

  lemma LeavesStrays(k: Kernel, k': Kernel, sid: Sid, n: Pid)
    requires Leaves(k, k', sid, n)
    ensures StraysStay(k, k')
  {}

  lemma AllLive(s: Session)
    requires Book(s) && (s.pc.Forking? || s.pc.Prompt?)
    ensures forall i :: 0 <= i < |s.jobs| ==> s.jobs[i].nlive > 0
  {
    forall i | 0 <= i < |s.jobs| ensures s.jobs[i].nlive > 0 { assert !Over(s, i); }
  }

  lemma EnterOk(k: Kernel, k': Kernel, sid: Sid, s: Session, room: bool)
    requires Book(s) && ChildrenOk(k, sid, s) && s.pc.Forking? && k'.children == k.children
    ensures ChildrenOk(k', sid, EnterStep(s, room))
  {
    var s' := EnterStep(s, room);
    TableStays(k, k', sid, s, s.(pc := Prompt));
    StillOk(k, k', sid, s.pc.job);
    hide GroupOk, Strays, TableOk, StartOk, Placed;
    if s'.jobs != s.jobs {
      assert s'.jobs == s.jobs + [Entry(s)];
      assert JobOk(k', sid, Entry(s));
    }
  }

  // --------------------------------------------------------- the other steps

  /** A job that differs only in what its children do not notice. */
  predicate Alike(j: Job, j': Job) {
    j'.pgid == j.pgid && j'.nlive == j.nlive && j'.pids == j.pids && j'.forked == j.forked && j'.reaped == j.reaped && (j'.state.Done? ==> j.state.Done?)
  }

  lemma AlikeOk(k: Kernel, k': Kernel, sid: Sid, s: Session, s': Session, i: nat)
    requires ChildrenOk(k, sid, s) && k'.children == k.children && !s'.pc.Forking? && i < |s.jobs| == |s'.jobs| && s'.reported == s.reported
    requires s'.jobs == s.jobs[i := s'.jobs[i]] && Alike(s.jobs[i], s'.jobs[i])
    ensures ChildrenOk(k', sid, s')
  {
    NothingLeaves(k, k', sid);
    StillOk(k, k', sid, s.jobs[i]);
    hide Keeps, Leaves, GroupOk, Strays;
    JobChanged(k, k', sid, s, s', i, s'.jobs[i]);
  }

  lemma LeftTable(k: Kernel, k': Kernel, sid: Sid, s: Session, s': Session, i: nat)
    requires ChildrenOk(k, sid, s) && k'.children == k.children && !s'.pc.Forking? && i < |s.jobs| && s'.jobs == Without(s.jobs, i)
    requires s'.reported == s.reported || (s'.reported == s.reported + [s.jobs[i]] && s.jobs[i].state.Done?)
    ensures ChildrenOk(k', sid, s')
  {
    NothingLeaves(k, k', sid);
    StillOk(k, k', sid, s.jobs[i]);
    hide Keeps, Leaves, GroupOk, Strays;
    JobGone(k, k', sid, s, s', i);
  }

  lemma OtherOk(k: Kernel, sid: Sid, s: Session, a: Act)
    requires Book(s) && ChildrenOk(k, sid, s) && Enabled(k, s, a) && !a.Wait? && !a.Fork?
    ensures ChildrenOk(KernelStep(k, sid, s, a), sid, SessionStep(s, a)) && Leaves(k, KernelStep(k, sid, s, a), sid, 0)
  {
    SameThere(k, sid, s, a);
    hide ChildrenOk, Leaves, Book, CanWait, FreshPid, SessionStep, KernelStep;
    var k' := KernelStep(k, sid, s, a);
    NothingLeaves(k, k', sid);
    match s.pc
    case Prompt => PromptOk(k, k', sid, s, a);
    case Forking(_, _) => ForkingOk(k, sid, s, a);
    case Waiting(i, _) => WaitingOk(k, k', sid, s, a);
    case _ => LoopOk(k, k', sid, s, a);
  }

  lemma SameThere(k: Kernel, sid: Sid, s: Session, a: Act)
    requires Enabled(k, s, a) && !a.Wait? && !a.Fork?
    ensures KernelStep(k, sid, s, a).children == k.children
  {
    hide CanWait, FreshPid, SessionStep, Closes;
  }

  lemma ForkingOk(k: Kernel, sid: Sid, s: Session, a: Act)
    requires Book(s) && ChildrenOk(k, sid, s) && s.pc.Forking? && Enabled(k, s, a) && !a.Fork?
    ensures ChildrenOk(KernelStep(k, sid, s, a), sid, SessionStep(s, a))
  {
    hide ChildrenOk, Book;
    if a.Enter? {
      EnterOk(k, KernelStep(k, sid, s, a), sid, s, a.room);
    } else {
      FailedOk(k, sid, s, SessionStep(s, a));
    }
  }

  lemma WaitingOk(k: Kernel, k': Kernel, sid: Sid, s: Session, a: Act)
    requires ChildrenOk(k, sid, s) && s.pc.Waiting? && Enabled(k, s, a) && !a.Wait? && k'.children == k.children
    ensures ChildrenOk(k', sid, SessionStep(s, a))
  {
    hide ChildrenOk, CanWait;
    var i, s' := s.pc.i, SessionStep(s, a);
    if a.Finish? {
      LeftTable(k, k', sid, s, s', i);
    } else {
      assert s'.jobs == s.jobs[i := s'.jobs[i]];
      AlikeOk(k, k', sid, s, s', i);
    }
  }

  lemma LoopOk(k: Kernel, k': Kernel, sid: Sid, s: Session, a: Act)
    requires ChildrenOk(k, sid, s) && Enabled(k, s, a) && !a.Wait? && k'.children == k.children
    requires s.pc.Reaping? || s.pc.Reporting? || s.pc.Killing?
    ensures ChildrenOk(k', sid, SessionStep(s, a))
  {
    hide ChildrenOk, CanWait;
    var s' := SessionStep(s, a);
    if a.Report? {
      LeftTable(k, k', sid, s, s', s.pc.k);
    } else if s.pc.Killing? && a.Pass? {
      assert s.jobs[1..] == Without(s.jobs, 0);
      LeftTable(k, k', sid, s, s', 0);
    } else if a.KillNext? {
      AlikeOk(k, k', sid, s, s', 0);
    } else {
      TableStays(k, k', sid, s, s');
    }
  }

  lemma FailedOk(k: Kernel, sid: Sid, s: Session, s': Session)
    requires ChildrenOk(k, sid, s) && s.pc.Forking? && s' == s.(pc := Forking(s.pc.job, 0))
    ensures ChildrenOk(k, sid, s')
  {}

  lemma PromptOk(k: Kernel, k': Kernel, sid: Sid, s: Session, a: Act)
    requires Book(s) && ChildrenOk(k, sid, s) && s.pc.Prompt? && Enabled(k, s, a) && k'.children == k.children
    ensures ChildrenOk(k', sid, SessionStep(s, a))
  {
    hide ChildrenOk, Newest, TableOk, StartOk, Lively;
    var s' := SessionStep(s, a);
    if (a.Bg? || a.Fg?) && Newest(s.jobs, a.Bg?).Some? {
      AlikeOk(k, k', sid, s, s', Newest(s.jobs, a.Bg?).value);
    } else {
      TableStays(k, k', sid, s, s');
    }
  }

  lemma StepOk(k: Kernel, sid: Sid, s: Session, a: Act)
    requires Book(s) && ChildrenOk(k, sid, s) && Enabled(k, s, a) && (a.Fork? ==> !Names(s, a.pid))
    ensures ChildrenOk(KernelStep(k, sid, s, a), sid, SessionStep(s, a)) && Leaves(k, KernelStep(k, sid, s, a), sid, NewNumber(a))
  {
    if a.Wait? {
      WaitOk(k, sid, s, a.st);
    } else if a.Fork? {
      OnlyForks(k, s, a);
      ForkOk(k, sid, s, a.pid);
    } else {
      OtherOk(k, sid, s, a);
    }
  }

  /** Only exec_job forks. */
  lemma OnlyForks(k: Kernel, s: Session, a: Act)
    requires Enabled(k, s, a) && a.Fork?
    ensures s.pc.Forking? && FreshPid(k, a.pid)
  {
    hide CanWait, FreshPid;
  }
}
