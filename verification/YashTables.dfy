/**
 * Job tables and write ends: what every session keeps in order on every run,
 * whatever the children do and whatever waitpid answers.
 */
module YashTables {
  import opened Options
  import opened YashSessions
  import opened YashWorld

  // ------------------------------------------------------------- what is in order

  /** The only places where a job of the table may have no child left. */
  ghost predicate Over(s: Session, i: nat)
    requires i < |s.jobs|
  {
    match s.pc
    case Reaping(k) => i < k && s.jobs[i].state.Done?
    case Reporting(k) => i >= k && s.jobs[i].state.Done?
    case Waiting(w, mode) => i == w && mode.Top?
    case Killing(waiting) => i == 0 && waiting
    case _ => false
  }

  ghost predicate Lively(s: Session) { forall i :: 0 <= i < |s.jobs| ==> s.jobs[i].nlive > 0 || Over(s, i) }

  ghost predicate PlaceOk(s: Session) {
    && s.fg == (if s.pc.Waiting? then Some(s.pc.i) else None)
    && (s.pc.Waiting? ==> s.pc.i < |s.jobs|) && (s.pc.Reaping? || s.pc.Reporting? ==> s.pc.k <= |s.jobs|)
    && (s.pc.Killing? && s.pc.waiting ==> s.jobs != [] && s.jobs[0].infd.None?)
    && (s.pc.Gone? ==> s.jobs == [])
    && (s.pc.Forking? ==> s.pc.job.nlive >= 0 && (s.pc.job.nlive == 0 <==> s.pc.job.pgid == 0))
  }

  /** The session is where its table allows it to be. */
  ghost predicate Placed(s: Session) { Lively(s) && PlaceOk(s) }

  /** Two jobs of a table, the first before the second. */
  ghost predicate Before(a: Job, b: Job) { a.jid < b.jid && a.uid != b.uid && (a.infd.Some? ==> a.infd != b.infd) }

  ghost predicate Ordered(jobs: seq<Job>) { forall i, j :: 0 <= i < j < |jobs| ==> Before(jobs[i], jobs[j]) }

  /** Jobs are told apart for good, those that were reported included. */
  ghost predicate Numbered(s: Session) {
    && (forall i :: 0 <= i < |s.reported| ==> s.reported[i].uid < s.count)
    && (forall i, j :: 0 <= i < j < |s.reported| ==> s.reported[i].uid != s.reported[j].uid)
    && (forall i, j :: 0 <= i < |s.reported| && 0 <= j < |s.jobs| ==> s.reported[i].uid != s.jobs[j].uid)
    && (forall j :: 0 <= j < |s.jobs| ==> s.jobs[j].uid < s.count && s.jobs[j].jid > 0 && (s.jobs[j].state.Done? ==> s.jobs[j].nlive <= 0))
  }

  ghost predicate TableOk(s: Session) { Ordered(s.jobs) && |s.jobs| <= MAX_JOBS && Numbered(s) }

  /** The write ends that the table holds. */
  ghost function Infds(jobs: seq<Job>): set<Fd> { set j | j in jobs && j.infd.Some? :: j.infd.value }

  /** The write end of the job that is being started. */
  ghost predicate StartOk(s: Session) {
    s.pc.Forking? ==> s.pc.job.infd.Some? && s.pc.job.infd.value !in Infds(s.jobs) && s.pc.job.state.Running?
  }

  /** All the write ends that the session answers for. */
  ghost function Held(s: Session): set<Fd> {
    Infds(s.jobs) + if s.pc.Forking? && s.pc.job.infd.Some? then {s.pc.job.infd.value} else {}
  }

  ghost predicate Book(s: Session) { Placed(s) && TableOk(s) && StartOk(s) }

  // ------------------------------------------------------------- changes to a table

  /** An entry keeps its numbers, and its write end or none. */
  ghost predicate Succeeds(j: Job, j': Job) {
    && j'.jid == j.jid && j'.uid == j.uid && j'.pgid == j.pgid && (j'.nlive > 0 ==> j.nlive > 0)
    && (j'.infd.Some? ==> j'.infd == j.infd) && (j'.state.Done? ==> j'.nlive <= 0)
  }

  lemma Replaced(s: Session, s': Session, i: nat, j': Job)
    requires TableOk(s) && i < |s.jobs| && Succeeds(s.jobs[i], j')
    requires s'.jobs == s.jobs[i := j'] && s'.reported == s.reported && s'.count == s.count
    ensures TableOk(s')
    ensures Infds(s'.jobs) == if j'.infd == s.jobs[i].infd then Infds(s.jobs) else Infds(s.jobs) - {s.jobs[i].infd.value}
  {
    forall m, n | 0 <= m < n < |s.jobs| ensures Before(s'.jobs[m], s'.jobs[n]) { assert Before(s.jobs[m], s.jobs[n]); }
    InfdsReplaced(s.jobs, i, j');
  }

  lemma InfdsReplaced(jobs: seq<Job>, i: nat, j': Job)
    requires Ordered(jobs) && i < |jobs| && (j'.infd.Some? ==> j'.infd == jobs[i].infd)
    ensures Infds(jobs[i := j']) == if j'.infd == jobs[i].infd then Infds(jobs) else Infds(jobs) - {jobs[i].infd.value}
  {
    var jobs' := jobs[i := j'];
    forall m | 0 <= m < |jobs| && m != i ensures jobs'[m] == jobs[m] && (jobs[m].infd.Some? ==> jobs[m].infd != jobs[i].infd) {
      if m < i { assert Before(jobs[m], jobs[i]); } else { assert Before(jobs[i], jobs[m]); }
    }
    forall f | f in Infds(jobs) && (Some(f) != jobs[i].infd || j'.infd == jobs[i].infd) ensures f in Infds(jobs') {
      var m :| 0 <= m < |jobs| && jobs[m].infd == Some(f);
      assert jobs'[m] in jobs' && jobs'[m].infd == Some(f);
    }
    forall f | f in Infds(jobs') ensures f in Infds(jobs) && (j'.infd == jobs[i].infd || Some(f) != jobs[i].infd) {
      var m :| 0 <= m < |jobs'| && jobs'[m].infd == Some(f);
      assert jobs[m] in jobs && jobs[m].infd == Some(f);
    }
  }

  lemma Removed(s: Session, s': Session, i: nat)
    requires TableOk(s) && i < |s.jobs| && s'.jobs == Without(s.jobs, i) && s'.count == s.count
    requires s'.reported == s.reported || s'.reported == s.reported + [s.jobs[i]]
    ensures TableOk(s') && Infds(s'.jobs) == Infds(s.jobs) - (if s.jobs[i].infd.Some? then {s.jobs[i].infd.value} else {})
  {
    forall m | 0 <= m < |s'.jobs| ensures s'.jobs[m] == s.jobs[if m < i then m else m + 1] && s'.jobs[m].uid != s.jobs[i].uid {
      var n := if m < i then m else m + 1;
      if n < i { assert Before(s.jobs[n], s.jobs[i]); } else { assert Before(s.jobs[i], s.jobs[n]); }
    }
    forall m, n | 0 <= m < n < |s'.jobs| ensures Before(s'.jobs[m], s'.jobs[n]) {
      assert Before(s.jobs[if m < i then m else m + 1], s.jobs[if n < i then n else n + 1]);
    }
    InfdsRemoved(s.jobs, i);
  }

  lemma InfdsRemoved(jobs: seq<Job>, i: nat)
    requires Ordered(jobs) && i < |jobs|
    ensures Infds(Without(jobs, i)) == Infds(jobs) - (if jobs[i].infd.Some? then {jobs[i].infd.value} else {})
  {
    forall m | 0 <= m < |jobs| && m != i ensures jobs[m].infd.Some? ==> jobs[m].infd != jobs[i].infd {
      if m < i { assert Before(jobs[m], jobs[i]); } else { assert Before(jobs[i], jobs[m]); }
    }
    hide Ordered, Without;
    forall f ensures f in Infds(Without(jobs, i)) <==> f in Infds(jobs) && Some(f) != jobs[i].infd { InfdRemoved(jobs, i, f); }
    hide Infds;
  }

  lemma InfdRemoved(jobs: seq<Job>, i: nat, f: Fd)
    requires i < |jobs| && forall m :: 0 <= m < |jobs| && m != i && jobs[m].infd.Some? ==> jobs[m].infd != jobs[i].infd
    ensures f in Infds(Without(jobs, i)) <==> f in Infds(jobs) && Some(f) != jobs[i].infd
  {
    var jobs' := Without(jobs, i);
    if f in Infds(jobs) && Some(f) != jobs[i].infd {
      var m :| 0 <= m < |jobs| && jobs[m].infd == Some(f);
      assert jobs'[if m < i then m else m - 1] == jobs[m];
    }
    if f in Infds(jobs') {
      var m :| 0 <= m < |jobs'| && jobs'[m].infd == Some(f);
      assert jobs[if m < i then m else m + 1] == jobs'[m];
    }
  }

  /** The entry that jobs_add makes. */
  function Entry(s: Session): Job
    requires s.pc.Forking?
  {
    s.pc.job.(jid := if s.jobs == [] then 1 else s.jobs[|s.jobs| - 1].jid + 1, uid := s.count,
              infd := if s.pc.job.background then None else s.pc.job.infd)
  }

  lemma Added(s: Session, s': Session)
    requires TableOk(s) && StartOk(s) && s.pc.Forking? && |s.jobs| < MAX_JOBS
    requires s'.jobs == s.jobs + [Entry(s)] && s'.reported == s.reported && s'.count == s.count + 1
    ensures TableOk(s') && Infds(s'.jobs) == Infds(s.jobs) + (if Entry(s).infd.Some? then {Entry(s).infd.value} else {})
  {
    var j, n := Entry(s), |s.jobs|;
    forall i | 0 <= i < n ensures Before(s.jobs[i], j) {
      assert s.jobs[i] in s.jobs;
      assert i < n - 1 ==> Before(s.jobs[i], s.jobs[n - 1]);
    }
    forall m, k | 0 <= m < k < |s'.jobs| ensures Before(s'.jobs[m], s'.jobs[k]) { assert k < n ==> Before(s.jobs[m], s.jobs[k]); }
    assert forall x :: x in s'.jobs <==> x in s.jobs || x == j;
  }

  // --------------------------------------------------------- where a session gets to

  lemma StepPlaced(k: Kernel, s: Session, a: Act)
    requires Enabled(k, s, a) && Placed(s)
    ensures Placed(SessionStep(s, a))
  {
    hide SessionStep, CanWait, FreshPid, Placed;
    match s.pc
    case Reaping(_) => ReapingPlaced(k, s, a);
    case Reporting(_) => ReportingPlaced(k, s, a);
    case Prompt => PromptPlaced(k, s, a);
    case Forking(_, _) => PromptPlaced(k, s, a);
    case Waiting(_, _) => WaitingPlaced(k, s, a);
    case Killing(_) => KillingPlaced(k, s, a);
  }

  lemma ReapingPlaced(k: Kernel, s: Session, a: Act)
    requires Enabled(k, s, a) && Placed(s) && s.pc.Reaping?
    ensures Placed(SessionStep(s, a))
  {
    hide CanWait;
  }

  lemma ReportingPlaced(k: Kernel, s: Session, a: Act)
    requires Enabled(k, s, a) && Placed(s) && s.pc.Reporting?
    ensures Placed(SessionStep(s, a))
  {
    hide CanWait;
    if a.Report? { StillLively(s, SessionStep(s, a), s.pc.k); }
  }

  lemma PromptPlaced(k: Kernel, s: Session, a: Act)
    requires Enabled(k, s, a) && Placed(s) && (s.pc.Prompt? || s.pc.Forking?)
    ensures Placed(SessionStep(s, a))
  {
    hide CanWait, PidsIn;
    forall i | 0 <= i < |s.jobs| ensures s.jobs[i].nlive > 0 { assert !Over(s, i); }
    hide Lively, Over;
    var s' := SessionStep(s, a);
    assert forall i :: 0 <= i < |s'.jobs| ==> s'.jobs[i].nlive > 0;
    AllLively(s');
  }

  lemma AllLively(s: Session)
    requires forall i :: 0 <= i < |s.jobs| ==> s.jobs[i].nlive > 0
    ensures Lively(s)
  {}

  lemma WaitingPlaced(k: Kernel, s: Session, a: Act)
    requires Enabled(k, s, a) && Placed(s) && s.pc.Waiting?
    ensures Placed(SessionStep(s, a))
  {
    hide CanWait;
    if a.Finish? { OthersLively(s, SessionStep(s, a), s.pc.i); }
  }

  lemma KillingPlaced(k: Kernel, s: Session, a: Act)
    requires Enabled(k, s, a) && Placed(s) && s.pc.Killing?
    ensures Placed(SessionStep(s, a))
  {
    hide CanWait;
  }

  lemma StillLively(s: Session, s': Session, i: nat)
    requires Lively(s) && s.pc == Reporting(i) && i < |s.jobs| && s'.jobs == Without(s.jobs, i) && s'.pc == s.pc
    ensures Lively(s')
  {
    forall m | 0 <= m < |s'.jobs| ensures s'.jobs[m].nlive > 0 || Over(s', m) {
      var n := if m < i then m else m + 1;
      assert s'.jobs[m] == s.jobs[n];
      assert s.jobs[n].nlive > 0 || Over(s, n);
    }
  }

  lemma OthersLively(s: Session, s': Session, i: nat)
    requires Lively(s) && (s.pc == Waiting(i, Top) || (s.pc == Killing(true) && i == 0)) && i < |s.jobs| && s'.jobs == Without(s.jobs, i)
    ensures Lively(s')
  {
    forall m | 0 <= m < |s'.jobs| ensures s'.jobs[m].nlive > 0 || Over(s', m) {
      var n := if m < i then m else m + 1;
      assert s'.jobs[m] == s.jobs[n];
      assert !Over(s, n);
    }
  }

  // --------------------------------------------------------- the steps of a session

  ghost function Shuts(s: Session, a: Act): set<Fd>
    requires s.pc.Waiting? ==> s.pc.i < |s.jobs|
    requires s.pc.Killing? && a.KillNext? ==> s.jobs != []
    requires s.pc.Reporting? && a.Report? ==> s.pc.k < |s.jobs|
  {
    if Closes(s, a).Some? then {Closes(s, a).value} else {}
  }

  function Opens(a: Act): set<Fd> { if a.Launch? then {a.fd} else {} }

  /** Only the place changes. */
  lemma Elsewhere(s: Session, s': Session)
    requires TableOk(s) && s'.jobs == s.jobs && s'.reported == s.reported && s'.count == s.count
    ensures TableOk(s')
  {}

  lemma Polls(j: Job, st: Status)
    requires j.nlive > 0 && (j.state.Done? ==> j.nlive <= 0)
    ensures var j' := Polled(j, st); Succeeds(j, j') && Succeeds(j, if j'.nlive <= 0 then j'.(state := Done) else j') && j'.infd == j.infd
  {}

  lemma HeldBy(s: Session, i: nat)
    requires i < |s.jobs|
    ensures s.jobs[i].infd.Some? ==> s.jobs[i].infd.value in Held(s)
  {
    assert s.jobs[i] in s.jobs;
  }

  ghost predicate Steps(s: Session, a: Act, s': Session)
    requires s.pc.Waiting? ==> s.pc.i < |s.jobs|
    requires s.pc.Killing? && a.KillNext? ==> s.jobs != []
    requires s.pc.Reporting? && a.Report? ==> s.pc.k < |s.jobs|
  {
    TableOk(s') && StartOk(s') && Shuts(s, a) <= Held(s) && Held(s') == Held(s) - Shuts(s, a) + Opens(a)
  }

  lemma ReapingBook(k: Kernel, s: Session, a: Act)
    requires Book(s) && s.pc.Reaping? && Enabled(k, s, a)
    ensures Steps(s, a, SessionStep(s, a))
  {
    hide CanWait, Infds, Ordered, Polled, Succeeds;
    var i, s' := s.pc.k, SessionStep(s, a);
    if a.Wait? {
      Polls(s.jobs[i], a.st);
      hide Numbered;
      Replaced(s, s', i, s'.jobs[i]);
    } else {
      Elsewhere(s, s');
    }
  }

  lemma ReportingBook(k: Kernel, s: Session, a: Act)
    requires Book(s) && s.pc.Reporting? && Enabled(k, s, a)
    ensures Steps(s, a, SessionStep(s, a))
  {
    hide CanWait, Infds, Ordered, Without, Numbered;
    var i, s' := s.pc.k, SessionStep(s, a);
    if a.Report? {
      HeldBy(s, i);
      Removed(s, s', i);
    } else {
      Elsewhere(s, s');
    }
  }

  lemma PromptBook(k: Kernel, s: Session, a: Act)
    requires Book(s) && s.pc.Prompt? && Enabled(k, s, a) && (a.Launch? ==> a.fd !in Held(s))
    ensures Steps(s, a, SessionStep(s, a))
  {
    hide CanWait, Infds, Ordered, Newest, Numbered;
    var s' := SessionStep(s, a);
    if (a.Bg? || a.Fg?) && Newest(s.jobs, a.Bg?).Some? {
      var i := Newest(s.jobs, a.Bg?).value;
      Replaced(s, s', i, s'.jobs[i]);
    } else {
      Elsewhere(s, s');
    }
  }

  lemma ForkingBook(k: Kernel, s: Session, a: Act)
    requires Book(s) && s.pc.Forking? && Enabled(k, s, a)
    ensures Steps(s, a, SessionStep(s, a))
  {
    hide FreshPid, Infds, Ordered, Numbered, Lively;
    var s' := SessionStep(s, a);
    if s'.jobs == s.jobs { Elsewhere(s, s'); } else { Added(s, s'); }
  }

  lemma WaitingBook(k: Kernel, s: Session, a: Act)
    requires Book(s) && s.pc.Waiting? && Enabled(k, s, a)
    ensures Steps(s, a, SessionStep(s, a))
  {
    hide CanWait, Infds, Ordered, Without, Polled, Lively, Succeeds, Steps;
    var i, s' := s.pc.i, SessionStep(s, a);
    HeldBy(s, i);
    if a.Finish? {
      FinishBook(k, s);
    } else {
      if a.Wait? { Polls(s.jobs[i], a.st); } else { Ends(s.jobs[i]); }
      assert s'.jobs == s.jobs[i := s'.jobs[i]];
      hide Numbered;
      InPlace(s, a, s', i);
    }
  }

  lemma FinishBook(k: Kernel, s: Session)
    requires Book(s) && s.pc.Waiting? && Enabled(k, s, Finish)
    ensures Steps(s, Finish, SessionStep(s, Finish))
  {
    hide Infds, Ordered, Without, Lively, Numbered;
    HeldBy(s, s.pc.i);
    Removed(s, SessionStep(s, Finish), s.pc.i);
  }

  /** The job that the session waits for changes. */
  lemma InPlace(s: Session, a: Act, s': Session, i: nat)
    requires Book(s) && s.pc.Waiting? && s.pc.i == i < |s.jobs| && !s'.pc.Forking? && !a.Launch? && i < |s'.jobs|
    requires s'.jobs == s.jobs[i := s'.jobs[i]] && s'.reported == s.reported && s'.count == s.count && Succeeds(s.jobs[i], s'.jobs[i])
    requires Closes(s, a) == if s'.jobs[i].infd == s.jobs[i].infd then None else s.jobs[i].infd
    ensures Steps(s, a, s')
  {
    hide Infds, Ordered, Numbered, Lively, Closes;
    HeldBy(s, i);
    Replaced(s, s', i, s'.jobs[i]);
  }

  lemma Ends(j: Job)
    requires j.state.Done? ==> j.nlive <= 0
    ensures Succeeds(j, j) && Succeeds(j, j.(infd := None))
  {}

  lemma KillingBook(k: Kernel, s: Session, a: Act)
    requires Book(s) && s.pc.Killing? && Enabled(k, s, a)
    ensures Steps(s, a, SessionStep(s, a))
  {
    hide CanWait, Infds, Ordered, Polled, Lively, Succeeds, Without;
    var s' := SessionStep(s, a);
    if s.jobs == [] {
      hide Numbered;
      Elsewhere(s, s');
    } else if a.Pass? || a == Wait(NoChild) {
      FirstRemoved(s, s');
    } else {
      HeldBy(s, 0);
      if a.Wait? { Polls(s.jobs[0], a.st); }
      Ends(s.jobs[0]);
      hide Numbered;
      assert s'.jobs == s.jobs[0 := s'.jobs[0]];
      Replaced(s, s', 0, s'.jobs[0]);
    }
  }

  lemma FirstRemoved(s: Session, s': Session)
    requires TableOk(s) && s.jobs != [] && s' == s.(jobs := s.jobs[1..], pc := s'.pc)
    ensures TableOk(s') && Infds(s'.jobs) == Infds(s.jobs) - (if s.jobs[0].infd.Some? then {s.jobs[0].infd.value} else {})
  {
    assert s.jobs[1..] == Without(s.jobs, 0);
    Removed(s, s', 0);
  }

  lemma StepBook(k: Kernel, s: Session, a: Act)
    requires Book(s) && Enabled(k, s, a) && (a.Launch? ==> a.fd !in Held(s))
    ensures Book(SessionStep(s, a)) && Steps(s, a, SessionStep(s, a))
  {
    StepPlaced(k, s, a);
    hide SessionStep, CanWait, FreshPid, Placed, TableOk, StartOk, Steps;
    match s.pc
    case Reaping(_) => ReapingBook(k, s, a);
    case Reporting(_) => ReportingBook(k, s, a);
    case Prompt => PromptBook(k, s, a);
    case Forking(_, _) => ForkingBook(k, s, a);
    case Waiting(_, _) => WaitingBook(k, s, a);
    case Killing(_) => KillingBook(k, s, a);
    BookFrom(s, a, SessionStep(s, a));
  }

  lemma BookFrom(s: Session, a: Act, s': Session)
    requires (s.pc.Waiting? ==> s.pc.i < |s.jobs|) && (s.pc.Killing? && a.KillNext? ==> s.jobs != []) && (s.pc.Reporting? && a.Report? ==> s.pc.k < |s.jobs|)
    requires Steps(s, a, s') && Placed(s')
    ensures Book(s')
  {}

  // ------------------------------------------------------------------------- runs

  /** The write ends that the session has opened. */
  ghost function OwnFds(k: Kernel, sid: Sid): set<Fd> { set f | f in k.fds && k.fds[f] == sid }

  ghost predicate Answers(k: Kernel, sid: Sid, s: Session) { Book(s) && OwnFds(k, sid) == Held(s) }

  ghost predicate Tables(w: World) {
    && (forall sid :: sid in w.sessions ==> Answers(w.k, sid, w.sessions[sid]))
    && (forall f :: f in w.k.fds ==> w.k.fds[f] in w.sessions)
  }

  lemma StepFds(k: Kernel, sid: Sid, s: Session, a: Act)
    requires Answers(k, sid, s) && Enabled(k, s, a)
    ensures var k' := KernelStep(k, sid, s, a);
      && Answers(k', sid, SessionStep(s, a)) && (forall t :: t != sid ==> OwnFds(k', t) == OwnFds(k, t))
      && forall f :: f in k'.fds ==> k'.fds[f] == sid || (f in k.fds && k'.fds[f] == k.fds[f])
  {
    NewFd(k, s, a);
    assert a.Launch? ==> a.fd !in OwnFds(k, sid);
    StepBook(k, s, a);
    OnlyFds(k, sid, s, a);
    hide SessionStep, KernelStep, Enabled, Book, Held, TableOk, StartOk, Closes, OwnFds, Shuts;
    FdsAfter(k, KernelStep(k, sid, s, a), sid, Shuts(s, a), Opens(a));
  }

  /** A session opens and closes write ends, its own. */
  lemma FdsAfter(k: Kernel, k': Kernel, sid: Sid, shut: set<Fd>, begun: set<Fd>)
    requires shut <= OwnFds(k, sid) && begun !! k.fds.Keys
    requires forall f :: f in k'.fds <==> (f in k.fds && f !in shut) || f in begun
    requires forall f :: f in k'.fds ==> k'.fds[f] == if f in begun then sid else k.fds[f]
    ensures OwnFds(k', sid) == OwnFds(k, sid) - shut + begun && forall t :: t != sid ==> OwnFds(k', t) == OwnFds(k, t)
  {
    forall f | f in shut ensures f in k.fds && k.fds[f] == sid { assert f in OwnFds(k, sid); }
  }

  lemma NewFd(k: Kernel, s: Session, a: Act)
    requires Enabled(k, s, a)
    ensures a.Launch? ==> a.fd !in k.fds
  {
    hide CanWait, FreshPid;
  }

  /** What a step does to the write ends. */
  lemma OnlyFds(k: Kernel, sid: Sid, s: Session, a: Act)
    requires Enabled(k, s, a)
    ensures var k' := KernelStep(k, sid, s, a);
      (Opens(a) == {} || Shuts(s, a) == {}) && forall f ::
        && (f in k'.fds <==> (f in k.fds && f !in Shuts(s, a)) || f in Opens(a))
        && (f in k'.fds ==> k'.fds[f] == if f in Opens(a) then sid else k.fds[f])
  {
    hide CanWait, FreshPid, SessionStep;
  }

  lemma NextTables(w: World, e: Event)
    requires Tables(w) && Possible(w, e)
    ensures Tables(Next(w, e))
  {
    var w' := Next(w, e);
    if e.By? {
      StepFds(w.k, e.sid, w.sessions[e.sid], e.a);
      hide KernelStep, SessionStep, Enabled, Book, Held;
    } else {
      assert forall t :: OwnFds(w'.k, t) == OwnFds(w.k, t);
      if e.Accept? {
        assert OwnFds(w.k, e.sid) == {};
        assert Answers(w.k, e.sid, NEW_SESSION);
      }
      hide Book, Held, OwnFds;
    }
  }

  /** Whatever the children do, tables and write ends are in order in every state of every run. */
  lemma {:induction false} RunTables(ws: seq<World>, es: seq<Event>, i: nat)
    requires IsRun(ws, es) && i < |ws|
    ensures Tables(ws[i])
  {
    if i > 0 {
      RunTables(ws, es, i - 1);
      NextTables(ws[i - 1], es[i - 1]);
    }
  }

  /** A write end that a step closes was open and the session's own, and is closed then. */
  lemma ClosedOnce(ws: seq<World>, es: seq<Event>, i: nat)
    requires IsRun(ws, es) && i < |es| && es[i].By?
    ensures var w := ws[i]; var sid := es[i].sid; var f := Closes(w.sessions[sid], es[i].a);
      f.Some? ==> f.value in w.k.fds && w.k.fds[f.value] == sid && f.value !in ws[i + 1].k.fds
  {
    RunTables(ws, es, i);
    var w, sid := ws[i], es[i].sid;
    assert ws[i + 1] == Next(w, es[i]);
    hide IsRun;
    var s, a := w.sessions[sid], es[i].a;
    NewFd(w.k, s, a);
    assert a.Launch? ==> a.fd !in OwnFds(w.k, sid);
    StepBook(w.k, s, a);
    OnlyFds(w.k, sid, s, a);
    hide SessionStep, KernelStep, Enabled, Book, Held, Closes;
    if Closes(s, a).Some? { assert Closes(s, a).value in OwnFds(w.k, sid); }
  }

  /** A session that is gone has left no write end open, and holds no job. */
  lemma NothingLeft(ws: seq<World>, es: seq<Event>, i: nat, sid: Sid)
    requires IsRun(ws, es) && i < |ws| && sid in ws[i].sessions && ws[i].sessions[sid].pc.Gone?
    ensures ws[i].sessions[sid].jobs == [] && forall f :: f in ws[i].k.fds ==> ws[i].k.fds[f] != sid
  {
    RunTables(ws, es, i);
    hide IsRun;
    assert Answers(ws[i].k, sid, ws[i].sessions[sid]);
    forall f | f in ws[i].k.fds ensures ws[i].k.fds[f] != sid { assert f !in OwnFds(ws[i].k, sid); }
  }

  /** At the prompt no job is in the foreground, all jobs have children to wait for, and the table is in order. */
  lemma AtPrompt(ws: seq<World>, es: seq<Event>, i: nat, sid: Sid)
    requires IsRun(ws, es) && i < |ws| && sid in ws[i].sessions && ws[i].sessions[sid].pc.Prompt?
    ensures var s := ws[i].sessions[sid];
      && s.fg == None && |s.jobs| <= MAX_JOBS
      && (forall m :: 0 <= m < |s.jobs| ==> s.jobs[m].nlive > 0 && !s.jobs[m].state.Done?)
      && (forall m, n :: 0 <= m < n < |s.jobs| ==> s.jobs[m].jid < s.jobs[n].jid)
  {
    RunTables(ws, es, i);
    hide IsRun;
    var s := ws[i].sessions[sid];
    assert Answers(ws[i].k, sid, s);
    forall m | 0 <= m < |s.jobs| ensures s.jobs[m].nlive > 0 { assert !Over(s, m); }
    forall m, n | 0 <= m < n < |s.jobs| ensures s.jobs[m].jid < s.jobs[n].jid { assert Before(s.jobs[m], s.jobs[n]); }
  }

  /** A job is reported done at most once. */
  lemma ReportedOnce(ws: seq<World>, es: seq<Event>, i: nat, sid: Sid)
    requires IsRun(ws, es) && i < |ws| && sid in ws[i].sessions
    ensures var r := ws[i].sessions[sid].reported; forall m, n :: 0 <= m < n < |r| ==> r[m].uid != r[n].uid
  {
    RunTables(ws, es, i);
    hide IsRun;
    assert Answers(ws[i].k, sid, ws[i].sessions[sid]);
  }

  // ------------------------------------------------------------------- fg and bg

  /** The job is the newest of those that qualify: none that does has a greater number. */
  ghost predicate NewestOf(jobs: seq<Job>, stoppedOnly: bool, n: nat) {
    n < |jobs| && Picks(jobs[n], stoppedOnly) && forall m :: 0 <= m < |jobs| && Picks(jobs[m], stoppedOnly) ==> jobs[m].jid <= jobs[n].jid
  }

  lemma NewestIs(jobs: seq<Job>, stoppedOnly: bool)
    requires Ordered(jobs)
    ensures var n := Newest(jobs, stoppedOnly);
      if n.Some? then NewestOf(jobs, stoppedOnly, n.value) else forall m :: 0 <= m < |jobs| ==> !Picks(jobs[m], stoppedOnly)
  {
    var n := Newest(jobs, stoppedOnly);
    if n.Some? {
      forall m | 0 <= m < |jobs| && Picks(jobs[m], stoppedOnly) ensures jobs[m].jid <= jobs[n.value].jid {
        assert m < n.value ==> Before(jobs[m], jobs[n.value]);
      }
    }
  }

  /**
   * fg brings the newest job to the foreground, Running, and continues its
   * group just when it was stopped; with no job it does nothing.
   */
  lemma FgTakes(ws: seq<World>, es: seq<Event>, i: nat, sid: Sid, failed: bool) returns (n: nat)
    requires IsRun(ws, es) && i < |es| && es[i] == By(sid, Fg(failed))
    ensures sid in ws[i + 1].sessions
    ensures var s, s' := ws[i].sessions[sid], ws[i + 1].sessions[sid];
      if s.jobs == [] then s'.jobs == [] && s'.fg == None && Signals(s, es[i].a) == None
      else
        && NewestOf(s.jobs, false, n) && (forall m :: 0 <= m < |s.jobs| ==> s.jobs[m].jid <= s.jobs[n].jid)
        && s'.fg == Some(n) && s'.pc == Waiting(n, Top) && s'.jobs == s.jobs[n := s.jobs[n].(state := Running, background := false)]
        && Signals(s, es[i].a) == if s.jobs[n].state.Stopped? then Some(s.jobs[n].pgid) else None
  {
    assert Possible(ws[i], es[i]) && ws[i + 1] == Next(ws[i], es[i]);
    AtPrompt(ws, es, i, sid);
    RunTables(ws, es, i);
    hide IsRun;
    var s := ws[i].sessions[sid];
    assert Answers(ws[i].k, sid, s);
    NewestIs(s.jobs, false);
    hide Newest;
    n := if Newest(s.jobs, false).Some? then Newest(s.jobs, false).value else 0;
    assert forall m :: 0 <= m < |s.jobs| ==> Picks(s.jobs[m], false);
    assert s.jobs != [] ==> Picks(s.jobs[0], false);
  }

  /** bg continues the newest stopped job, in the background; with no stopped job it does nothing. */
  lemma BgTakes(ws: seq<World>, es: seq<Event>, i: nat, sid: Sid, failed: bool) returns (n: nat)
    requires IsRun(ws, es) && i < |es| && es[i] == By(sid, Bg(failed))
    ensures sid in ws[i + 1].sessions
    ensures var s, s' := ws[i].sessions[sid], ws[i + 1].sessions[sid];
      && s'.fg == None
      && if forall m :: 0 <= m < |s.jobs| ==> !s.jobs[m].state.Stopped? then s'.jobs == s.jobs && Signals(s, es[i].a) == None
         else
           && NewestOf(s.jobs, true, n) && s'.jobs == s.jobs[n := s.jobs[n].(state := Running, background := true)]
           && Signals(s, es[i].a) == Some(s.jobs[n].pgid)
  {
    assert Possible(ws[i], es[i]) && ws[i + 1] == Next(ws[i], es[i]);
    AtPrompt(ws, es, i, sid);
    RunTables(ws, es, i);
    hide IsRun;
    var s := ws[i].sessions[sid];
    assert Answers(ws[i].k, sid, s);
    NewestIs(s.jobs, true);
    hide Newest;
    n := if Newest(s.jobs, true).Some? then Newest(s.jobs, true).value else 0;
  }

  /** A job is entered at the end of the table, under the number after the last one, or 1 in an empty table. */
  ghost predicate Enters(s: Session, room: bool, s': Session)
    requires s.pc.Forking?
  {
    var p := s.pc.job;
    if p.nlive == 0 || |s.jobs| == 20 || !room then s'.jobs == s.jobs
    else
      && |s'.jobs| == |s.jobs| + 1
      && var j := s'.jobs[|s.jobs|];
      && s'.jobs == s.jobs + [j] && j.pgid == p.pgid && j.pids == p.pids && j.background == p.background && j.state.Running?
      && (if s.jobs == [] then j.jid == 1 else j.jid == s.jobs[|s.jobs| - 1].jid + 1) && (forall m :: 0 <= m < |s.jobs| ==> s.jobs[m].jid < j.jid)
      && s'.fg == if p.background then None else Some(|s.jobs|)
  }

  lemma EnterNumbers(ws: seq<World>, es: seq<Event>, i: nat, sid: Sid, room: bool)
    requires IsRun(ws, es) && i < |es| && es[i] == By(sid, Enter(room))
    ensures sid in ws[i + 1].sessions && ws[i].sessions[sid].pc.Forking? && Enters(ws[i].sessions[sid], room, ws[i + 1].sessions[sid])
  {
    assert |ws| == |es| + 1;
    hide IsRun, Enters, KernelStep, Book, Held;
    StepAt(ws, es, i);
    assert Answers(ws[i].k, sid, ws[i].sessions[sid]);
    EntersAs(ws[i].sessions[sid], room);
  }

  lemma EntersAs(s: Session, room: bool)
    requires Book(s) && s.pc.Forking?
    ensures Enters(s, room, EnterStep(s, room))
  {
    LastGreatest(s.jobs);
    hide Lively, Ordered, Numbered, Infds;
  }

  lemma LastGreatest(jobs: seq<Job>)
    requires Ordered(jobs)
    ensures forall m :: 0 <= m < |jobs| ==> jobs[m].jid <= jobs[|jobs| - 1].jid
  {
    forall m | 0 <= m < |jobs| - 1 ensures jobs[m].jid < jobs[|jobs| - 1].jid { assert Before(jobs[m], jobs[|jobs| - 1]); }
  }

  // --------------------------------------------------------------- how a session ends

  predicate Ending(s: Session) { s.pc.Killing? || s.pc.Gone? }

  predicate Departs(e: Event, sid: Sid) { e == By(sid, Quit) || e == By(sid, Disconnect) || e == By(sid, ShowPrompt(false)) }

  /** A session that was told to quit, or has lost its client, ends: it never reads another line. */
  lemma {:induction false} EndsForGood(ws: seq<World>, es: seq<Event>, i: nat, j: nat, sid: Sid)
    requires IsRun(ws, es) && i < j < |ws| && sid in ws[i].sessions && (Ending(ws[i].sessions[sid]) || Departs(es[i], sid))
    ensures sid in ws[j].sessions && Ending(ws[j].sessions[sid])
  {
    if i + 1 < j { EndsForGood(ws, es, i, j - 1, sid); }
    assert Possible(ws[j - 1], es[j - 1]) && ws[j] == Next(ws[j - 1], es[j - 1]);
    hide IsRun;
    EndingStep(ws[j - 1], es[j - 1], sid);
  }

  lemma EndingStep(w: World, e: Event, sid: Sid)
    requires Possible(w, e) && sid in w.sessions && (Ending(w.sessions[sid]) || Departs(e, sid))
    ensures sid in Next(w, e).sessions && Ending(Next(w, e).sessions[sid])
  {
    hide CanWait, FreshPid, KernelStep;
  }

  /** The loop of a session begins again only when it has not been told to quit. */
  lemma {:induction false} QuitHeeded(ws: seq<World>, es: seq<Event>, i: nat, sid: Sid)
    requires IsRun(ws, es) && i < |ws| && sid in ws[i].sessions
    ensures ws[i].sessions[sid].pc.Reaping? ==> !ws[i].sessions[sid].quit
  {
    if i > 0 {
      assert Possible(ws[i - 1], es[i - 1]) && ws[i] == Next(ws[i - 1], es[i - 1]);
      if sid in ws[i - 1].sessions { QuitHeeded(ws, es, i - 1, sid); }
      hide IsRun, CanWait, FreshPid;
    }
  }

  // ------------------------------------------------------------------ job states

  /** The place in the table of the job that a step waits for. */
  function WaitsFor(s: Session): nat { match s.pc case Waiting(i, _) => i case Reaping(i) => i case _ => 0 }

  /** The job that a step tells something about, or that fg or bg takes. */
  function Concerns(s: Session, a: Act): Option<nat> {
    match a
    case Wait(_) => if s.pc.Killing? then None else Some(WaitsFor(s))
    case Fg(_) => Newest(s.jobs, false)
    case Bg(_) => Newest(s.jobs, true)
    case _ => None
  }

  /** What a step says that the job with this uid is now: stopped or continued by waitpid, running by fg and bg. */
  function Told(s: Session, a: Act, uid: nat): Option<JobState> {
    var x := Concerns(s, a);
    if x.None? || x.value >= |s.jobs| || s.jobs[x.value].uid != uid then None
    else
      match a
      case Wait(StoppedBy(_)) => Some(Stopped)
      case Wait(ContinuedBy(_)) => Some(Running)
      case Fg(_) => Some(Running)
      case Bg(_) => Some(Running)
      case _ => None
  }

  /** The last that was told about a job in the first n events; a job starts running. */
  ghost function LastTold(ws: seq<World>, es: seq<Event>, n: nat, sid: Sid, uid: nat): JobState
    requires n <= |es| <= |ws|
  {
    if n == 0 then Running
    else
      var e := es[n - 1];
      var st := if e.By? && e.sid == sid && sid in ws[n - 1].sessions then Told(ws[n - 1].sessions[sid], e.a, uid) else None;
      if st.Some? then st.value else LastTold(ws, es, n - 1, sid, uid)
  }

  /** Where a job of the table was before a step, unless it has just been entered. */
  ghost predicate Was(s: Session, a: Act, j: Job) {
    || (exists x :: 0 <= x < |s.jobs| && s.jobs[x].uid == j.uid && !s.jobs[x].state.Done? &&
          j.state == if Told(s, a, j.uid).Some? then Told(s, a, j.uid).value else s.jobs[x].state)
    || (j.uid == s.count && j.state.Running?)
  }

  lemma WasThere(s: Session, a: Act, x: nat, j: Job)
    requires x < |s.jobs| && s.jobs[x].uid == j.uid && !s.jobs[x].state.Done?
    requires j.state == if Told(s, a, j.uid).Some? then Told(s, a, j.uid).value else s.jobs[x].state
    ensures Was(s, a, j)
  {}

  /** A uid is that of one job. */
  lemma OtherJob(s: Session, x: nat, y: nat)
    requires TableOk(s) && x < |s.jobs| && y < |s.jobs| && x != y
    ensures s.jobs[x].uid != s.jobs[y].uid
  {
    hide Numbered;
    assert x < y ==> Before(s.jobs[x], s.jobs[y]);
    assert y < x ==> Before(s.jobs[y], s.jobs[x]);
  }

  /** At most one job changes, the one that the step is about, and as it is told. */
  lemma InPlaceWas(s: Session, a: Act, s': Session, x: nat, y: nat)
    requires TableOk(s) && x < |s.jobs| == |s'.jobs| && y < |s'.jobs| && !s'.jobs[y].state.Done?
    requires s'.jobs == s.jobs[x := s'.jobs[x]] && s'.jobs[x].uid == s.jobs[x].uid && (Concerns(s, a).None? || Concerns(s, a) == Some(x))
    requires !s'.jobs[x].state.Done? ==>
      !s.jobs[x].state.Done? && s'.jobs[x].state == if Told(s, a, s.jobs[x].uid).Some? then Told(s, a, s.jobs[x].uid).value else s.jobs[x].state
    ensures Was(s, a, s'.jobs[y])
  {
    hide Was, TableOk, Newest;
    if x != y { OtherJob(s, x, y); }
    WasThere(s, a, y, s'.jobs[y]);
  }

  lemma RemovedWas(s: Session, a: Act, s': Session, x: nat, y: nat)
    requires x < |s.jobs| && s'.jobs == Without(s.jobs, x) && y < |s'.jobs| && !s'.jobs[y].state.Done? && (Concerns(s, a).None? || Concerns(s, a) == Some(x))
    requires TableOk(s)
    ensures Was(s, a, s'.jobs[y])
  {
    var m := if y < x then y else y + 1;
    assert s'.jobs[y] == s.jobs[m];
    hide Was, TableOk, Newest, Without;
    OtherJob(s, m, x);
    WasThere(s, a, m, s'.jobs[y]);
  }

  lemma PolledWas(s: Session, st: Status, x: nat)
    requires x < |s.jobs| && !s.pc.Killing? && WaitsFor(s) == x && !s.jobs[x].state.Done?
    ensures var j' := Polled(s.jobs[x], st); var t := Told(s, Wait(st), s.jobs[x].uid);
      j'.uid == s.jobs[x].uid && j'.state == if t.Some? then t.value else s.jobs[x].state
  {}

  lemma LoopWas(k: Kernel, s: Session, a: Act, y: nat)
    requires Book(s) && Enabled(k, s, a) && (s.pc.Reaping? || s.pc.Reporting? || s.pc.Killing?)
    requires y < |SessionStep(s, a).jobs| && !SessionStep(s, a).jobs[y].state.Done?
    ensures Was(s, a, SessionStep(s, a).jobs[y])
  {
    hide CanWait, Lively, Was, Infds, TableOk;
    var s' := SessionStep(s, a);
    if a.Report? {
      RemovedWas(s, a, s', s.pc.k, y);
    } else if s.pc.Killing? && (a.Pass? || a == Wait(NoChild)) {
      assert s.jobs[1..] == Without(s.jobs, 0);
      RemovedWas(s, a, s', 0, y);
    } else if s.pc.Reaping? && a.Wait? {
      PolledWas(s, a.st, s.pc.k);
      InPlaceWas(s, a, s', s.pc.k, y);
    } else {
      assert s'.jobs == s.jobs[0 := s'.jobs[0]];
      InPlaceWas(s, a, s', 0, y);
    }
  }

  lemma PromptWas(k: Kernel, s: Session, a: Act, y: nat)
    requires Book(s) && Enabled(k, s, a) && s.pc.Prompt?
    requires y < |SessionStep(s, a).jobs| && !SessionStep(s, a).jobs[y].state.Done?
    ensures Was(s, a, SessionStep(s, a).jobs[y])
  {
    hide CanWait, Lively, Was, Infds, TableOk, Newest;
    var s' := SessionStep(s, a);
    var n := Concerns(s, a);
    if n.Some? { InPlaceWas(s, a, s', n.value, y); } else { InPlaceWas(s, a, s', y, y); }
  }

  lemma WaitingWas(k: Kernel, s: Session, a: Act, y: nat)
    requires Book(s) && Enabled(k, s, a) && s.pc.Waiting?
    requires y < |SessionStep(s, a).jobs| && !SessionStep(s, a).jobs[y].state.Done?
    ensures Was(s, a, SessionStep(s, a).jobs[y])
  {
    var i, s' := s.pc.i, SessionStep(s, a);
    assert a.Wait? ==> !s.jobs[i].state.Done?;
    hide CanWait, Lively, Was, Infds, TableOk, Polled;
    if a.Finish? {
      RemovedWas(s, a, s', i, y);
    } else {
      if a.Wait? { PolledWas(s, a.st, i); }
      assert s'.jobs == s.jobs[i := s'.jobs[i]];
      InPlaceWas(s, a, s', i, y);
    }
  }

  lemma ForkingWas(k: Kernel, s: Session, a: Act, y: nat)
    requires Book(s) && Enabled(k, s, a) && s.pc.Forking?
    requires y < |SessionStep(s, a).jobs| && !SessionStep(s, a).jobs[y].state.Done?
    ensures Was(s, a, SessionStep(s, a).jobs[y])
  {
    hide FreshPid, Lively, Infds, TableOk;
    var s' := SessionStep(s, a);
    if y < |s.jobs| { WasThere(s, a, y, s'.jobs[y]); }
  }

  lemma StateStep(k: Kernel, s: Session, a: Act, y: nat)
    requires Book(s) && Enabled(k, s, a) && y < |SessionStep(s, a).jobs| && !SessionStep(s, a).jobs[y].state.Done?
    ensures Was(s, a, SessionStep(s, a).jobs[y])
  {
    hide Book, SessionStep, CanWait, FreshPid, Was;
    match s.pc
    case Prompt => PromptWas(k, s, a, y);
    case Waiting(_, _) => WaitingWas(k, s, a, y);
    case Forking(_, _) => ForkingWas(k, s, a, y);
    case _ => LoopWas(k, s, a, y);
  }

  lemma StepAt(ws: seq<World>, es: seq<Event>, n: nat)
    requires IsRun(ws, es) && n + 1 < |ws|
    ensures |ws| == |es| + 1 && Possible(ws[n], es[n]) && ws[n + 1] == Next(ws[n], es[n]) && Tables(ws[n])
  {
    RunTables(ws, es, n);
    hide Possible, Next, Tables;
  }

  /** Nothing has been told of a job that is yet to be entered. */
  lemma {:induction false} NotYet(ws: seq<World>, es: seq<Event>, n: nat, sid: Sid, uid: nat)
    requires IsRun(ws, es) && n < |ws| == |es| + 1 && (sid in ws[n].sessions ==> uid >= ws[n].sessions[sid].count)
    ensures LastTold(ws, es, n, sid, uid) == Running
  {
    hide IsRun, Possible, Next, Told, Book, Held;
    if n > 0 {
      StepAt(ws, es, n - 1);
      var w, e := ws[n - 1], es[n - 1];
      if sid in w.sessions {
        assert Answers(w.k, sid, w.sessions[sid]);
        CountGrows(w, e, sid);
        if e.By? && e.sid == sid { BookTold(w.sessions[sid], e.a, uid); }
      }
      NotYet(ws, es, n - 1, sid, uid);
    }
  }

  lemma CountGrows(w: World, e: Event, sid: Sid)
    requires Possible(w, e) && sid in w.sessions
    ensures sid in Next(w, e).sessions && w.sessions[sid].count <= Next(w, e).sessions[sid].count
  {
    hide CanWait, FreshPid, KernelStep;
  }

  lemma NoneTold(s: Session, a: Act, uid: nat)
    requires TableOk(s) && uid >= s.count
    ensures Told(s, a, uid).None?
  {
    hide Ordered, Newest;
  }

  /** In every state of every run, a job that is not done is what was last told about it. */
  lemma {:induction false} StateIs(ws: seq<World>, es: seq<Event>, n: nat, sid: Sid, y: nat)
    requires IsRun(ws, es) && n < |ws| && sid in ws[n].sessions && y < |ws[n].sessions[sid].jobs| && !ws[n].sessions[sid].jobs[y].state.Done?
    ensures ws[n].sessions[sid].jobs[y].state == LastTold(ws, es, n, sid, ws[n].sessions[sid].jobs[y].uid)
    decreases n, 0
  {
    assert ws[0] == BOOT;
    hide IsRun, SessionStep, KernelStep, Enabled, Told, Book, Held;
    if n > 0 {
      StepAt(ws, es, n - 1);
      var w, e, j := ws[n - 1], es[n - 1], ws[n].sessions[sid].jobs[y];
      if e.By? && e.sid == sid {
        assert Answers(w.k, sid, w.sessions[sid]);
        StateStep(w.k, w.sessions[sid], e.a, y);
        hide Next, Possible, Tables;
        StateFrom(ws, es, n - 1, sid, j);
      } else if sid in w.sessions {
        StateIs(ws, es, n - 1, sid, y);
      }
    }
  }

  lemma {:induction false} StateFrom(ws: seq<World>, es: seq<Event>, n: nat, sid: Sid, j: Job)
    requires IsRun(ws, es) && n < |es| && |ws| == |es| + 1 && sid in ws[n].sessions && es[n].By? && es[n].sid == sid
    requires Book(ws[n].sessions[sid]) && Was(ws[n].sessions[sid], es[n].a, j)
    ensures j.state == LastTold(ws, es, n + 1, sid, j.uid)
    decreases n, 1
  {
    hide IsRun, Told, Book;
    var s, a := ws[n].sessions[sid], es[n].a;
    if x :| 0 <= x < |s.jobs| && s.jobs[x].uid == j.uid && !s.jobs[x].state.Done? &&
            j.state == if Told(s, a, j.uid).Some? then Told(s, a, j.uid).value else s.jobs[x].state {
      StateIs(ws, es, n, sid, x);
    } else {
      NotYet(ws, es, n, sid, j.uid);
      BookTold(s, a, j.uid);
    }
  }

  lemma BookTold(s: Session, a: Act, uid: nat)
    requires Book(s) && uid >= s.count
    ensures Told(s, a, uid).None?
  {
    hide TableOk, Placed, Told;
    NoneTold(s, a, uid);
  }
}
