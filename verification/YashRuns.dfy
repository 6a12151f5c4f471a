/** Orderly runs of the daemon: what holds of the children for every interleaving. */
module YashRuns {
  import opened Options
  import opened YashSessions
  import opened YashWorld
  import opened YashTables
  import opened YashInvariant

  ghost predicate Inv(w: World) { Tables(w) && forall sid :: sid in w.sessions ==> ChildrenOk(w.k, sid, w.sessions[sid]) }

  lemma NoGroupZero(k: Kernel, sid: Sid, s: Session)
    requires ChildrenOk(k, sid, s)
    ensures !Names(s, 0)
  {
    forall i | 0 <= i < |s.jobs| && s.jobs[i].nlive > 0 ensures s.jobs[i].pgid != 0 { assert JobOk(k, sid, s.jobs[i]); }
  }

  lemma NextInv(w: World, e: Event)
    requires Inv(w) && Possible(w, e) && Careful(w, e)
    ensures Inv(Next(w, e))
  {
    NextTables(w, e);
    match e
    case Accept(sid) => assert ChildrenOk(w.k, sid, NEW_SESSION);
    case Exits(p) => ChildMoves(w, p, w.k.children[p].(zombie := true));
    case Leave(p) => ChildMoves(w, p, w.k.children[p].(pgid := p, strayed := true));
    case By(sid, a) =>
      var w' := Next(w, e);
      assert Answers(w.k, sid, w.sessions[sid]);
      StepOk(w.k, sid, w.sessions[sid], a);
      hide ChildrenOk, SessionStep, KernelStep, Leaves, Enabled, Tables, Book;
      forall t | t in w'.sessions ensures ChildrenOk(w'.k, t, w'.sessions[t]) {
        if t != sid {
          NoGroupZero(w.k, t, w.sessions[t]);
          Undisturbed(w.k, w'.k, sid, NewNumber(a), t, w.sessions[t]);
        }
      }
  }

  /** A child exits, or leaves for a group of its own. */
  predicate Moves(c0: Child, p: Pid, c: Child) { c == c0.(zombie := true) || (c0.pgid != p && c == c0.(pgid := p, strayed := true)) }

  lemma ChildMoves(w: World, p: Pid, c: Child)
    requires Inv(w) && p in w.k.children && Moves(w.k.children[p], p, c)
    ensures var w' := WithChild(w, p, c); forall sid :: sid in w.sessions ==> ChildrenOk(w'.k, sid, w.sessions[sid])
  {
    var w' := WithChild(w, p, c);
    forall sid | sid in w.sessions ensures ChildrenOk(w'.k, sid, w.sessions[sid]) {
      MovedAway(w.k, w'.k, p, c, sid + 1);
      NoGroupZero(w.k, sid, w.sessions[sid]);
      hide ChildrenOk, Leaves;
      Undisturbed(w.k, w'.k, sid + 1, 0, sid, w.sessions[sid]);
    }
  }

  lemma MovedAway(k: Kernel, k': Kernel, p: Pid, c: Child, sid: Sid)
    requires p in k.children && k' == k.(children := k.children[p := c]) && Moves(k.children[p], p, c)
    ensures Leaves(k, k', sid, 0)
  {
    forall g, t, pids | GroupOk(k, t, g, pids) ensures GroupOk(k', t, g, pids) { GroupKept(k, k', p, c, t, g, pids); }
    hide GroupOk;
  }

  lemma GroupKept(k: Kernel, k': Kernel, p: Pid, c: Child, t: Sid, g: Pid, pids: set<Pid>)
    requires p in k.children && k' == k.(children := k.children[p := c]) && Moves(k.children[p], p, c) && GroupOk(k, t, g, pids)
    ensures GroupOk(k', t, g, pids)
  {
    assert p in pids ==> Member(k, t, g, p);
    assert c.pgid != k.children[p].pgid ==> g != p;
    forall q | q in pids ensures Member(k', t, g, q) { assert Member(k, t, g, q); }
    forall q ensures q in PidsIn(k', g) <==> q in Staying(k', pids) { assert q in PidsIn(k, g) <==> q in Staying(k, pids); }
    assert PidsIn(k', g) == Staying(k', pids);
  }

  lemma {:induction false} RunInv(ws: seq<World>, es: seq<Event>, i: nat)
    requires IsOrderly(ws, es) && i < |ws|
    ensures Inv(ws[i])
  {
    if i > 0 {
      RunInv(ws, es, i - 1);
      NextInv(ws[i - 1], es[i - 1]);
    }
  }

  // ------------------------------------------------------- runs in which children stay

  ghost predicate NoneStrayed(k: Kernel) { forall p :: p in k.children ==> !k.children[p].strayed }

  /** As long as children stay in their groups, a number that a job goes by is in use. */
  lemma UnnamedFresh(w: World, n: Pid)
    requires Inv(w) && NoneStrayed(w.k) && FreshPid(w.k, n)
    ensures Unnamed(w, n)
  {
    forall t | t in w.sessions ensures !Names(w.sessions[t], n) {
      var s := w.sessions[t];
      forall i | 0 <= i < |s.jobs| && s.jobs[i].nlive > 0 ensures s.jobs[i].pgid != n {
        assert JobOk(w.k, t, s.jobs[i]);
        SomeoneThere(w.k, t, s.jobs[i].pgid, s.jobs[i].pids);
      }
      if s.pc.Forking? && s.pc.job.nlive > 0 { SomeoneThere(w.k, t, s.pc.job.pgid, s.pc.job.pids); }
    }
  }

  lemma SomeoneThere(k: Kernel, sid: Sid, g: Pid, pids: set<Pid>)
    requires GroupOk(k, sid, g, pids) && NoneStrayed(k)
    ensures PidsIn(k, g) == pids != {}
  {
    forall p | p in pids ensures p in Staying(k, pids) { assert Member(k, sid, g, p); }
  }

  /** A run in which no child changes its group is orderly: nothing about numbers needs to be taken for granted. */
  lemma {:induction false} StayingOrderly(ws: seq<World>, es: seq<Event>, i: nat)
    requires IsRun(ws, es) && i < |ws| && forall k :: 0 <= k < |es| ==> !es[k].Leave? && !es[k].Join?
    ensures Inv(ws[i]) && NoneStrayed(ws[i].k) && forall k :: 0 <= k < i ==> Careful(ws[k], es[k])
    ensures i == |es| ==> IsOrderly(ws, es)
  {
    hide Inv, Careful;
    if i == 0 {
      BootOk();
    } else {
      StayingOrderly(ws, es, i - 1);
      StayingCareful(ws[i - 1], es[i - 1]);
      NextInv(ws[i - 1], es[i - 1]);
    }
  }

  lemma BootOk()
    ensures Inv(BOOT) && NoneStrayed(BOOT.k)
  {}

  lemma StayingCareful(w: World, e: Event)
    requires Inv(w) && NoneStrayed(w.k) && Possible(w, e) && !e.Leave? && !e.Join?
    ensures Careful(w, e) && NoneStrayed(Next(w, e).k)
  {
    hide Inv, Unnamed, SessionStep, CanWait, Closes;
    if e.By? && e.a.Fork? { UnnamedFresh(w, e.a.pid); }
  }

  lemma NoStrays(k: Kernel, sid: Sid, pids: set<Pid>)
    requires NoneStrayed(k) && Strays(k, sid, pids)
    ensures pids == {}
  {}

  // ------------------------------------------------------------ what the runs promise

  /** A job of a session of an orderly run is in order. */
  lemma JobIn(ws: seq<World>, es: seq<Event>, i: nat, sid: Sid, j: Job)
    requires IsOrderly(ws, es) && i < |ws| && sid in ws[i].sessions && j in ws[i].sessions[sid].jobs
    ensures JobOk(ws[i].k, sid, j)
  {
    RunInv(ws, es, i);
    hide IsOrderly;
    var s := ws[i].sessions[sid];
    var m :| 0 <= m < |s.jobs| && s.jobs[m] == j;
    assert AllOk(ws[i].k, sid, s.jobs);
  }

  /** waitpid says that there is no child only when all the children of the job that are left have left its group. */
  lemma NoChildOnlyStrays(ws: seq<World>, es: seq<Event>, i: nat)
    requires IsOrderly(ws, es) && i < |es| && es[i].By? && es[i].a == Wait(NoChild)
    ensures var s := ws[i].sessions[es[i].sid]; var n := WaitsFor(s);
      n < |s.jobs| && s.jobs[n].pids != {} && Strays(ws[i].k, es[i].sid, s.jobs[n].pids)
  {
    var w, sid := ws[i], es[i].sid;
    var s := w.sessions[sid];
    assert Possible(w, es[i]);
    var j := s.jobs[WaitsFor(s)];
    JobIn(ws, es, i, sid, j);
    hide IsOrderly;
    AllStrayed(w.k, sid, j.pgid, j.pids);
  }

  /** A group that a step signals is empty only when all the children of its job that are left have left it. */
  lemma SignalsTo(ws: seq<World>, es: seq<Event>, i: nat) returns (pids: set<Pid>)
    requires IsOrderly(ws, es) && i < |es| && es[i].By? && Signals(ws[i].sessions[es[i].sid], es[i].a).Some?
    ensures var g := Signals(ws[i].sessions[es[i].sid], es[i].a).value;
      GroupOk(ws[i].k, es[i].sid, g, pids) && (PidsIn(ws[i].k, g) == {} ==> Strays(ws[i].k, es[i].sid, pids))
  {
    RunInv(ws, es, i);
    var w, sid := ws[i], es[i].sid;
    hide IsOrderly;
    assert Answers(w.k, sid, w.sessions[sid]);
    pids := Signalled(w.k, sid, w.sessions[sid], es[i].a);
    var g := Signals(w.sessions[sid], es[i].a).value;
    if PidsIn(w.k, g) == {} { AllStrayed(w.k, sid, g, pids); }
  }

  lemma Signalled(k: Kernel, sid: Sid, s: Session, a: Act) returns (pids: set<Pid>)
    requires Book(s) && ChildrenOk(k, sid, s) && Enabled(k, s, a) && Signals(s, a).Some?
    ensures GroupOk(k, sid, Signals(s, a).value, pids)
  {
    hide TableOk, StartOk, ReportsOk, GroupOk, Strays;
    if s.pc.Forking? {
      assert JobOk(k, sid, s.pc.job);
      pids := s.pc.job.pids;
    } else {
      var i := match s.pc case Prompt => Newest(s.jobs, a.Bg?).value case Waiting(i, _) => i case _ => 0;
      assert JobOk(k, sid, s.jobs[i]) && !Over(s, i);
      pids := s.jobs[i].pids;
    }
  }

  /** At the prompt the count of a job is that of its children. */
  lemma CountExact(ws: seq<World>, es: seq<Event>, i: nat, sid: Sid, m: nat)
    requires IsOrderly(ws, es) && i < |ws| && sid in ws[i].sessions && ws[i].sessions[sid].pc.Prompt? && m < |ws[i].sessions[sid].jobs|
    ensures var j := ws[i].sessions[sid].jobs[m]; j.nlive == |j.pids| && j.forked == j.reaped + j.pids
  {
    AtPrompt(ws, es, i, sid);
    JobIn(ws, es, i, sid, ws[i].sessions[sid].jobs[m]);
  }

  /** When a job has been reported done, every process forked for it has been reaped, but for those that have left its group. */
  lemma DoneReaped(ws: seq<World>, es: seq<Event>, i: nat, sid: Sid, m: nat)
    requires IsOrderly(ws, es) && i < |ws| && sid in ws[i].sessions && m < |ws[i].sessions[sid].reported|
    ensures var r := ws[i].sessions[sid].reported[m];
      r.forked == r.reaped + r.pids && Strays(ws[i].k, sid, r.pids) && (NoneStrayed(ws[i].k) ==> r.forked == r.reaped)
  {
    RunInv(ws, es, i);
    hide IsOrderly, Tables;
    var s := ws[i].sessions[sid];
    assert ReportOk(ws[i].k, sid, s.reported[m]);
    if NoneStrayed(ws[i].k) { NoStrays(ws[i].k, sid, s.reported[m].pids); }
  }
}
