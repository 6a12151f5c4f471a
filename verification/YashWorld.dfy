/** The daemon as a whole: its sessions and their children, and the runs of them. */
module YashWorld {
  import opened Options
  import opened YashSessions

  datatype World = World(k: Kernel, sessions: map<Sid, Session>)

  const BOOT := World(Kernel(map[], map[]), map[])

  /**
   * A client is accepted, a session takes a step, a child exits, or it
   * moves to a process group of its own (setsid, setpgid) or to another.
   */
  datatype Event = Accept(sid: Sid) | By(sid: Sid, a: Act) | Exits(pid: Pid) | Leave(pid: Pid) | Join(pid: Pid, g: Pid)

  /** The child is running. */
  predicate Alive(k: Kernel, p: Pid) { p in k.children && !k.children[p].zombie }

  ghost predicate Possible(w: World, e: Event) {
    match e
    case Accept(sid) => sid !in w.sessions
    case By(sid, a) => sid in w.sessions && Enabled(w.k, w.sessions[sid], a)
    case Exits(p) => p in w.k.children
    case Leave(p) => Alive(w.k, p) && w.k.children[p].pgid != p
    case Join(p, g) => Alive(w.k, p) && w.k.children[p].pgid != g && PidsIn(w.k, g) != {}
  }

  ghost function WithChild(w: World, p: Pid, c: Child): World { w.(k := w.k.(children := w.k.children[p := c])) }

  ghost function Next(w: World, e: Event): World
    requires Possible(w, e)
  {
    match e
    case Accept(sid) => w.(sessions := w.sessions[sid := NEW_SESSION])
    case By(sid, a) =>
      var s := w.sessions[sid];
      World(KernelStep(w.k, sid, s, a), w.sessions[sid := SessionStep(s, a)])
    case Exits(p) => WithChild(w, p, w.k.children[p].(zombie := true))
    case Leave(p) => WithChild(w, p, w.k.children[p].(pgid := p, strayed := true))
    case Join(p, g) => WithChild(w, p, w.k.children[p].(pgid := g, strayed := true))
  }

  /** A run of the daemon, from the start. */
  ghost predicate IsRun(ws: seq<World>, es: seq<Event>) {
    && |ws| == |es| + 1 && ws[0] == BOOT
    && forall i :: 0 <= i < |es| ==> Possible(ws[i], es[i]) && ws[i + 1] == Next(ws[i], es[i])
  }

  /** No job that has children left to wait for goes by the number. */
  ghost predicate Unnamed(w: World, n: Pid) { forall t :: t in w.sessions ==> !Names(w.sessions[t], n) }

  /**
   * What the daemon takes for granted: no child joins another job's group,
   * and fork does not reuse the number of a group that a job still goes by.
   */
  ghost predicate Careful(w: World, e: Event) {
    match e
    case Join(_, _) => false
    case By(_, a) => a.Fork? ==> Unnamed(w, a.pid)
    case _ => true
  }

  /** A run in which what the daemon takes for granted holds. */
  ghost predicate IsOrderly(ws: seq<World>, es: seq<Event>) {
    IsRun(ws, es) && forall i :: 0 <= i < |es| ==> Careful(ws[i], es[i])
  }
}
