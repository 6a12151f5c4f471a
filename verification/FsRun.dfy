/**
 * Whole runs of the file system: sessions of operations on handles, and
 * mounting the device again.
 */
module FsRun {
  import opened Bytes
  import opened Directory
  import opened Disk
  import opened Layout
  import opened InodeTable
  import opened World
  import opened FsOps
  import opened FsCreate
  import opened FileSys
  import Spec = FsSpec
  import History = FsHistory

  /** Names are C strings and sizes are off_t values. */
  predicate Callable<H>(op: Spec.Op<H>) {
    op.Create? ==> 0 !in op.name && op.length <= INT_MAX
  }

  predicate NamesOnly<H>(op: Spec.Op<H>) { op.Create? || op.Open? || op.Remove? }

  /**
   * What an operation needs of the device and does to it: when a create
   * succeeds and what it takes, what a file that is gone gives back, and
   * which operations leave the device's map alone.
   */
  ghost predicate Uses(s: Spec.Fs<File>, op: Spec.Op<File>, r: Spec.Result<File>, s': Spec.Fs<File>, cap: Capacity, cap': Capacity) {
    && cap'.slots == cap.slots
    && match op
       case Create(name, length) =>
         && r == Spec.Status(Creatable(cap, s.names.Keys, name, length))
         && (if r.ok then Took(cap.bits, cap'.bits, length) else Leaked(cap.bits, cap'.bits, length))
       case Remove(_) => Settled(s.files, s'.files, cap.bits, cap'.bits)
       case Close(_) => Settled(s.files, s'.files, cap.bits, cap'.bits)
       case _ => cap' == cap
  }

  /** One call, whichever it is, does what the specification says, and a create succeeds whenever there is room. */
  method Execute(fs: FileSystem, op: Spec.Op<File>) returns (r: Spec.Result<File>)
    requires fs.Valid() && fs.refs == multiset{} && Callable(op) && (NamesOnly(op) || op.h in fs.handles)
    modifies fs, fs.freeMap.words, (set i | i in fs.openInodes), fs.handles
    ensures fs.Valid() && fs.refs == multiset{} && Spec.Step(old(Abs(fs.Cur())), op, r, Abs(fs.Cur()))
    ensures forall i :: i in fs.openInodes ==> i in old(fs.openInodes) || fresh(i)
    ensures r.Opened? ==> fresh(r.h)
    ensures fs.handles == old(fs.handles) - (if op.Close? then {op.h} else {}) + (if r.Opened? then {r.h} else {})
    ensures Uses(old(Abs(fs.Cur())), op, r, Abs(fs.Cur()), old(Cap(fs.Cur())), Cap(fs.Cur()))
  {
    hide StateOk, Abs, Cap, Spec.Step, Creatable, Took, Leaked, Settled;
    AbsHandles(fs.Cur());
    assert fs.Cur().hm == HandleMapOf(fs.handles);
    match op
    case Create(name, length) => var ok := fs.FilesysCreate(name, length); r := Spec.Status(ok);
    case Open(name) =>
      var file := fs.FilesysOpen(name);
      if file == null { r := Spec.Null; } else { var h: File := file; r := Spec.Opened(h); }
    case Remove(name) => var ok := fs.FilesysRemove(name); r := Spec.Status(ok);
    case Reopen(h) => HandleListed(fs.Cur(), h); var file := fs.FileReopen(h); r := Spec.Opened(file);
    case Read(h, size) => var bytes := fs.FileRead(h, size); r := Spec.Bytes(bytes);
    case ReadAt(h, size, ofs) => var bytes := fs.FileReadAt(h, size, ofs); r := Spec.Bytes(bytes);
    case Write(h, data) => assert Data(data, |data|) == data; var n := fs.FileWrite(h, data, |data|); r := Spec.Count(n);
    case WriteAt(h, data, ofs) => assert Data(data, |data|) == data; var n := fs.FileWriteAt(h, data, |data|, ofs); r := Spec.Count(n);
    case Seek(h, pos) => fs.FileSeek(h, pos); r := Spec.Void;
    case Deny(h) => HandleListed(fs.Cur(), h); fs.FileDenyWrite(h); r := Spec.Void;
    case Allow(h) => HandleListed(fs.Cur(), h); fs.FileAllowWrite(h); r := Spec.Void;
    case Close(h) => HandleAbs(fs.Cur(), h); HandleListed(fs.Cur(), h); fs.FileClose(h); r := Spec.Void;
  }

  // ------------------------------------------------------------ sessions

  /** A script names a handle by the order in which it was opened. */
  predicate Resolvable(op: Spec.Op<nat>, fds: seq<File>) {
    NamesOnly(op) || op.h < |fds|
  }

  function Resolve(op: Spec.Op<nat>, fds: seq<File>): Spec.Op<File>
    requires Resolvable(op, fds)
  {
    match op
    case Create(name, length) => Spec.Create(name, length)
    case Open(name) => Spec.Open(name)
    case Remove(name) => Spec.Remove(name)
    case Reopen(h) => Spec.Reopen(fds[h])
    case Read(h, size) => Spec.Read(fds[h], size)
    case ReadAt(h, size, ofs) => Spec.ReadAt(fds[h], size, ofs)
    case Write(h, data) => Spec.Write(fds[h], data)
    case WriteAt(h, data, ofs) => Spec.WriteAt(fds[h], data, ofs)
    case Seek(h, pos) => Spec.Seek(fds[h], pos)
    case Deny(h) => Spec.Deny(fds[h])
    case Allow(h) => Spec.Allow(fds[h])
    case Close(h) => Spec.Close(fds[h])
  }

  /** The operation is one the caller may make: its handle, if any, is open. */
  predicate Issued(op: Spec.Op<nat>, fds: seq<File>, closed: set<File>) {
    Resolvable(op, fds) && Callable(op) && (NamesOnly(op) || fds[op.h] !in closed)
  }

  /** The handles that are open are those that were opened and not closed. */
  ghost predicate Live(fs: FileSystem, fds: seq<File>, closed: set<File>)
    reads fs
  {
    fs.handles == (set f | f in fds && f !in closed)
  }

  /** The handles that were opened so far, and those of them that were closed. */
  function Fds(events: seq<Spec.Event<File>>): seq<File> {
    if events == [] then []
    else
      var e := events[|events| - 1];
      Fds(events[..|events| - 1]) + if e.r.Opened? then [e.r.h] else []
  }

  function ClosedFds(events: seq<Spec.Event<File>>): set<File> {
    if events == [] then {}
    else
      var e := events[|events| - 1];
      ClosedFds(events[..|events| - 1]) + if e.op.Close? then {e.op.h} else {}
  }

  /** The operation may be made after these events, and this one is it. */
  predicate Makes(op: Spec.Op<nat>, events: seq<Spec.Event<File>>, e: Spec.Event<File>) {
    Issued(op, Fds(events), ClosedFds(events)) && e.op == Resolve(op, Fds(events))
  }

  /**
   * The events are the operations of the script, in order and with the
   * handles they name; the only ones missing are those that may not be
   * made when their turn comes.
   */
  predicate Follows(script: seq<Spec.Op<nat>>, events: seq<Spec.Event<File>>) {
    if script == [] then events == []
    else
      var n, m := |script| - 1, |events| - 1;
      || (!Issued(script[n], Fds(events), ClosedFds(events)) && Follows(script[..n], events))
      || (m >= 0 && Makes(script[n], events[..m], events[m]) && Follows(script[..n], events[..m]))
  }

  lemma Skipped(script: seq<Spec.Op<nat>>, n: nat, events: seq<Spec.Event<File>>)
    requires n < |script| && Follows(script[..n], events) && !Issued(script[n], Fds(events), ClosedFds(events))
    ensures Follows(script[..n + 1], events)
  {
    assert script[..n + 1][..n] == script[..n];
  }

  lemma Made(script: seq<Spec.Op<nat>>, n: nat, events: seq<Spec.Event<File>>, e: Spec.Event<File>)
    requires n < |script| && Follows(script[..n], events) && Makes(script[n], events, e)
    ensures Follows(script[..n + 1], events + [e])
    ensures Fds(events + [e]) == (if e.r.Opened? then Fds(events) + [e.r.h] else Fds(events))
    ensures ClosedFds(events + [e]) == (if e.op.Close? then ClosedFds(events) + {e.op.h} else ClosedFds(events))
  {
    assert script[..n + 1][..n] == script[..n] && (events + [e])[..|events|] == events;
  }

  /** The free map and the directory slots of each state of a run: each operation uses them as it should. */
  ghost predicate UsedAlong(states: seq<Spec.Fs<File>>, events: seq<Spec.Event<File>>, caps: seq<Capacity>) {
    && |states| == |caps| == |events| + 1
    && forall k :: 0 <= k < |events| ==> Uses(states[k], events[k].op, events[k].r, states[k + 1], caps[k], caps[k + 1])
  }

  /**
   * Any script, run on the sector-level file system, is the run of the
   * specification that the script asks for: it starts and ends where the
   * file system does, and its events are the script's operations, each
   * with its result. Only operations that may not be made are left out.
   * Sectors are taken and given back as the operations of that run do.
   */
  method Session(fs: FileSystem, script: seq<Spec.Op<nat>>)
    returns (results: seq<Spec.Result<File>>, ghost states: seq<Spec.Fs<File>>, ghost events: seq<Spec.Event<File>>, ghost caps: seq<Capacity>)
    requires fs.Valid() && fs.refs == multiset{} && fs.handles == {}
    modifies fs, fs.freeMap.words, (set i | i in fs.openInodes), fs.handles
    ensures fs.Valid() && fs.refs == multiset{}
    ensures |states| == |events| + 1 && Spec.IsRun(states, events) && states[0] == old(Abs(fs.Cur())) && states[|events|] == Abs(fs.Cur())
    ensures Follows(script, events)
    ensures UsedAlong(states, events, caps) && caps[0] == old(Cap(fs.Cur())) && caps[|events|] == Cap(fs.Cur())
    ensures |results| == |events| && forall k :: 0 <= k < |results| ==> results[k] == events[k].r
    ensures History.AllAnswered(states[0], events)
  {
    hide History.AllAnswered, StateOk, Abs, Cap, Uses, Spec.Step, Spec.Valid, Follows, Fds, ClosedFds, Resolve, Spec.IsRun, Live, UsedAlong;
    AbsValid(fs.Cur());
    NoHandles(fs);
    var fds: seq<File>, closed: set<File> := [], {};
    results, states, events, caps := [], [Abs(fs.Cur())], [], [Cap(fs.Cur())];
    Nothing(Abs(fs.Cur()), Cap(fs.Cur()));
    NoneLive(fs);
    for n := 0 to |script|
      invariant fs.Valid() && fs.refs == multiset{} && Live(fs, fds, closed) && closed <= (set f | f in fds)
      invariant forall i :: i in fs.openInodes ==> i in old(fs.openInodes) || fresh(i)
      invariant forall f :: f in fs.handles ==> fresh(f)
      invariant |states| == |events| + 1 && Spec.IsRun(states, events) && states[0] == old(Abs(fs.Cur())) && states[|events|] == Abs(fs.Cur())
      invariant |caps| == |states| && UsedAlong(states, events, caps) && caps[0] == old(Cap(fs.Cur())) && caps[|events|] == Cap(fs.Cur())
      invariant Follows(script[..n], events) && fds == Fds(events) && closed == ClosedFds(events)
      invariant |results| == |events| && forall k :: 0 <= k < |results| ==> results[k] == events[k].r
    {
      if Issued(script[n], fds, closed) {
        var op := Issue(script[n], fds, closed);
        var r := Perform(fs, op, fds, closed);
        assert Makes(script[n], events, Spec.Event(op, r));
        Made(script, n, events, Spec.Event(op, r));
        RunExtended(states, events, Spec.Event(op, r), Abs(fs.Cur()));
        UsedMore(states, events, caps, Spec.Event(op, r), Abs(fs.Cur()), Cap(fs.Cur()));
        caps := caps + [Cap(fs.Cur())];
        results, states, events := results + [r], states + [Abs(fs.Cur())], events + [Spec.Event(op, r)];
        fds := if r.Opened? then fds + [r.h] else fds;
        closed := if op.Close? then closed + {op.h} else closed;
      } else {
        Skipped(script, n, events);
      }
    }
    assert script[..|script|] == script;
    History.AllAnswers(states, events);
  }

  lemma NoHandles(fs: FileSystem)
    requires fs.Valid() && fs.handles == {}
    ensures Abs(fs.Cur()).handles == map[]
  {
    hide StateOk;
    AbsHandles(fs.Cur());
  }

  /** One operation of a session; a handle that was opened is one of those that are open. */
  method Perform(fs: FileSystem, op: Spec.Op<File>, ghost fds: seq<File>, ghost closed: set<File>) returns (r: Spec.Result<File>)
    requires fs.Valid() && fs.refs == multiset{} && Live(fs, fds, closed) && closed <= (set f | f in fds)
    requires Callable(op) && (NamesOnly(op) || (op.h in fds && op.h !in closed))
    modifies fs, fs.freeMap.words, (set i | i in fs.openInodes), fs.handles
    ensures fs.Valid() && fs.refs == multiset{} && Spec.Step(old(Abs(fs.Cur())), op, r, Abs(fs.Cur()))
    ensures forall i :: i in fs.openInodes ==> i in old(fs.openInodes) || fresh(i)
    ensures forall f :: f in fs.handles ==> f in old(fs.handles) || fresh(f)
    ensures var fds' := if r.Opened? then fds + [r.h] else fds; var closed' := if op.Close? then closed + {op.h} else closed;
      Live(fs, fds', closed') && closed' <= (set f | f in fds')
    ensures Uses(old(Abs(fs.Cur())), op, r, Abs(fs.Cur()), old(Cap(fs.Cur())), Cap(fs.Cur()))
  {
    hide StateOk, Abs, Cap, Uses, Spec.Step;
    r := Execute(fs, op);
  }

  lemma Nothing(s: Spec.Fs<File>, cap: Capacity)
    requires Spec.Valid(s)
    ensures Follows([], []) && Fds([]) == [] && ClosedFds([]) == {} && Spec.IsRun([s], []) && UsedAlong([s], [], [cap])
  {}

  lemma UsedMore(states: seq<Spec.Fs<File>>, events: seq<Spec.Event<File>>, caps: seq<Capacity>, e: Spec.Event<File>, s: Spec.Fs<File>, cap: Capacity)
    requires UsedAlong(states, events, caps) && Uses(states[|events|], e.op, e.r, s, caps[|events|], cap)
    ensures UsedAlong(states + [s], events + [e], caps + [cap])
  {
    hide Uses;
  }

  lemma NoneLive(fs: FileSystem)
    requires fs.handles == {}
    ensures Live(fs, [], {})
  {}

  lemma RunExtended(states: seq<Spec.Fs<File>>, events: seq<Spec.Event<File>>, e: Spec.Event<File>, s: Spec.Fs<File>)
    requires Spec.IsRun(states, events) && |states| == |events| + 1 && Spec.Step(states[|events|], e.op, e.r, s)
    ensures Spec.IsRun(states + [s], events + [e])
  {
    hide Spec.Step, Spec.Valid;
  }

  /** The operation that a line of the script stands for. */
  method Issue(op: Spec.Op<nat>, fds: seq<File>, closed: set<File>) returns (r: Spec.Op<File>)
    requires Issued(op, fds, closed)
    ensures Resolvable(op, fds) && r == Resolve(op, fds) && Callable(r) && (NamesOnly(r) || (r.h in fds && r.h !in closed))
  {
    r := Resolve(op, fds);
  }

  // ------------------------------------------------------------ remounting

  /** What the device alone holds: the files that a name leads to. */
  lemma OnlyLinkedSurvive(w: World)
    requires StateOk(w)
    ensures DiskOk(w.disk, w.bits, {})
    ensures AbsOf(w.disk, {}, map[]) == Spec.Collect(Abs(w).(handles := map[]))
  {
    hide TableOk, Bound, HandlesOk, DiskOk;
    Forgotten(w.disk, w.bits, Held(w.tab));
    AllPlaced(w.disk, w.bits, Held(w.tab));
    AllPlaced(w.disk, w.bits, {});
    RootsOk(w.disk, w.bits, Held(w.tab));
    RootsOk(w.disk, w.bits, {});
    FilesForgotten(w.disk, Held(w.tab));
    NamesValues(RootSlots(w.disk));
    hide RootOk, OwnedBy, Files, UsedSectors, Names, Spec.Collect;
    Spec.CollectNamed(Abs(w).(handles := map[]), Files(w.disk, {}));
  }

  lemma FilesForgotten(d: Sectors, held: set<nat>)
    requires RootOk(d, held) && forall h :: h in OwnedBy(d, held) ==> Placed(d, h)
    requires RootOk(d, {}) && forall h :: h in OwnedBy(d, {}) ==> Placed(d, h)
    ensures Files(d, {}).Keys == UsedSectors(RootSlots(d)) <= Files(d, held).Keys
    ensures forall h :: h in Files(d, {}) ==> Files(d, held)[h] == Files(d, {})[h]
  {
    hide DirOk, RootSlots, UsedSectors, FileBytes;
  }

  /**
   * filesys_done and filesys_init, at any moment between two operations:
   * the same map, and exactly the files that have a name.
   */
  method Remount(fs: FileSystem) returns (again: FileSystem)
    requires fs.Valid()
    ensures fresh(again) && again.Valid() && again.disk == old(fs.disk) && again.freeMap.Bits() == old(fs.freeMap.Bits())
    ensures again.View() == Spec.Collect(old(fs.View()).(handles := map[]))
  {
    hide StateOk, Abs, DiskOk, AbsOf, Spec.Collect;
    OnlyLinkedSurvive(fs.Cur());
    again := new FileSystem.Mount(fs.disk, fs.freeMap.Bits());
  }
}
