/**
 * What the file system is for, without sectors: names lead to files of
 * fixed length, open handles lead to files too, and a file exists for
 * as long as a name or a handle leads to it.
 */
module FsSpec {
  import opened Bytes
  import opened Disk
  import opened Directory

  datatype Handle = Handle(file: nat, pos: nat, deny: bool)

  datatype Fs<!H> = Fs(names: map<Name, nat>, files: map<nat, seq<byte>>, handles: map<H, Handle>)

  datatype Op<!H> =
    | Create(name: Name, length: nat)
    | Open(name: Name)
    | Reopen(h: H)
    | Read(h: H, size: int)
    | ReadAt(h: H, size: int, ofs: nat)
    | Write(h: H, data: seq<byte>)
    | WriteAt(h: H, data: seq<byte>, ofs: nat)
    | Seek(h: H, pos: nat)
    | Deny(h: H)
    | Allow(h: H)
    | Remove(name: Name)
    | Close(h: H)

  datatype Result<!H> = Status(ok: bool) | Opened(h: H) | Null | Bytes(bytes: seq<byte>) | Count(n: nat) | Void

  ghost predicate Linked<H>(s: Fs<H>, id: nat) { id in s.names.Values }

  ghost predicate IsOpen<H>(s: Fs<H>, id: nat) { exists h :: h in s.handles && s.handles[h].file == id }

  ghost predicate Denied<H>(s: Fs<H>, id: nat) {
    exists h :: h in s.handles && s.handles[h].file == id && s.handles[h].deny
  }

  /** Forgets the files that neither a name nor a handle leads to. */
  ghost function Collect<H>(s: Fs<H>): Fs<H> {
    s.(files := map id | id in s.files && (Linked(s, id) || IsOpen(s, id)) :: s.files[id])
  }

  /** With no handle left, the files that remain are those with a name. */
  lemma CollectNamed<H>(s: Fs<H>, files: map<nat, seq<byte>>)
    requires s.handles == map[] && files.Keys == s.names.Values && files.Keys <= s.files.Keys
    requires forall id :: id in files ==> files[id] == s.files[id]
    ensures Collect(s) == s.(files := files)
  {
    assert Collect(s).files == files;
  }

  ghost predicate Valid<H>(s: Fs<H>) {
    && (forall id :: id in s.files <==> Linked(s, id) || IsOpen(s, id))
    && (forall a, b :: a in s.names && b in s.names && s.names[a] == s.names[b] ==> a == b)
  }

  /** Bytes that a write at pos stores: none while some opener denies writes, and none past the end. */
  ghost function Stored<H>(s: Fs<H>, id: nat, pos: nat, data: seq<byte>): (r: seq<byte>)
    requires id in s.files
    ensures r <= data && (r == [] || pos + |r| <= |s.files[id]|)
  {
    if Denied(s, id) || pos >= |s.files[id]| then [] else data[..Min(|data|, |s.files[id]| - pos)]
  }

  ghost function Written<H>(s: Fs<H>, id: nat, pos: nat, data: seq<byte>): Fs<H>
    requires id in s.files
  {
    s.(files := s.files[id := Overwrite(s.files[id], pos, Stored(s, id, pos, data))])
  }

  ghost function Created<H>(s: Fs<H>, name: Name, id: nat, size: nat): Fs<H> {
    s.(names := s.names[name := id], files := s.files[id := Zeros(size)])
  }

  ghost function Opener<H>(s: Fs<H>, h: H, id: nat): Fs<H> {
    s.(handles := s.handles[h := Handle(id, 0, false)])
  }

  ghost function Moved<H>(s: Fs<H>, h: H, pos: nat): Fs<H>
    requires h in s.handles
  {
    s.(handles := s.handles[h := s.handles[h].(pos := pos)])
  }

  /** The operation is one the caller may issue: its handle, if any, is open. */
  ghost predicate Enabled<H>(s: Fs<H>, op: Op<H>) {
    match op
    case Create(_, _) | Open(_) | Remove(_) => true
    case _ => op.h in s.handles && s.handles[op.h].file in s.files
  }

  /** The operation, its result and the next state. */
  ghost predicate Step<H>(s: Fs<H>, op: Op<H>, r: Result<H>, s': Fs<H>) {
    Enabled(s, op) &&
    match op
    case Create(name, size) =>
      && r.Status?
      && (r.ok ==> ValidName(name) && name !in s.names &&
                   exists id :: id !in s.files && s' == Created(s, name, id, size))
      && (!r.ok ==> s' == s)
    case Open(name) =>
      if name in s.names then r.Opened? && r.h !in s.handles && s' == Opener(s, r.h, s.names[name]) else r.Null? && s' == s
    case Reopen(h) =>
      r.Opened? && r.h !in s.handles && s' == Opener(s, r.h, s.handles[h].file)
    case Read(h, size) =>
      var hd := s.handles[h];
      r == Bytes(Slice(s.files[hd.file], hd.pos, size)) && s' == Moved(s, h, hd.pos + |r.bytes|)
    case ReadAt(h, size, ofs) =>
      r == Bytes(Slice(s.files[s.handles[h].file], ofs, size)) && s' == s
    case Write(h, data) =>
      var hd := s.handles[h];
      r == Count(|Stored(s, hd.file, hd.pos, data)|) && s' == Moved(Written(s, hd.file, hd.pos, data), h, hd.pos + r.n)
    case WriteAt(h, data, ofs) =>
      r == Count(|Stored(s, s.handles[h].file, ofs, data)|) && s' == Written(s, s.handles[h].file, ofs, data)
    case Seek(h, pos) => r.Void? && s' == Moved(s, h, pos)
    case Deny(h) => r.Void? && s' == s.(handles := s.handles[h := s.handles[h].(deny := true)])
    case Allow(h) => r.Void? && s' == s.(handles := s.handles[h := s.handles[h].(deny := false)])
    case Remove(name) => r == Status(name in s.names) && s' == Collect(s.(names := s.names - {name}))
    case Close(h) => r.Void? && s' == Collect(s.(handles := s.handles - {h}))
  }

  lemma ReopenKept<H>(s: Fs<H>, s': Fs<H>)
    requires Valid(s) && s'.names == s.names && s'.files.Keys == s.files.Keys
    requires s.handles.Keys <= s'.handles.Keys
    requires forall h :: h in s.handles ==> s'.handles[h].file == s.handles[h].file
    requires forall h :: h in s'.handles ==> s'.handles[h].file in s.files
    ensures Valid(s')
  {
    forall id | id in s'.files ensures Linked(s', id) || IsOpen(s', id) {
      if IsOpen(s, id) {
        var h :| h in s.handles && s.handles[h].file == id;
        assert h in s'.handles;
      }
    }
  }

  /** Every operation keeps the files exactly those that a name or a handle leads to. */
  lemma StepValid<H>(s: Fs<H>, op: Op<H>, r: Result<H>, s': Fs<H>)
    requires Valid(s) && Step(s, op, r, s')
    ensures Valid(s')
  {
    match op
    case Create(name, size) => if r.ok { CreateValid(s, name, size, s'); }
    case Open(name) => if name in s.names { assert Linked(s, s.names[name]); ReopenKept(s, s'); }
    case Remove(name) => CollectValid(s.(names := s.names - {name}));
    case Close(h) => CollectValid(s.(handles := s.handles - {h}));
    case _ => ReopenKept(s, s');
  }

  lemma CollectValid<H>(s: Fs<H>)
    requires forall id :: Linked(s, id) || IsOpen(s, id) ==> id in s.files
    requires forall a, b :: a in s.names && b in s.names && s.names[a] == s.names[b] ==> a == b
    ensures Valid(Collect(s))
  {
    var c := Collect(s);
    forall id ensures (Linked(c, id) <==> Linked(s, id)) && (IsOpen(c, id) <==> IsOpen(s, id)) {}
  }

  lemma CreateValid<H>(s: Fs<H>, name: Name, size: nat, s': Fs<H>)
    requires Valid(s) && Step(s, Create(name, size), Status(true), s')
    ensures Valid(s')
  {
    var id :| id !in s.files && s' == Created(s, name, id, size);
    assert name in s'.names && Linked(s', id);
    forall k ensures k in s'.files <==> Linked(s', k) || IsOpen(s', k) {
      assert IsOpen(s', k) <==> IsOpen(s, k);
      if Linked(s, k) {
        var n :| n in s.names && s.names[n] == k;
        assert n in s'.names && s'.names[n] == k;
      }
      if Linked(s', k) && k != id {
        var n :| n in s'.names && s'.names[n] == k;
        assert n in s.names && s.names[n] == k;
      }
    }
    forall a, b | a in s'.names && b in s'.names && s'.names[a] == s'.names[b] ensures a == b {
      assert a != name ==> Linked(s, s.names[a]);
      assert b != name ==> Linked(s, s.names[b]);
    }
  }

  // ---------------------------------------------------------------- runs

  datatype Event<!H> = Event(op: Op<H>, r: Result<H>)

  /** states[k] -events[k]-> states[k + 1], for every k. */
  ghost predicate IsRun<H>(states: seq<Fs<H>>, events: seq<Event<H>>) {
    && |states| == |events| + 1
    && Valid(states[0])
    && forall k :: 0 <= k < |events| ==> Step(states[k], events[k].op, events[k].r, states[k + 1])
  }

  lemma {:induction false} RunValid<H>(states: seq<Fs<H>>, events: seq<Event<H>>, k: nat)
    requires IsRun(states, events) && k < |states|
    ensures Valid(states[k])
  {
    if k > 0 {
      RunValid(states, events, k - 1);
      StepValid(states[k - 1], events[k - 1].op, events[k - 1].r, states[k]);
    }
  }

  /** The event stores v in byte k of file id. */
  ghost predicate Stores<H>(s: Fs<H>, op: Op<H>, id: nat, k: nat, v: byte) {
    Enabled(s, op) &&
    match op
    case Write(h, data) =>
      var hd := s.handles[h];
      hd.file == id && hd.pos <= k < hd.pos + |Stored(s, id, hd.pos, data)| && data[k - hd.pos] == v
    case WriteAt(h, data, ofs) =>
      s.handles[h].file == id && ofs <= k < ofs + |Stored(s, id, ofs, data)| && data[k - ofs] == v
    case _ => false
  }

  /** One operation gives byte k of a surviving file its new value, or leaves it alone. */
  lemma StepByte<H>(s: Fs<H>, op: Op<H>, r: Result<H>, s': Fs<H>, id: nat, k: nat)
    requires Valid(s) && Step(s, op, r, s') && id in s.files && id in s'.files && k < |s.files[id]|
    ensures |s'.files[id]| == |s.files[id]|
    ensures forall v :: Stores(s, op, id, k, v) ==> s'.files[id][k] == v
    ensures (forall v :: !Stores(s, op, id, k, v)) ==> s'.files[id][k] == s.files[id][k]
  {
    match op
    case Write(h, data) =>
      var hd := s.handles[h];
      if hd.file == id {
        OverwriteAt(s.files[id], hd.pos, Stored(s, id, hd.pos, data), k);
        assert hd.pos <= k < hd.pos + |Stored(s, id, hd.pos, data)| ==> Stores(s, op, id, k, data[k - hd.pos]);
      }
    case WriteAt(h, data, ofs) =>
      if s.handles[h].file == id {
        OverwriteAt(s.files[id], ofs, Stored(s, id, ofs, data), k);
        assert ofs <= k < ofs + |Stored(s, id, ofs, data)| ==> Stores(s, op, id, k, data[k - ofs]);
      }
    case _ =>
  }

  /**
   * The last write wins: a byte stored by event w and by no event after it is what
   * the file still holds at state j, however names, handles and other files changed.
   */
  lemma {:induction false} LastWriteWins<H>(states: seq<Fs<H>>, events: seq<Event<H>>, w: nat, j: nat, id: nat, k: nat, v: byte)
    requires IsRun(states, events) && w < j < |states|
    requires forall i :: w <= i <= j ==> id in states[i].files
    requires k < |states[w].files[id]| && Stores(states[w], events[w].op, id, k, v)
    requires forall i, u :: w < i < j ==> !Stores(states[i], events[i].op, id, k, u)
    ensures |states[j].files[id]| == |states[w].files[id]| && states[j].files[id][k] == v
  {
    RunValid(states, events, j - 1);
    if j == w + 1 {
      StepByte(states[w], events[w].op, events[w].r, states[j], id, k);
    } else {
      LastWriteWins(states, events, w, j - 1, id, k, v);
      StepByte(states[j - 1], events[j - 1].op, events[j - 1].r, states[j], id, k);
    }
  }

  /** A byte that no event stores keeps its value from state i to state j. */
  lemma {:induction false} UnwrittenByteKept<H>(states: seq<Fs<H>>, events: seq<Event<H>>, i: nat, j: nat, id: nat, k: nat)
    requires IsRun(states, events) && i <= j < |states|
    requires forall n :: i <= n <= j ==> id in states[n].files
    requires k < |states[i].files[id]|
    requires forall n, u :: i <= n < j ==> !Stores(states[n], events[n].op, id, k, u)
    ensures |states[j].files[id]| == |states[i].files[id]| && states[j].files[id][k] == states[i].files[id][k]
  {
    if i < j {
      UnwrittenByteKept(states, events, i, j - 1, id, k);
      RunValid(states, events, j - 1);
      StepByte(states[j - 1], events[j - 1].op, events[j - 1].r, states[j], id, k);
    }
  }

  /** While a handle is not closed, its file exists, removed or not, and stays the file it was. */
  lemma {:induction false} OpenFileSurvives<H>(states: seq<Fs<H>>, events: seq<Event<H>>, i: nat, j: nat, h: H)
    requires IsRun(states, events) && i <= j < |states| && h in states[i].handles
    requires forall n :: i <= n < j ==> events[n].op != Close(h)
    ensures h in states[j].handles && states[j].handles[h].file == states[i].handles[h].file
    ensures states[j].handles[h].file in states[j].files
  {
    RunValid(states, events, j);
    if i < j {
      OpenFileSurvives(states, events, i, j - 1, h);
      assert Step(states[j - 1], events[j - 1].op, events[j - 1].r, states[j]);
    }
    assert IsOpen(states[j], states[j].handles[h].file);
  }

  /** A removed file that is still open is never given a name again. */
  lemma {:induction false} UnlinkedStaysUnlinked<H>(states: seq<Fs<H>>, events: seq<Event<H>>, i: nat, j: nat, h: H)
    requires IsRun(states, events) && i <= j < |states| && h in states[i].handles
    requires forall n :: i <= n < j ==> events[n].op != Close(h)
    requires !Linked(states[i], states[i].handles[h].file)
    ensures h in states[j].handles && !Linked(states[j], states[i].handles[h].file)
  {
    OpenFileSurvives(states, events, i, j, h);
    if i < j {
      UnlinkedStaysUnlinked(states, events, i, j - 1, h);
      OpenFileSurvives(states, events, i, j - 1, h);
      var s, s', id := states[j - 1], states[j], states[i].handles[h].file;
      assert Step(s, events[j - 1].op, events[j - 1].r, s');
      if Linked(s', id) {
        var n :| n in s'.names && s'.names[n] == id;
        assert n in s.names ==> Linked(s, s.names[n]);
      }
    }
  }
}
