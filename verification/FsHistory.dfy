/**
 * What a call answers, told from the calls before it and their answers
 * alone: which file a name or a handle stands for, where a handle is, who
 * denies writes, and what each byte was last written to.
 */
module FsHistory {
  import opened Bytes
  import opened Options
  import opened Disk
  import opened Directory
  import opened FsSpec

  /** A file that was there at the start, or the one that call k made. */
  datatype Origin = Old(id: nat) | Made(k: nat)

  // ------------------------------------------------------------- looking back

  /** The file that a name stands for after n calls. */
  ghost function Named<H>(s0: Fs<H>, es: seq<Event<H>>, n: nat, name: Name): Option<Origin>
    requires n <= |es|
  {
    if n == 0 then if name in s0.names then Some(Old(s0.names[name])) else None
    else if es[n - 1].op.Create? && es[n - 1].op.name == name && es[n - 1].r == Status(true) then Some(Made(n - 1))
    else if es[n - 1].op == Remove(name) then None
    else Named(s0, es, n - 1, name)
  }

  /** The file that a handle stands for: that of the last call that returned it, unless it has been closed. */
  ghost function Held<H>(s0: Fs<H>, es: seq<Event<H>>, n: nat, h: H): Option<Origin>
    requires n <= |es|
  {
    if n == 0 then None
    else if es[n - 1].r == Opened(h) then
      match es[n - 1].op
      case Open(name) => Named(s0, es, n - 1, name)
      case Reopen(g) => Held(s0, es, n - 1, g)
      case _ => None
    else if es[n - 1].op == Close(h) then None
    else Held(s0, es, n - 1, h)
  }

  /** Where a handle is: as far behind the last seek, or the start, as calls have read and written since. */
  ghost function Place<H>(es: seq<Event<H>>, n: nat, h: H): nat
    requires n <= |es|
  {
    if n == 0 || es[n - 1].r == Opened(h) then 0
    else
      match es[n - 1].op
      case Seek(g, pos) => if g == h then pos else Place(es, n - 1, h)
      case Read(g, _) => Place(es, n - 1, h) + if g == h && es[n - 1].r.Bytes? then |es[n - 1].r.bytes| else 0
      case Write(g, _) => Place(es, n - 1, h) + if g == h && es[n - 1].r.Count? then es[n - 1].r.n else 0
      case _ => Place(es, n - 1, h)
  }

  /** Call i denies writes through its handle, and neither an allow nor a close of that handle has followed. */
  ghost predicate InForce<H>(es: seq<Event<H>>, i: nat, n: nat)
    requires n <= |es|
  {
    i < n && es[i].op.Deny? && forall m :: i < m < n ==> es[m].op != Allow(es[i].op.h) && es[m].op != Close(es[i].op.h)
  }

  /** Some handle of the file denies writes. */
  ghost predicate Forbidden<H>(s0: Fs<H>, es: seq<Event<H>>, n: nat, o: Origin)
    requires n <= |es|
  {
    exists i :: 0 <= i < n && InForce(es, i, n) && Held(s0, es, n, es[i].op.h) == Some(o)
  }

  /** How long a file is. */
  ghost function Length<H>(s0: Fs<H>, es: seq<Event<H>>, o: Origin): nat {
    match o
    case Old(id) => if id in s0.files then |s0.files[id]| else 0
    case Made(k) => if k < |es| && es[k].op.Create? then es[k].op.length else 0
  }

  /** Where call n - 1 writes, if it writes into the file: from there on, as many bytes as it answers. */
  ghost function WritesAt<H>(s0: Fs<H>, es: seq<Event<H>>, n: nat, o: Origin): Option<nat>
    requires 0 < n <= |es|
  {
    match es[n - 1].op
    case Write(h, _) => if Held(s0, es, n - 1, h) == Some(o) then Some(Place(es, n - 1, h)) else None
    case WriteAt(h, _, ofs) => if Held(s0, es, n - 1, h) == Some(o) then Some(ofs) else None
    case _ => None
  }

  /** Call n - 1 writes byte b of the file. */
  ghost predicate Hits<H>(s0: Fs<H>, es: seq<Event<H>>, n: nat, o: Origin, b: nat)
    requires 0 < n <= |es|
  {
    var at := WritesAt(s0, es, n, o);
    at.Some? && es[n - 1].r.Count? && at.value <= b < at.value + es[n - 1].r.n && b - at.value < |es[n - 1].op.data|
  }

  /** Byte b of a file after n calls: what the last call that wrote it put there; before that, zero in a new file. */
  ghost function ByteAt<H>(s0: Fs<H>, es: seq<Event<H>>, n: nat, o: Origin, b: nat): byte
    requires n <= |es|
  {
    if o.Made? && n <= o.k + 1 then 0
    else if n == 0 then if o.Old? && o.id in s0.files && b < |s0.files[o.id]| then s0.files[o.id][b] else 0
    else if Hits(s0, es, n, o, b) then es[n - 1].op.data[b - WritesAt(s0, es, n, o).value]
    else ByteAt(s0, es, n - 1, o, b)
  }

  // ------------------------------------------------------------------- answers

  /** How many of the bytes wanted from pos on a file of that length has. */
  function Reach(length: nat, pos: nat, want: int): nat { if want <= 0 || pos >= length then 0 else Min(want, length - pos) }

  ghost predicate ReadsBack<H>(s0: Fs<H>, es: seq<Event<H>>, n: nat, h: H, pos: nat, size: int, r: Result<H>)
    requires n <= |es|
  {
    var o := Held(s0, es, n, h);
    && o.Some? && r.Bytes? && |r.bytes| == Reach(Length(s0, es, o.value), pos, size)
    && forall i :: 0 <= i < |r.bytes| ==> r.bytes[i] == ByteAt(s0, es, n, o.value, pos + i)
  }

  ghost predicate Takes<H>(s0: Fs<H>, es: seq<Event<H>>, n: nat, h: H, pos: nat, size: nat, r: Result<H>)
    requires n <= |es|
  {
    var o := Held(s0, es, n, h);
    o.Some? && r == Count(if Forbidden(s0, es, n, o.value) then 0 else Reach(Length(s0, es, o.value), pos, size))
  }

  /** The answer of call n is the one that the calls before it call for. */
  ghost predicate Answered<H>(s0: Fs<H>, es: seq<Event<H>>, n: nat)
    requires n < |es|
  {
    var r := es[n].r;
    match es[n].op
    case Create(name, _) => r.Status? && (r.ok ==> ValidName(name) && Named(s0, es, n, name).None?)
    case Open(name) => if Named(s0, es, n, name).None? then r.Null? else r.Opened? && Held(s0, es, n, r.h).None?
    case Reopen(h) => Held(s0, es, n, h).Some? && r.Opened? && Held(s0, es, n, r.h).None?
    case Read(h, size) => ReadsBack(s0, es, n, h, Place(es, n, h), size, r)
    case ReadAt(h, size, ofs) => ReadsBack(s0, es, n, h, ofs, size, r)
    case Write(h, data) => Takes(s0, es, n, h, Place(es, n, h), |data|, r)
    case WriteAt(h, data, ofs) => Takes(s0, es, n, h, ofs, |data|, r)
    case Remove(name) => r == Status(Named(s0, es, n, name).Some?)
    case Seek(h, _) => Held(s0, es, n, h).Some? && r.Void?
    case Deny(h) => Held(s0, es, n, h).Some? && r.Void?
    case Allow(h) => Held(s0, es, n, h).Some? && r.Void?
    case Close(h) => Held(s0, es, n, h).Some? && r.Void?
  }

  // -------------------------------------------------- the states behind the answers

  /** A run since start-up, when nothing was open. */
  ghost predicate IsHistory<H>(states: seq<Fs<H>>, es: seq<Event<H>>) { IsRun(states, es) && states[0].handles == map[] }

  ghost predicate Makes<H>(e: Event<H>) { e.op.Create? && e.r == Status(true) }

  /** Where the files come from, after a call. */
  ghost function Later<H>(w: map<nat, Origin>, e: Event<H>, s': Fs<H>, n: nat): map<nat, Origin> {
    var all := if Makes(e) && e.op.name in s'.names then w[s'.names[e.op.name] := Made(n)] else w;
    map id | id in all && id in s'.files :: all[id]
  }

  /** Where the files of state n come from. */
  ghost function Whose<H>(states: seq<Fs<H>>, es: seq<Event<H>>, n: nat): map<nat, Origin>
    requires n <= |es| < |states|
  {
    if n == 0 then map id | id in states[0].files :: Old(id) else Later(Whose(states, es, n - 1), es[n - 1], states[n], n - 1)
  }

  ghost predicate Origins<H>(w: map<nat, Origin>, s: Fs<H>, n: nat) {
    && w.Keys == s.files.Keys && (forall a, b :: a in w && b in w && w[a] == w[b] ==> a == b)
    && (forall id :: id in w && w[id].Made? ==> w[id].k < n)
  }

  /** What a call does to names and files, a create that succeeds apart. */
  lemma Keeps<H>(s: Fs<H>, e: Event<H>, s': Fs<H>)
    requires Valid(s) && Step(s, e.op, e.r, s') && !Makes(e)
    ensures s'.files.Keys <= s.files.Keys && s'.names == if e.op.Remove? then s.names - {e.op.name} else s.names
  {}

  lemma MakesOne<H>(s: Fs<H>, e: Event<H>, s': Fs<H>)
    requires Valid(s) && Step(s, e.op, e.r, s') && Makes(e)
    ensures var name := e.op.name; name !in s.names && name in s'.names && var id := s'.names[name];
      id !in s.files && s'.names == s.names[name := id] && s'.files == s.files[id := Zeros(e.op.length)] && s'.handles == s.handles
  {}

  lemma OriginsStep<H>(w: map<nat, Origin>, s: Fs<H>, e: Event<H>, s': Fs<H>, n: nat)
    requires Origins(w, s, n) && Valid(s) && Step(s, e.op, e.r, s')
    ensures Origins(Later(w, e, s', n), s', n + 1)
  {
    if Makes(e) { MakesOne(s, e, s'); } else { Keeps(s, e, s'); }
    hide Step, Valid;
  }

  lemma {:induction false} OriginsHold<H>(states: seq<Fs<H>>, es: seq<Event<H>>, n: nat)
    requires IsHistory(states, es) && n <= |es|
    ensures Origins(Whose(states, es, n), states[n], n)
  {
    if n > 0 {
      OriginsHold(states, es, n - 1);
      RunValid(states, es, n - 1);
      assert Step(states[n - 1], es[n - 1].op, es[n - 1].r, states[n]);
      hide Step, Valid, Origins;
      OriginsStep(Whose(states, es, n - 1), states[n - 1], es[n - 1], states[n], n - 1);
    }
  }

  lemma Reachable<H>(s: Fs<H>)
    requires Valid(s)
    ensures forall name :: name in s.names ==> s.names[name] in s.files
    ensures forall h :: h in s.handles ==> s.handles[h].file in s.files
  {
    forall name | name in s.names ensures s.names[name] in s.files { assert Linked(s, s.names[name]); }
    forall h | h in s.handles ensures s.handles[h].file in s.files { assert IsOpen(s, s.handles[h].file); }
  }

  /** The file behind an entry of a map. */
  ghost function Behind<K>(w: map<nat, Origin>, m: map<K, nat>, k: K): Option<Origin> { if k in m && m[k] in w then Some(w[m[k]]) else None }

  lemma NameStep<H>(w: map<nat, Origin>, s: Fs<H>, e: Event<H>, s': Fs<H>, n: nat, name: Name)
    requires Origins(w, s, n) && Valid(s) && Valid(s') && Step(s, e.op, e.r, s')
    ensures Behind(Later(w, e, s', n), s'.names, name) ==
      if Makes(e) && e.op.name == name then Some(Made(n)) else if e.op == Remove(name) then None else Behind(w, s.names, name)
  {
    Reachable(s);
    Reachable(s');
    if Makes(e) { MakesOne(s, e, s'); } else { Keeps(s, e, s'); }
    hide Step, Valid;
  }

  lemma {:induction false} NameIs<H>(states: seq<Fs<H>>, es: seq<Event<H>>, n: nat, name: Name)
    requires IsHistory(states, es) && n <= |es|
    ensures Named(states[0], es, n, name) == Behind(Whose(states, es, n), states[n].names, name)
  {
    RunValid(states, es, n);
    if n == 0 {
      Reachable(states[0]);
    } else {
      NameIs(states, es, n - 1, name);
      RunValid(states, es, n - 1);
      OriginsHold(states, es, n - 1);
      assert Step(states[n - 1], es[n - 1].op, es[n - 1].r, states[n]);
      hide Step, Valid, Origins, Later, Behind;
      NameStep(Whose(states, es, n - 1), states[n - 1], es[n - 1], states[n], n - 1, name);
    }
  }

  // ------------------------------------------------------------------- handles

  /** Which handles there are after a call, and which files they stand for. */
  lemma HandleFile<H>(s: Fs<H>, e: Event<H>, s': Fs<H>, h: H)
    requires Valid(s) && Step(s, e.op, e.r, s')
    ensures h in s'.handles <==> e.r == Opened(h) || (h in s.handles && e.op != Close(h))
    ensures e.r == Opened(h) ==>
      && h !in s.handles
      && (if e.op.Open? then e.op.name in s.names && s'.handles[h].file == s.names[e.op.name]
          else e.op.Reopen? && e.op.h in s.handles && s'.handles[h].file == s.handles[e.op.h].file)
    ensures h in s'.handles && e.r != Opened(h) ==> s'.handles[h].file == s.handles[h].file
  {}

  lemma HandlePos<H>(s: Fs<H>, e: Event<H>, s': Fs<H>, h: H)
    requires Step(s, e.op, e.r, s') && h in s'.handles
    ensures e.r == Opened(h) ==> s'.handles[h].pos == 0
    ensures e.r != Opened(h) ==>
      && h in s.handles
      && s'.handles[h].pos ==
           match e.op
           case Seek(g, pos) => if g == h then pos else s.handles[h].pos
           case Read(g, _) => s.handles[h].pos + if g == h && e.r.Bytes? then |e.r.bytes| else 0
           case Write(g, _) => s.handles[h].pos + if g == h && e.r.Count? then e.r.n else 0
           case _ => s.handles[h].pos
  {}

  ghost predicate Denying<H>(s: Fs<H>, h: H) { h in s.handles && s.handles[h].deny }

  lemma HandleDeny<H>(s: Fs<H>, e: Event<H>, s': Fs<H>, h: H)
    requires Step(s, e.op, e.r, s')
    ensures Denying(s', h) <==> e.op == Deny(h) || (Denying(s, h) && e.op != Allow(h) && e.op != Close(h))
  {}

  /** A file that is there before and after a call comes from where it came from. */
  lemma FileStep<H>(w: map<nat, Origin>, s: Fs<H>, e: Event<H>, s': Fs<H>, n: nat, id: nat)
    requires Origins(w, s, n) && Valid(s) && Step(s, e.op, e.r, s') && id in s.files && id in s'.files
    ensures id in w && id in Later(w, e, s', n) && Later(w, e, s', n)[id] == w[id]
  {
    if Makes(e) { MakesOne(s, e, s'); }
    hide Step, Valid;
  }

  ghost predicate Denies<H>(es: seq<Event<H>>, n: nat, h: H)
    requires n <= |es|
  {
    exists i :: 0 <= i < n && InForce(es, i, n) && es[i].op.h == h
  }

  lemma DeniesStep<H>(es: seq<Event<H>>, n: nat, h: H)
    requires n < |es|
    ensures Denies(es, n + 1, h) <==> es[n].op == Deny(h) || (Denies(es, n, h) && es[n].op != Allow(h) && es[n].op != Close(h))
  {
    if Denies(es, n + 1, h) {
      var i :| 0 <= i < n + 1 && InForce(es, i, n + 1) && es[i].op.h == h;
      if i < n { assert InForce(es, i, n) && es[n].op != Allow(h) && es[n].op != Close(h); }
    }
    if es[n].op == Deny(h) { assert InForce(es, n, n + 1); }
    if Denies(es, n, h) && es[n].op != Allow(h) && es[n].op != Close(h) {
      var i :| 0 <= i < n && InForce(es, i, n) && es[i].op.h == h;
      assert InForce(es, i, n + 1);
    }
  }

  /** A handle denies writes just when a deny of it is in force. */
  lemma {:induction false} DenyIs<H>(states: seq<Fs<H>>, es: seq<Event<H>>, n: nat, h: H)
    requires IsHistory(states, es) && n <= |es|
    ensures Denying(states[n], h) <==> Denies(es, n, h)
  {
    if n > 0 {
      DenyIs(states, es, n - 1, h);
      assert Step(states[n - 1], es[n - 1].op, es[n - 1].r, states[n]);
      HandleDeny(states[n - 1], es[n - 1], states[n], h);
      DeniesStep(es, n - 1, h);
      hide IsHistory, Denies, Denying, Step;
    }
  }

  /** A handle is where the calls so far have brought it. */
  lemma {:induction false} PlaceIs<H>(states: seq<Fs<H>>, es: seq<Event<H>>, n: nat, h: H)
    requires IsHistory(states, es) && n <= |es| && h in states[n].handles
    ensures states[n].handles[h].pos == Place(es, n, h)
  {
    if n > 0 {
      var s, e, s' := states[n - 1], es[n - 1], states[n];
      assert Step(s, e.op, e.r, s');
      HandlePos(s, e, s', h);
      if e.r != Opened(h) { PlaceIs(states, es, n - 1, h); }
      hide IsHistory, Step;
    }
  }

  /** The file behind a handle. */
  ghost function BehindHandle<H>(w: map<nat, Origin>, s: Fs<H>, h: H): Option<Origin> {
    if h in s.handles && s.handles[h].file in w then Some(w[s.handles[h].file]) else None
  }

  lemma HeldStep<H>(w: map<nat, Origin>, s: Fs<H>, e: Event<H>, s': Fs<H>, n: nat, h: H)
    requires Origins(w, s, n) && Valid(s) && Valid(s') && Step(s, e.op, e.r, s')
    ensures BehindHandle(Later(w, e, s', n), s', h) ==
      if e.r == Opened(h) then
        match e.op
        case Open(name) => Behind(w, s.names, name)
        case Reopen(g) => BehindHandle(w, s, g)
        case _ => None
      else if e.op == Close(h) then None
      else BehindHandle(w, s, h)
  {
    HandleFile(s, e, s', h);
    Reachable(s);
    Reachable(s');
    if h in s'.handles { FileStep(w, s, e, s', n, s'.handles[h].file); }
    hide Step, Valid, Later;
  }

  lemma StepOf<H>(states: seq<Fs<H>>, es: seq<Event<H>>, n: nat)
    requires IsHistory(states, es) && n < |es|
    ensures |states| == |es| + 1 && Step(states[n], es[n].op, es[n].r, states[n + 1]) && Valid(states[n]) && Valid(states[n + 1])
    ensures Origins(Whose(states, es, n), states[n], n)
    ensures Whose(states, es, n + 1) == Later(Whose(states, es, n), es[n], states[n + 1], n)
  {
    hide Step, Valid, Origins, Later;
    OriginsHold(states, es, n);
    RunValid(states, es, n);
    RunValid(states, es, n + 1);
  }

  /** A handle stands for the file that the calls so far say. */
  lemma {:induction false} HandleIs<H>(states: seq<Fs<H>>, es: seq<Event<H>>, n: nat, h: H)
    requires IsHistory(states, es) && n <= |es|
    ensures Held(states[0], es, n, h) == BehindHandle(Whose(states, es, n), states[n], h)
    decreases n, 0
  {
    if n > 0 { HandleNext(states, es, n - 1, h); }
  }

  lemma {:induction false} HandleNext<H>(states: seq<Fs<H>>, es: seq<Event<H>>, n: nat, h: H)
    requires IsHistory(states, es) && n < |es|
    ensures Held(states[0], es, n + 1, h) == BehindHandle(Whose(states, es, n + 1), states[n + 1], h)
    decreases n, 1
  {
    hide IsHistory, Step, Valid, Origins, Later, Behind, BehindHandle, Whose, Named;
    StepOf(states, es, n);
    HandleIs(states, es, n, h);
    if es[n].op.Reopen? { HandleIs(states, es, n, es[n].op.h); }
    if es[n].op.Open? { NameIs(states, es, n, es[n].op.name); }
    HeldStep(Whose(states, es, n), states[n], es[n], states[n + 1], n, h);
  }

  lemma HeldIff<H>(states: seq<Fs<H>>, es: seq<Event<H>>, n: nat, h: H)
    requires IsHistory(states, es) && n <= |es|
    ensures h in states[n].handles <==> Held(states[0], es, n, h).Some?
  {
    RunValid(states, es, n);
    OriginsHold(states, es, n);
    HandleIs(states, es, n, h);
    Reachable(states[n]);
    hide IsHistory, Valid, Held, Whose;
  }

  // ------------------------------------------------------------------ contents

  lemma {:induction false} LengthIs<H>(states: seq<Fs<H>>, es: seq<Event<H>>, n: nat, id: nat)
    requires IsHistory(states, es) && n <= |es| && id in states[n].files
    ensures id in Whose(states, es, n) && |states[n].files[id]| == Length(states[0], es, Whose(states, es, n)[id])
    decreases n, 0
  {
    if n > 0 { LengthNext(states, es, n - 1, id); }
  }

  lemma {:induction false} LengthNext<H>(states: seq<Fs<H>>, es: seq<Event<H>>, n: nat, id: nat)
    requires IsHistory(states, es) && n < |es| && id in states[n + 1].files
    ensures id in Whose(states, es, n + 1) && |states[n + 1].files[id]| == Length(states[0], es, Whose(states, es, n + 1)[id])
    decreases n, 1
  {
    hide IsHistory, Step, Valid, Whose, Origins;
    StepOf(states, es, n);
    var s, e, s' := states[n], es[n], states[n + 1];
    if Makes(e) { MakesOne(s, e, s'); } else { Keeps(s, e, s'); }
    if id in s.files {
      hide Later;
      LengthIs(states, es, n, id);
      FileStep(Whose(states, es, n), s, e, s', n, id);
      SameLength(s, e, s', id);
    }
  }

  lemma SameLength<H>(s: Fs<H>, e: Event<H>, s': Fs<H>, id: nat)
    requires Valid(s) && Step(s, e.op, e.r, s') && id in s.files && id in s'.files
    ensures |s'.files[id]| == |s.files[id]|
  {
    if Makes(e) { MakesOne(s, e, s'); }
  }

  /** What a call does to a byte of a file, told from its answer. */
  lemma ByteStep<H>(s: Fs<H>, e: Event<H>, s': Fs<H>, id: nat, b: nat)
    requires Valid(s) && Step(s, e.op, e.r, s') && id in s.files && id in s'.files && b < |s.files[id]| == |s'.files[id]|
    ensures s'.files[id][b] ==
      match e.op
      case Write(h, data) =>
        if h in s.handles && s.handles[h].file == id && e.r.Count? && s.handles[h].pos <= b < s.handles[h].pos + e.r.n && b - s.handles[h].pos < |data|
        then data[b - s.handles[h].pos] else s.files[id][b]
      case WriteAt(h, data, ofs) =>
        if h in s.handles && s.handles[h].file == id && e.r.Count? && ofs <= b < ofs + e.r.n && b - ofs < |data|
        then data[b - ofs] else s.files[id][b]
      case _ => s.files[id][b]
  {
    match e.op
    case Write(h, data) => if s.handles[h].file == id { OverwriteAt(s.files[id], s.handles[h].pos, Stored(s, id, s.handles[h].pos, data), b); }
    case WriteAt(h, data, ofs) => if s.handles[h].file == id { OverwriteAt(s.files[id], ofs, Stored(s, id, ofs, data), b); }
    case _ => if Makes(e) { MakesOne(s, e, s'); }
  }

  /** Two handles, or a handle and a file, have the same origin just when they lead to the same file. */
  lemma SameFile<H>(states: seq<Fs<H>>, es: seq<Event<H>>, n: nat, h: H, id: nat)
    requires IsHistory(states, es) && n <= |es| && id in states[n].files
    ensures id in Whose(states, es, n)
    ensures Held(states[0], es, n, h) == Some(Whose(states, es, n)[id]) <==> h in states[n].handles && states[n].handles[h].file == id
  {
    hide IsHistory, Held, Whose;
    HandleIs(states, es, n, h);
    OriginsHold(states, es, n);
  }

  /** A byte is what the last call that wrote it put there. */
  lemma {:induction false} ByteIs<H>(states: seq<Fs<H>>, es: seq<Event<H>>, n: nat, id: nat, b: nat)
    requires IsHistory(states, es) && n <= |es| && id in states[n].files && b < |states[n].files[id]|
    ensures id in Whose(states, es, n) && states[n].files[id][b] == ByteAt(states[0], es, n, Whose(states, es, n)[id], b)
    decreases n, 0
  {
    if n > 0 { ByteNext(states, es, n - 1, id, b); }
  }

  lemma {:induction false} ByteNext<H>(states: seq<Fs<H>>, es: seq<Event<H>>, n: nat, id: nat, b: nat)
    requires IsHistory(states, es) && n < |es| && id in states[n + 1].files && b < |states[n + 1].files[id]|
    ensures id in Whose(states, es, n + 1) && states[n + 1].files[id][b] == ByteAt(states[0], es, n + 1, Whose(states, es, n + 1)[id], b)
    decreases n, 1
  {
    hide IsHistory, Step, Valid, Whose, Origins;
    StepOf(states, es, n);
    var s, e, s' := states[n], es[n], states[n + 1];
    if Makes(e) { MakesOne(s, e, s'); } else { Keeps(s, e, s'); }
    if id in s.files {
      OldOrigin(Whose(states, es, n), s, n, id);
      hide Later;
      FileStep(Whose(states, es, n), s, e, s', n, id);
      SameLength(s, e, s', id);
      ByteIs(states, es, n, id, b);
      ByteStep(s, e, s', id, b);
      hide ByteAt;
      HitsIff(states, es, n, id, b);
      ByteFrom(states[0], es, n, Whose(states, es, n)[id], b);
    }
  }

  lemma OldOrigin<H>(w: map<nat, Origin>, s: Fs<H>, n: nat, id: nat)
    requires Origins(w, s, n) && id in s.files
    ensures id in w && (w[id].Made? ==> w[id].k < n)
  {}

  lemma ByteFrom<H>(s0: Fs<H>, es: seq<Event<H>>, n: nat, o: Origin, b: nat)
    requires n < |es| && (o.Made? ==> o.k < n)
    ensures ByteAt(s0, es, n + 1, o, b) ==
      if Hits(s0, es, n + 1, o, b) then es[n].op.data[b - WritesAt(s0, es, n + 1, o).value] else ByteAt(s0, es, n, o, b)
  {}

  /** Whether a call writes a byte of a file, by its handle. */
  lemma HitsIff<H>(states: seq<Fs<H>>, es: seq<Event<H>>, n: nat, id: nat, b: nat)
    requires IsHistory(states, es) && n < |es| && id in states[n].files
    ensures id in Whose(states, es, n)
    ensures var e, s, at := es[n], states[n], WritesAt(states[0], es, n + 1, Whose(states, es, n)[id]);
      at == match e.op
            case Write(h, _) => if h in s.handles && s.handles[h].file == id then Some(s.handles[h].pos) else None
            case WriteAt(h, _, ofs) => if h in s.handles && s.handles[h].file == id then Some(ofs) else None
            case _ => None
  {
    assert |states| == |es| + 1;
    hide IsHistory, Held, Whose, Place;
    OriginsHold(states, es, n);
    if es[n].op.Write? || es[n].op.WriteAt? { SameFile(states, es, n, es[n].op.h, id); }
    if es[n].op.Write? && es[n].op.h in states[n].handles { PlaceIs(states, es, n, es[n].op.h); }
  }

  // ------------------------------------------------------------- every answer

  lemma ReadAnswer<H>(states: seq<Fs<H>>, es: seq<Event<H>>, n: nat, h: H, pos: nat, size: int)
    requires IsHistory(states, es) && n <= |es| && h in states[n].handles && states[n].handles[h].file in states[n].files
    ensures ReadsBack(states[0], es, n, h, pos, size, Bytes(Slice(states[n].files[states[n].handles[h].file], pos, size)))
  {
    assert |states| == |es| + 1;
    hide IsHistory, Held, Whose, ByteAt, Length;
    var id := states[n].handles[h].file;
    var c := states[n].files[id];
    SameFile(states, es, n, h, id);
    LengthIs(states, es, n, id);
    forall i | 0 <= i < |Slice(c, pos, size)| ensures Slice(c, pos, size)[i] == ByteAt(states[0], es, n, Whose(states, es, n)[id], pos + i) {
      ByteIs(states, es, n, id, pos + i);
    }
  }

  /** Writes to a file are denied just when a deny through one of its handles is in force. */
  lemma ForbiddenIff<H>(states: seq<Fs<H>>, es: seq<Event<H>>, n: nat, id: nat)
    requires IsHistory(states, es) && n <= |es| && id in states[n].files
    ensures id in Whose(states, es, n) && (Denied(states[n], id) <==> Forbidden(states[0], es, n, Whose(states, es, n)[id]))
  {
    OriginsHold(states, es, n);
    hide IsHistory, Held, Whose;
    var o := Whose(states, es, n)[id];
    if Denied(states[n], id) {
      var h :| h in states[n].handles && states[n].handles[h].file == id && states[n].handles[h].deny;
      DenyIs(states, es, n, h);
      SameFile(states, es, n, h, id);
    }
    if Forbidden(states[0], es, n, o) {
      var i :| 0 <= i < n && InForce(es, i, n) && Held(states[0], es, n, es[i].op.h) == Some(o);
      DenyIs(states, es, n, es[i].op.h);
      SameFile(states, es, n, es[i].op.h, id);
    }
  }

  lemma WriteAnswer<H>(states: seq<Fs<H>>, es: seq<Event<H>>, n: nat, h: H, pos: nat, data: seq<byte>)
    requires IsHistory(states, es) && n <= |es| && h in states[n].handles && states[n].handles[h].file in states[n].files
    ensures Takes(states[0], es, n, h, pos, |data|, Count(|Stored(states[n], states[n].handles[h].file, pos, data)|))
  {
    assert |states| == |es| + 1;
    hide IsHistory, Held, Whose, Forbidden, Length;
    var id := states[n].handles[h].file;
    SameFile(states, es, n, h, id);
    LengthIs(states, es, n, id);
    ForbiddenIff(states, es, n, id);
  }

  /** On every run since start-up, every call answers what the calls before it, with their answers, call for. */
  lemma EveryAnswer<H>(states: seq<Fs<H>>, es: seq<Event<H>>, n: nat)
    requires IsHistory(states, es) && n < |es|
    ensures Answered(states[0], es, n)
  {
    StepOf(states, es, n);
    hide IsHistory, Named, Held, Whose, Valid, Origins, Place, ReadsBack, Takes, Stored, Slice, Denied;
    var s, e := states[n], es[n];
    match e.op
    case Create(name, _) => NameAnswer(states, es, n, name);
    case Open(name) =>
      NameAnswer(states, es, n, name);
      if e.r.Opened? { HeldIff(states, es, n, e.r.h); }
    case Remove(name) => NameAnswer(states, es, n, name);
    case Reopen(h) =>
      HeldIff(states, es, n, h);
      HeldIff(states, es, n, e.r.h);
    case Read(h, size) =>
      PlaceIs(states, es, n, h);
      ReadAnswer(states, es, n, h, s.handles[h].pos, size);
    case ReadAt(h, size, ofs) => ReadAnswer(states, es, n, h, ofs, size);
    case Write(h, data) =>
      PlaceIs(states, es, n, h);
      WriteAnswer(states, es, n, h, s.handles[h].pos, data);
    case WriteAt(h, data, ofs) => WriteAnswer(states, es, n, h, ofs, data);
    case _ => HeldIff(states, es, n, e.op.h);
  }

  ghost predicate AllAnswered<H>(s0: Fs<H>, es: seq<Event<H>>) { forall n :: 0 <= n < |es| ==> Answered(s0, es, n) }

  lemma AllAnswers<H>(states: seq<Fs<H>>, es: seq<Event<H>>)
    requires IsRun(states, es) && states[0].handles == map[]
    ensures AllAnswered(states[0], es)
  {
    assert |states| == |es| + 1;
    hide IsRun, Answered;
    forall n | 0 <= n < |es| ensures Answered(states[0], es, n) { EveryAnswer(states, es, n); }
  }

  lemma NameAnswer<H>(states: seq<Fs<H>>, es: seq<Event<H>>, n: nat, name: Name)
    requires IsHistory(states, es) && n <= |es|
    ensures name in states[n].names <==> Named(states[0], es, n, name).Some?
  {
    RunValid(states, es, n);
    OriginsHold(states, es, n);
    Reachable(states[n]);
    NameIs(states, es, n, name);
    hide IsHistory, Valid, Named, Whose;
  }

  // ----------------------------------------------------------------- denying writes

  ghost predicate WritesTo<H>(s: Fs<H>, op: Op<H>, id: nat) {
    (op.Write? || op.WriteAt?) && op.h in s.handles && s.handles[op.h].file == id
  }

  /** From a deny of a handle to its next allow or close, no write through any handle of the file stores anything. */
  lemma DenyHolds<H>(states: seq<Fs<H>>, es: seq<Event<H>>, i: nat, j: nat, h: H)
    requires IsRun(states, es) && i < j < |es| && es[i].op == Deny(h)
    requires forall m :: i < m < j ==> es[m].op != Allow(h) && es[m].op != Close(h)
    ensures h in states[i].handles && h in states[j].handles && states[j].handles[h].file == states[i].handles[h].file
    ensures WritesTo(states[j], es[j].op, states[i].handles[h].file) ==> es[j].r == Count(0) && states[j + 1].files == states[j].files
  {
    DenyStays(states, es, i, j, h);
    assert Step(states[j], es[j].op, es[j].r, states[j + 1]);
  }

  lemma {:induction false} DenyStays<H>(states: seq<Fs<H>>, es: seq<Event<H>>, i: nat, j: nat, h: H)
    requires IsRun(states, es) && i < j <= |es| && es[i].op == Deny(h)
    requires forall m :: i < m < j ==> es[m].op != Allow(h) && es[m].op != Close(h)
    ensures h in states[i].handles && Denying(states[j], h) && states[j].handles[h].file == states[i].handles[h].file
  {
    if j > i + 1 { DenyStays(states, es, i, j - 1, h); }
    assert Step(states[j - 1], es[j - 1].op, es[j - 1].r, states[j]);
    RunValid(states, es, j - 1);
    HandleFile(states[j - 1], es[j - 1], states[j], h);
    HandleDeny(states[j - 1], es[j - 1], states[j], h);
  }

  /** A write stores nothing just when it is empty, past the end, or denied by a handle of the file. */
  lemma NothingWritten<H>(states: seq<Fs<H>>, es: seq<Event<H>>, n: nat)
    requires IsHistory(states, es) && n < |es| && (es[n].op.Write? || es[n].op.WriteAt?)
    ensures var op := es[n].op; var o := Held(states[0], es, n, op.h); var pos := if op.Write? then Place(es, n, op.h) else op.ofs;
      o.Some? && (es[n].r == Count(0) <==> op.data == [] || pos >= Length(states[0], es, o.value) || Forbidden(states[0], es, n, o.value))
  {
    hide IsHistory;
    EveryAnswer(states, es, n);
  }
}
