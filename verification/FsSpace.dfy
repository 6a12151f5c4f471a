/**
 * What becomes of the sectors of the device: apart from what failed
 * creates leave behind, a sector is marked in the free map just as long
 * as a file needs it.
 */
module FsSpace {
  import opened Bytes
  import opened Disk
  import opened Bitmaps
  import opened InodeTable
  import opened World
  import opened FsCreate
  import opened FsRun
  import Spec = FsSpec

  /** The number of sectors that are marked. */
  ghost function Marks(bits: seq<bool>): nat {
    if bits == [] then 0 else Marks(bits[..|bits| - 1]) + if bits[|bits| - 1] then 1 else 0
  }

  lemma {:induction false} MarksOne(bits: seq<bool>, i: nat, value: bool)
    requires i < |bits| && bits[i] != value
    ensures Marks(bits[i := value]) == if value then Marks(bits) + 1 else Marks(bits) - 1
    decreases |bits|
  {
    var n := |bits| - 1;
    var front, bits' := bits[..n], bits[i := value];
    if i == n {
      assert bits'[..n] == front;
    } else {
      assert bits'[..n] == front[i := value];
      MarksOne(front, i, value);
    }
  }

  lemma {:induction false} MarksRange(bits: seq<bool>, start: nat, cnt: nat, value: bool)
    requires IsRun(bits, start, cnt, !value)
    ensures Marks(SetRange(bits, start, cnt, value)) == if value then Marks(bits) + cnt else Marks(bits) - cnt
  {
    if cnt == 0 {
      assert SetRange(bits, start, cnt, value) == bits;
    } else {
      var most := SetRange(bits, start, cnt - 1, value);
      MarksRange(bits, start, cnt - 1, value);
      assert SetRange(bits, start, cnt, value) == most[start + cnt - 1 := value];
      MarksOne(most, start + cnt - 1, value);
    }
  }

  /** A header and the data sectors. */
  function Cost(bytes: seq<byte>): nat { 1 + SectorCount(|bytes|) }

  /** The sectors that the files need. */
  ghost function Space(files: map<nat, seq<byte>>): nat
    decreases |files.Keys|
  {
    if files == map[] then 0
    else
      var id :| id in files;
      assert (files - {id}).Keys == files.Keys - {id};
      Cost(files[id]) + Space(files - {id})
  }

  lemma {:induction false} SpaceWithout(files: map<nat, seq<byte>>, id: nat)
    requires id in files
    ensures Space(files) == Cost(files[id]) + Space(files - {id})
    decreases |files.Keys|
  {
    var k: nat :| k in files && Space(files) == Cost(files[k]) + Space(files - {k});
    if k != id {
      assert (files - {k}).Keys == files.Keys - {k} && (files - {id}).Keys == files.Keys - {id};
      SpaceWithout(files - {k}, id);
      SpaceWithout(files - {id}, k);
      assert files - {k} - {id} == files - {id} - {k};
    }
  }

  lemma {:induction false} SpaceSame(files: map<nat, seq<byte>>, files': map<nat, seq<byte>>)
    requires files'.Keys == files.Keys && forall id :: id in files ==> |files'[id]| == |files[id]|
    ensures Space(files') == Space(files)
    decreases |files.Keys|
  {
    if id :| id in files {
      assert (files - {id}).Keys == files.Keys - {id} && (files' - {id}).Keys == files'.Keys - {id};
      SpaceWithout(files, id);
      SpaceWithout(files', id);
      SpaceSame(files - {id}, files' - {id});
    } else {
      assert files == map[] && files' == map[];
    }
  }

  /** The marked sectors that belong to no file. */
  ghost function Slack(s: Spec.Fs<File>, cap: Capacity): int { Marks(cap.bits) - Space(s.files) }

  /** The sectors that an event abandons: the data sectors of a create that fails although there is room for the file. */
  ghost function Loss(e: Spec.Event<File>, cap: Capacity): nat {
    if e.op.Create? && e.r == Spec.Status(false) && Allocatable(cap.bits, e.op.length) then SectorCount(e.op.length) else 0
  }

  ghost function Losses(events: seq<Spec.Event<File>>, caps: seq<Capacity>, i: nat, j: nat): nat
    requires i <= j <= |events| <= |caps|
    decreases j - i
  {
    if i == j then 0 else Losses(events, caps, i, j - 1) + Loss(events[j - 1], caps[j - 1])
  }

  // ------------------------------------------------------------------ one operation

  lemma TookMarks(bits: seq<bool>, bits': seq<bool>, length: nat)
    requires Took(bits, bits', length)
    ensures Marks(bits') == Marks(bits) + 1 + SectorCount(length)
  {
    var h, start :|
      && IsFirstRun(bits, 0, 1, false, Found(h))
      && IsFirstRun(SetRange(bits, h, 1, true), 0, SectorCount(length), false, Found(start))
      && bits' == SetRange(SetRange(bits, h, 1, true), start, SectorCount(length), true);
    MarksRange(bits, h, 1, true);
    MarksRange(SetRange(bits, h, 1, true), start, SectorCount(length), true);
  }

  lemma LeakedMarks(bits: seq<bool>, bits': seq<bool>, length: nat)
    requires Leaked(bits, bits', length)
    ensures Marks(bits') == Marks(bits) + if Allocatable(bits, length) then SectorCount(length) else 0
  {
    if Allocatable(bits, length) {
      var h, start :|
        && IsFirstRun(bits, 0, 1, false, Found(h))
        && IsFirstRun(SetRange(bits, h, 1, true), 0, SectorCount(length), false, Found(start))
        && bits' == SetRange(bits, start, SectorCount(length), true);
      assert IsRun(bits, start, SectorCount(length), false);
      MarksRange(bits, start, SectorCount(length), true);
    }
  }

  lemma SettledMarks(files: map<nat, seq<byte>>, files': map<nat, seq<byte>>, bits: seq<bool>, bits': seq<bool>)
    requires Settled(files, files', bits, bits')
    ensures Marks(bits') - Space(files') == Marks(bits) - Space(files)
  {
    if !(files' == files && bits' == bits) {
      var id :| id in files && files' == files - {id} && Returned(bits, bits', id, |files[id]|);
      var start: nat :| GivenBack(bits, bits', id, start, SectorCount(|files[id]|));
      SpaceWithout(files, id);
      MarksRange(bits, id, 1, false);
      MarksRange(SetRange(bits, id, 1, false), start, SectorCount(|files[id]|), false);
    }
  }

  lemma CreatedSpace(s: Spec.Fs<File>, op: Spec.Op<File>, s': Spec.Fs<File>)
    requires op.Create? && Spec.Step(s, op, Spec.Status(true), s')
    ensures Space(s'.files) == Space(s.files) + 1 + SectorCount(op.length)
  {
    var id :| id !in s.files && s' == Spec.Created(s, op.name, id, op.length);
    SpaceWithout(s'.files, id);
    assert s'.files - {id} == s.files;
  }

  /** Any other operation leaves every file as long as it was. */
  lemma LengthsKept(s: Spec.Fs<File>, op: Spec.Op<File>, r: Spec.Result<File>, s': Spec.Fs<File>)
    requires Spec.Step(s, op, r, s') && !op.Create? && !op.Remove? && !op.Close?
    ensures s'.files.Keys == s.files.Keys && forall id :: id in s.files ==> |s'.files[id]| == |s.files[id]|
  {}

  lemma StepSlack(s: Spec.Fs<File>, e: Spec.Event<File>, s': Spec.Fs<File>, cap: Capacity, cap': Capacity)
    requires Spec.Step(s, e.op, e.r, s') && Uses(s, e.op, e.r, s', cap, cap')
    ensures Slack(s', cap') == Slack(s, cap) + Loss(e, cap)
  {
    hide Took, Leaked, Settled, Creatable, Allocatable;
    match e.op
    case Create(_, length) =>
      if e.r.ok {
        TookMarks(cap.bits, cap'.bits, length);
        CreatedSpace(s, e.op, s');
      } else {
        LeakedMarks(cap.bits, cap'.bits, length);
      }
    case Remove(_) => SettledMarks(s.files, s'.files, cap.bits, cap'.bits);
    case Close(_) => SettledMarks(s.files, s'.files, cap.bits, cap'.bits);
    case _ =>
      LengthsKept(s, e.op, e.r, s');
      SpaceSame(s.files, s'.files);
  }

  // --------------------------------------------------------------------- whole runs

  /**
   * Over any run, the marked sectors that belong to no file are those that
   * failed creates abandoned, and no others: every other sector that an
   * operation takes is given back when its file is gone.
   */
  lemma {:induction false} NothingElseLeaks(states: seq<Spec.Fs<File>>, events: seq<Spec.Event<File>>, caps: seq<Capacity>, i: nat, j: nat)
    requires Spec.IsRun(states, events) && UsedAlong(states, events, caps) && i <= j < |states|
    ensures Slack(states[j], caps[j]) == Slack(states[i], caps[i]) + Losses(events, caps, i, j)
    decreases j
  {
    if i < j {
      NothingElseLeaks(states, events, caps, i, j - 1);
      hide Slack, Spec.Step, Uses, Loss;
      StepSlack(states[j - 1], events[j - 1], states[j], caps[j - 1], caps[j]);
    }
  }
}
