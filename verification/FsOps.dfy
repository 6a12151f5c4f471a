/** Each file operation, seen on the whole state, is the step that the specification gives it. */
module FsOps {
  import opened Bytes
  import opened Disk
  import opened Directory
  import opened Bitmaps
  import opened Layout
  import opened InodeTable
  import opened World
  import Spec = FsSpec

  /** Only positions of handles changed. */
  ghost function WithPos(w: World, f: File, pos: nat): World
    requires f in w.hm
  {
    w.(hm := w.hm[f := w.hm[f].(pos := pos)])
  }

  lemma PosMoved(w: World, f: File, pos: nat)
    requires StateOk(w) && f in w.hm
    ensures StateOk(WithPos(w, f, pos)) && Abs(WithPos(w, f, pos)) == Spec.Moved(Abs(w), f, pos)
    ensures Cap(WithPos(w, f, pos)) == Cap(w)
  {
    hide DiskOk, TableOk;
    assert HandlesOk(WithPos(w, f, pos)) by { assert w.hm[f := w.hm[f].(pos := pos)].Keys == w.hm.Keys; }
  }

  lemma SeekStep(w: World, f: File, pos: nat)
    requires StateOk(w) && f in w.hm
    ensures StateOk(WithPos(w, f, pos)) && Spec.Step(Abs(w), Spec.Seek(f, pos), Spec.Void, Abs(WithPos(w, f, pos)))
  {
    hide StateOk, Abs;
    PosMoved(w, f, pos);
    HandleAbs(w, f);
  }

  lemma ReadAtStep(w: World, f: File, size: int, ofs: nat)
    requires StateOk(w) && f in w.hm
    ensures Fits(w.disk, f.inode.data)
    ensures Spec.Step(Abs(w), Spec.ReadAt(f, size, ofs), Spec.Bytes(Slice(Content(w.disk, f.inode.data), ofs, size)), Abs(w))
  {
    hide StateOk, Abs;
    HandleAbs(w, f);
  }

  lemma ReadStep(w: World, f: File, size: int, r: seq<byte>)
    requires StateOk(w) && f in w.hm
    requires Fits(w.disk, f.inode.data) && r == Slice(Content(w.disk, f.inode.data), w.hm[f].pos, size)
    ensures StateOk(WithPos(w, f, w.hm[f].pos + |r|))
    ensures Spec.Step(Abs(w), Spec.Read(f, size), Spec.Bytes(r), Abs(WithPos(w, f, w.hm[f].pos + |r|)))
  {
    hide StateOk, Abs;
    HandleAbs(w, f);
    PosMoved(w, f, w.hm[f].pos + |r|);
  }

  /** The bytes that the caller passes to a write: none for a size that is not positive. */
  function Data(buffer: seq<byte>, size: int): seq<byte>
    requires size <= |buffer|
  {
    if size <= 0 then [] else buffer[..size]
  }

  /** What inode_write_at stores, whatever it was given, is what the specification stores. */
  ghost predicate WroteAt(w: World, w': World, f: File, data: seq<byte>, ofs: nat, n: nat) {
    && w' == w.(disk := w'.disk)
    && Fits(w.disk, f.inode.data) && ChangedOnlyIn(w.disk, w'.disk, f.inode.data)
    && f.inode in w.tab.inodes
    && n == (if w.tab.inodes[f.inode].deny != 0 || ofs >= f.inode.data.length then 0 else Min(|data|, f.inode.data.length - ofs))
    && Content(w'.disk, f.inode.data) == Overwrite(Content(w.disk, f.inode.data), ofs, data[..n])
  }

  lemma WrittenMoved(w: World, w': World, f: File, data: seq<byte>, ofs: nat, n: nat)
    requires StateOk(w) && f in w.hm && WroteAt(w, w', f, data, ofs, n)
    ensures StateOk(w') && f.inode.sector in Abs(w).files
    ensures n == |Spec.Stored(Abs(w), f.inode.sector, ofs, data)|
    ensures Abs(w') == Spec.Written(Abs(w), f.inode.sector, ofs, data) && Cap(w') == Cap(w)
  {
    hide StateOk, Abs, Cap;
    HandleFile(w, f);
    DeniedIff(w, f.inode);
    FileMoved(w, w', f);
  }

  lemma WriteAtStep(w: World, w': World, f: File, data: seq<byte>, ofs: nat, n: nat)
    requires StateOk(w) && f in w.hm && WroteAt(w, w', f, data, ofs, n)
    ensures StateOk(w') && Spec.Step(Abs(w), Spec.WriteAt(f, data, ofs), Spec.Count(n), Abs(w')) && Cap(w') == Cap(w)
  {
    hide StateOk, Abs, Cap;
    HandleAbs(w, f);
    WrittenMoved(w, w', f, data, ofs, n);
  }

  lemma WriteStep(w: World, w': World, f: File, data: seq<byte>, n: nat)
    requires StateOk(w) && f in w.hm && WroteAt(w, w', f, data, w.hm[f].pos, n)
    ensures var w'' := WithPos(w', f, w.hm[f].pos + n);
      StateOk(w'') && Spec.Step(Abs(w), Spec.Write(f, data), Spec.Count(n), Abs(w'')) && Cap(w'') == Cap(w)
  {
    hide StateOk, Abs, Cap;
    HandleAbs(w, f);
    WrittenMoved(w, w', f, data, w.hm[f].pos, n);
    PosMoved(w', f, w.hm[f].pos + n);
  }

  /** file_deny_write by a file that did not deny writes before. */
  ghost function Denying(w: World, f: File): World
    requires f in w.hm && f.inode in w.tab.inodes
  {
    w.(tab := DenySet(w.tab, f), hm := w.hm[f := w.hm[f].(deny := true)])
  }

  ghost function Allowing(w: World, f: File): World
    requires f in w.hm && f.inode in w.tab.inodes
  {
    w.(tab := DenyCleared(w.tab, f), hm := w.hm[f := w.hm[f].(deny := false)])
  }

  lemma HandleListed(w: World, f: File)
    requires StateOk(w) && f in w.hm
    ensures f in w.tab.files && f.inode in w.tab.inodes && w.hm[f].deny == (f in w.tab.denying)
  {
    hide DiskOk;
  }

  lemma NotMapFile(w: World, f: File)
    requires StateOk(w) && f in w.hm
    ensures f != w.mapFile
  {
    hide DiskOk, TableOk;
  }

  lemma DenyMoved(w: World, f: File)
    requires StateOk(w) && f in w.hm && !w.hm[f].deny
    ensures f.inode in w.tab.inodes && StateOk(Denying(w, f)) && Abs(Denying(w, f)) == Abs(w).(handles := Denying(w, f).hm)
  {
    hide DiskOk, TableOk;
    HandleListed(w, f);
    var w' := Denying(w, f);
    DenySetOk(w.tab, f);
    assert HandlesOk(w') by { assert w'.hm.Keys == w.hm.Keys; }
    TableMoved(w, w');
  }

  lemma AllowMoved(w: World, f: File)
    requires StateOk(w) && f in w.hm && w.hm[f].deny
    ensures f.inode in w.tab.inodes && StateOk(Allowing(w, f)) && Abs(Allowing(w, f)) == Abs(w).(handles := Allowing(w, f).hm)
  {
    hide DiskOk, TableOk;
    HandleListed(w, f);
    var w' := Allowing(w, f);
    DenyClearedOk(w.tab, f);
    assert HandlesOk(w') by { assert w'.hm.Keys == w.hm.Keys; }
    TableMoved(w, w');
  }

  lemma DenyStep(w: World, w': World, f: File)
    requires StateOk(w) && f in w.hm && f.inode in w.tab.inodes && w' == if w.hm[f].deny then w else Denying(w, f)
    ensures StateOk(w') && Spec.Step(Abs(w), Spec.Deny(f), Spec.Void, Abs(w'))
  {
    hide StateOk, Abs;
    HandleAbs(w, f);
    if w.hm[f].deny {
      assert w.hm[f := w.hm[f].(deny := true)] == w.hm;
    } else {
      DenyMoved(w, f);
    }
  }

  lemma AllowStep(w: World, w': World, f: File)
    requires StateOk(w) && f in w.hm && f.inode in w.tab.inodes && w' == if w.hm[f].deny then Allowing(w, f) else w
    ensures StateOk(w') && Spec.Step(Abs(w), Spec.Allow(f), Spec.Void, Abs(w'))
  {
    hide StateOk, Abs;
    HandleAbs(w, f);
    if w.hm[f].deny {
      AllowMoved(w, f);
    } else {
      assert w.hm[f := w.hm[f].(deny := false)] == w.hm;
    }
  }

  /** An inode of the device is opened once more, or for the first time. */
  ghost predicate OpenedInode(w: World, w': World, i: Inode) {
    && w' == w.(tab := w'.tab)
    && if i in w.tab.inodes then w'.tab == Reopened(w.tab, i)
       else w'.tab == Added(w.tab, i) && (forall j :: j in w.tab.inodes ==> j.sector != i.sector)
            && WellFormed(w.disk) && i.sector < |w.disk| && i.data == InodeAt(w.disk, i.sector)
  }

  lemma InodeOpened(w: World, w': World, i: Inode)
    requires StateOk(w) && OpenedInode(w, w', i) && i.sector in OwnedBy(w.disk, Held(w.tab))
    ensures StateOk(w') && Abs(w') == Abs(w) && Held(w'.tab) == Held(w.tab)
  {
    hide DiskOk, TableOk;
    if i in w.tab.inodes { ReopenedOk(w.tab, i); } else { AddedOk(w.tab, i); }
    TableMoved(w, w');
  }

  /** file_open takes over the caller's reference. */
  ghost function WithFile(w: World, f: File): World {
    w.(tab := FileTaken(w.tab, f), hm := w.hm[f := Spec.Handle(f.inode.sector, 0, false)])
  }

  lemma FileOpened(w: World, f: File)
    requires StateOk(w) && f !in w.tab.files && f.inode in w.tab.refs && f.inode.sector > ROOT_DIR_SECTOR
    ensures StateOk(WithFile(w, f)) && Abs(WithFile(w, f)) == Spec.Opener(Abs(w), f, f.inode.sector)
  {
    hide DiskOk, TableOk;
    var w' := WithFile(w, f);
    FileTakenOk(w.tab, f);
    assert f !in w.tab.denying by { NotDenying(w.tab, f); }
    assert HandlesOk(w');
    TableMoved(w, w');
  }

  lemma NotDenying(t: Table, f: File)
    requires TableOk(t) && f !in t.files
    ensures f !in t.denying
  {}

  /** file_close gives its reference back before inode_close. */
  ghost function WithoutFile(w: World, f: File): World {
    w.(tab := FileGiven(w.tab, f), hm := w.hm - {f})
  }

  lemma FileDropped(w: World, f: File)
    requires StateOk(w) && f in w.hm && !w.hm[f].deny
    ensures StateOk(WithoutFile(w, f)) && Abs(WithoutFile(w, f)) == Abs(w).(handles := Abs(w).handles - {f})
    ensures f.inode in w.tab.inodes
  {
    hide DiskOk, TableOk;
    HandleListed(w, f);
    var w' := WithoutFile(w, f);
    FileGivenOk(w.tab, f);
    assert HandlesOk(w');
    TableMoved(w, w');
  }

  /** Whatever inode_close let go of is what the specification collects. */
  lemma Collected(s: Spec.Fs<File>, s': Spec.Fs<File>)
    requires Spec.Valid(s') && s'.names == s.names && s'.handles == s.handles
    requires forall h :: h in s'.files ==> h in s.files && s'.files[h] == s.files[h]
    ensures s' == Spec.Collect(s)
  {
    forall id ensures (Spec.Linked(s', id) <==> Spec.Linked(s, id)) && (Spec.IsOpen(s', id) <==> Spec.IsOpen(s, id)) {}
    assert s'.files == Spec.Collect(s).files;
  }

  lemma RemoveStep(s: Spec.Fs<File>, name: Name)
    ensures Spec.Step(s, Spec.Remove(name), Spec.Status(name in s.names), Spec.Collect(s.(names := s.names - {name})))
  {}

  lemma AllowOnly(s: Spec.Fs<File>, s': Spec.Fs<File>, f: File)
    requires Spec.Step(s, Spec.Allow(f), Spec.Void, s')
    ensures s'.(handles := s'.handles - {f}) == s.(handles := s.handles - {f}) && Spec.Enabled(s, Spec.Close(f))
  {
    assert s'.handles - {f} == s.handles - {f};
  }

  lemma CloseStep(s: Spec.Fs<File>, f: File)
    requires Spec.Enabled(s, Spec.Close(f))
    ensures Spec.Step(s, Spec.Close(f), Spec.Void, Spec.Collect(s.(handles := s.handles - {f})))
  {}

  /** dir is the in-memory inode of the root directory, and writes to it are not denied. */
  ghost predicate RootDir(w: World, dir: Inode) {
    && Placed(w.disk, ROOT_DIR_SECTOR) && dir.data == InodeAt(w.disk, ROOT_DIR_SECTOR)
    && dir in w.tab.inodes && w.tab.inodes[dir].deny == 0 && !w.tab.inodes[dir].removed
    && dir.data.length % ENTRY_SIZE == 0
  }

  lemma RootDirOpen(w: World, dir: Inode)
    requires StateOk(w) && dir in w.tab.inodes && dir.sector == ROOT_DIR_SECTOR
    ensures RootDir(w, dir)
  {
    DeniedIff(w, dir);
  }

  /** With the same device and map the capacity is the same. */
  lemma CapSame(w: World, w': World)
    requires StateOk(w) && StateOk(w') && w'.disk == w.disk && w'.bits == w.bits
    ensures Cap(w') == Cap(w)
  {
    hide StateOk;
  }

  lemma CapBits(w: World)
    requires StateOk(w)
    ensures Cap(w).bits == w.bits
  {
    hide StateOk;
  }

  lemma AbsHandles(w: World)
    requires StateOk(w)
    ensures Abs(w).handles == w.hm
  {
    hide DiskOk, TableOk;
  }

  lemma RootFits(w: World)
    requires StateOk(w)
    ensures Fits(w.disk, InodeAt(w.disk, ROOT_DIR_SECTOR))
  {}

  lemma OpenStep(s: Spec.Fs<File>, name: Name, f: File)
    requires name in s.names && f !in s.handles
    ensures Spec.Step(s, Spec.Open(name), Spec.Opened(f), Spec.Opener(s, f, s.names[name]))
  {}

  lemma OpenFails(s: Spec.Fs<File>, name: Name)
    requires name !in s.names
    ensures Spec.Step(s, Spec.Open(name), Spec.Null, s)
  {}
}
