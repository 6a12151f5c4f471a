/**
 * In-memory inodes and open files (filesys/inode.h, filesys/file.h), and
 * the bookkeeping between them: who has which inode open, who denies
 * writes to it, and which inodes were removed while open.
 */
module InodeTable {
  import opened Disk

  /** In-memory inode. */
  class Inode {
    const sector: nat
    const data: Extent
    var openCnt: int
    var denyWriteCnt: int
    var removed: bool

    constructor (sector: nat, data: Extent)
      ensures this.sector == sector && this.data == data
      ensures openCnt == 1 && denyWriteCnt == 0 && !removed
    {
      this.sector, this.data := sector, data;
      openCnt, denyWriteCnt, removed := 1, 0, false;
    }

    ghost function Rec(): InodeRec
      reads this
    {
      InodeRec(openCnt, denyWriteCnt, removed)
    }
  }

  /** An open file. */
  class File {
    const inode: Inode
    var pos: nat
    var denyWrite: bool

    constructor (inode: Inode)
      ensures this.inode == inode && pos == 0 && !denyWrite
    {
      this.inode := inode;
      pos, denyWrite := 0, false;
    }
  }

  datatype InodeRec = InodeRec(openCnt: int, deny: int, removed: bool)

  /**
   * A snapshot of the table: the inodes on the list of open inodes, the open files, those of
   * them that deny writes, and the references held by running code (an opened directory, an
   * inode just looked up).
   */
  datatype Table = Table(inodes: map<Inode, InodeRec>, files: set<File>, denying: set<File>, refs: multiset<Inode>)

  /** The files among these that have the inode open. */
  ghost function On(files: set<File>, i: Inode): set<File> {
    set f | f in files && f.inode == i
  }

  /** open_cnt counts exactly the files and references that have the inode open. */
  ghost predicate OpensCounted(t: Table) {
    forall i :: i in t.inodes ==> 0 < t.inodes[i].openCnt == |On(t.files, i)| + t.refs[i]
  }

  /** deny_write_cnt counts exactly the files that deny writes to the inode. */
  ghost predicate DenialsCounted(t: Table) {
    t.denying <= t.files && forall i :: i in t.inodes ==> t.inodes[i].deny == |On(t.denying, i)|
  }

  /** No inode is in memory twice, and whatever is open is in the table. */
  ghost predicate Shape(t: Table) {
    && (forall i, j :: i in t.inodes && j in t.inodes && i.sector == j.sector ==> i == j)
    && (forall f :: f in t.files ==> f.inode in t.inodes)
    && (forall i :: i in t.refs ==> i in t.inodes)
  }

  ghost predicate TableOk(t: Table) {
    Shape(t) && OpensCounted(t) && DenialsCounted(t)
  }

  /** Header sectors of the inodes that were removed while open. */
  ghost function Held(t: Table): set<nat> {
    set i | i in t.inodes && t.inodes[i].removed :: i.sector
  }

  // ------------------------------------------------------- transitions

  ghost function Added(t: Table, i: Inode): Table {
    t.(inodes := t.inodes[i := InodeRec(1, 0, false)], refs := t.refs + multiset{i})
  }

  ghost function Reopened(t: Table, i: Inode): Table
    requires i in t.inodes
  {
    t.(inodes := t.inodes[i := t.inodes[i].(openCnt := t.inodes[i].openCnt + 1)], refs := t.refs + multiset{i})
  }

  /** One reference is given up; an inode that loses its last one leaves the table. */
  ghost function Dropped(t: Table, i: Inode): Table
    requires i in t.inodes
  {
    var n := t.inodes[i].openCnt - 1;
    t.(inodes := if n == 0 then t.inodes - {i} else t.inodes[i := t.inodes[i].(openCnt := n)], refs := t.refs - multiset{i})
  }

  /** A file takes over a reference, and gives it back. */
  ghost function FileTaken(t: Table, f: File): Table {
    t.(files := t.files + {f}, refs := t.refs - multiset{f.inode})
  }

  ghost function FileGiven(t: Table, f: File): Table {
    t.(files := t.files - {f}, refs := t.refs + multiset{f.inode})
  }

  ghost function DenySet(t: Table, f: File): Table
    requires f.inode in t.inodes
  {
    var r := t.inodes[f.inode];
    t.(denying := t.denying + {f}, inodes := t.inodes[f.inode := r.(deny := r.deny + 1)])
  }

  ghost function DenyCleared(t: Table, f: File): Table
    requires f.inode in t.inodes
  {
    var r := t.inodes[f.inode];
    t.(denying := t.denying - {f}, inodes := t.inodes[f.inode := r.(deny := r.deny - 1)])
  }

  ghost function MarkedRemoved(t: Table, i: Inode): Table
    requires i in t.inodes
  {
    t.(inodes := t.inodes[i := t.inodes[i].(removed := true)])
  }

  lemma OneMore(files: set<File>, f: File, i: Inode)
    requires f !in files
    ensures |On(files + {f}, i)| == |On(files, i)| + (if f.inode == i then 1 else 0)
  {
    assert On(files + {f}, i) == On(files, i) + (if f.inode == i then {f} else {});
  }

  lemma AddedOk(t: Table, i: Inode)
    requires TableOk(t) && forall j :: j in t.inodes ==> j.sector != i.sector
    ensures TableOk(Added(t, i)) && Held(Added(t, i)) == Held(t)
  {
    assert i !in t.inodes;
    assert On(t.files, i) == {} && On(t.denying, i) == {};
    assert t.refs[i] == 0;
  }

  lemma ReopenedOk(t: Table, i: Inode)
    requires TableOk(t) && i in t.inodes
    ensures TableOk(Reopened(t, i)) && Held(Reopened(t, i)) == Held(t)
  {}

  /** An inode whose one reference is held by running code is open in no file. */
  lemma NoFileLeft(t: Table, i: Inode)
    requires TableOk(t) && i in t.refs && t.inodes[i].openCnt == 1
    ensures t.refs[i] == 1 && forall f :: f in t.files ==> f.inode != i
  {
    assert On(t.files, i) == {};
    forall f | f in t.files ensures f.inode != i {
      assert f.inode == i ==> f in On(t.files, i);
    }
  }

  lemma DroppedOk(t: Table, i: Inode)
    requires TableOk(t) && i in t.refs
    ensures TableOk(Dropped(t, i))
    ensures Held(Dropped(t, i)) ==
      if t.inodes[i].openCnt == 1 && t.inodes[i].removed then Held(t) - {i.sector} else Held(t)
  {
    var t' := Dropped(t, i);
    if t.inodes[i].openCnt == 1 { NoFileLeft(t, i); }
    assert Shape(t');
    assert OpensCounted(t');
  }

  lemma FileTakenOk(t: Table, f: File)
    requires TableOk(t) && f !in t.files && f.inode in t.refs
    ensures TableOk(FileTaken(t, f)) && Held(FileTaken(t, f)) == Held(t)
  {
    forall i | i in t.inodes ensures |On(t.files + {f}, i)| == |On(t.files, i)| + (if f.inode == i then 1 else 0) {
      OneMore(t.files, f, i);
    }
  }

  lemma FileGivenOk(t: Table, f: File)
    requires TableOk(t) && f in t.files && f !in t.denying
    ensures TableOk(FileGiven(t, f)) && Held(FileGiven(t, f)) == Held(t)
  {
    assert t.files == t.files - {f} + {f};
    forall i | i in t.inodes ensures |On(t.files, i)| == |On(t.files - {f}, i)| + (if f.inode == i then 1 else 0) {
      OneMore(t.files - {f}, f, i);
    }
  }

  lemma DenySetOk(t: Table, f: File)
    requires TableOk(t) && f in t.files && f !in t.denying
    ensures TableOk(DenySet(t, f)) && Held(DenySet(t, f)) == Held(t)
  {
    forall i | i in t.inodes ensures |On(t.denying + {f}, i)| == |On(t.denying, i)| + (if f.inode == i then 1 else 0) {
      OneMore(t.denying, f, i);
    }
  }

  lemma DenyClearedOk(t: Table, f: File)
    requires TableOk(t) && f in t.denying
    ensures TableOk(DenyCleared(t, f)) && Held(DenyCleared(t, f)) == Held(t)
  {
    assert t.denying == t.denying - {f} + {f};
    forall i | i in t.inodes ensures |On(t.denying, i)| == |On(t.denying - {f}, i)| + (if f.inode == i then 1 else 0) {
      OneMore(t.denying - {f}, f, i);
    }
  }

  lemma MarkedRemovedOk(t: Table, i: Inode)
    requires TableOk(t) && i in t.inodes
    ensures TableOk(MarkedRemoved(t, i)) && Held(MarkedRemoved(t, i)) == Held(t) + {i.sector}
  {}
}
