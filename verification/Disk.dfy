/**
 * The block device and the extents that files occupy on it
 * (devices/block.h, and the sector arithmetic of filesys/inode.c).
 */
module Disk {
  import opened Bytes

  const SECTOR_SIZE: nat := 512

  type Sectors = seq<seq<byte>>

  ghost predicate WellFormed(d: Sectors) {
    forall s :: 0 <= s < |d| ==> |d[s]| == SECTOR_SIZE
  }

  /** A file's placement: its first data sector and its length in bytes. */
  datatype Extent = Extent(start: nat, length: nat)

  /** Sectors occupied by `length` bytes; no wrap-around for lengths that exist on a disk. */
  function SectorCount(length: nat): (n: nat)
    ensures SECTOR_SIZE * n >= length && SECTOR_SIZE * n < length + SECTOR_SIZE
  {
    (length + SECTOR_SIZE - 1) / SECTOR_SIZE
  }

  predicate InExtent(e: Extent, s: int) {
    e.start <= s < e.start + SectorCount(e.length)
  }

  ghost predicate Fits(d: Sectors, e: Extent) {
    WellFormed(d) && e.start + SectorCount(e.length) <= |d|
  }

  /** The bytes of a file: position k lives in sector start + k / 512 at offset k % 512. */
  ghost function Content(d: Sectors, e: Extent): (c: seq<byte>)
    requires Fits(d, e)
    ensures |c| == e.length
    decreases e.length
  {
    if e.length == 0 then []
    else Content(d, e.(length := e.length - 1)) + [d[e.start + (e.length - 1) / SECTOR_SIZE][(e.length - 1) % SECTOR_SIZE]]
  }

  lemma {:induction false} ContentAt(d: Sectors, e: Extent, k: nat)
    requires Fits(d, e) && k < e.length
    ensures InExtent(e, e.start + k / SECTOR_SIZE)
    ensures Content(d, e)[k] == d[e.start + k / SECTOR_SIZE][k % SECTOR_SIZE]
    decreases e.length
  {
    ByteInExtent(e, k);
    hide SectorCount;
    if k < e.length - 1 {
      ShorterFits(d, e);
      ContentAt(d, e.(length := e.length - 1), k);
    }
  }

  lemma ByteInExtent(e: Extent, k: nat)
    requires k < e.length
    ensures InExtent(e, e.start + k / SECTOR_SIZE)
  {}

  lemma ShorterFits(d: Sectors, e: Extent)
    requires Fits(d, e) && 0 < e.length
    ensures Fits(d, e.(length := e.length - 1))
  {}

  lemma Divided(q: nat, r: nat)
    requires r < SECTOR_SIZE
    ensures (SECTOR_SIZE * q + r) / SECTOR_SIZE == q && (SECTOR_SIZE * q + r) % SECTOR_SIZE == r
  {}

  /** Byte position pos of the file is byte j of sector s. */
  predicate At(e: Extent, pos: nat, s: nat, j: nat) {
    e.start <= s && pos == SECTOR_SIZE * (s - e.start) + j
  }

  /** A stretch of a file that stays within one sector is a stretch of that sector. */
  lemma ContentChunk(d: Sectors, e: Extent, pos: nat, s: nat, j: nat, n: nat)
    requires Fits(d, e) && At(e, pos, s, j) && j + n <= SECTOR_SIZE && 0 < n && pos + n <= e.length
    ensures InExtent(e, s)
    ensures Content(d, e)[pos..pos + n] == d[s][j..j + n]
  {
    var a, b := Content(d, e)[pos..pos + n], d[s][j..j + n];
    forall k | 0 <= k < n ensures a[k] == b[k] {
      ContentAt(d, e, pos + k);
      Divided(s - e.start, j + k);
    }
    ContentAt(d, e, pos);
    Divided(s - e.start, j);
  }

  /** What a read of `size` bytes at `offset` returns. */
  function Slice(c: seq<byte>, offset: nat, size: int): (r: seq<byte>)
    ensures |r| == if size <= 0 || offset >= |c| then 0 else Min(size, |c| - offset)
  {
    if size <= 0 || offset >= |c| then [] else c[offset..offset + Min(size, |c| - offset)]
  }

  lemma EmptySlice(c: seq<byte>, offset: nat, size: int)
    ensures Slice(c, offset, 0) == [] && (size <= 0 || offset >= |c| ==> Slice(c, offset, size) == [])
  {}

  /** Reading stops when everything was read that was asked for or that there is. */
  lemma SliceDone(c: seq<byte>, offset: nat, b: seq<byte>, size: int)
    requires b == Slice(c, offset, |b|)
    requires if size <= 0 then b == [] else |b| == size || (|b| < size && offset + |b| >= |c|)
    ensures b == Slice(c, offset, size)
  {}

  /** A file's bytes after `data`, which fits, was written at `offset`. */
  function Overwrite(c: seq<byte>, offset: nat, data: seq<byte>): (r: seq<byte>)
    requires offset + |data| <= |c| || data == []
    ensures |r| == |c|
  {
    if data == [] then c else c[..offset] + data + c[offset + |data|..]
  }

  lemma OverwriteAt(c: seq<byte>, offset: nat, data: seq<byte>, k: nat)
    requires offset + |data| <= |c| || data == []
    requires k < |c|
    ensures Overwrite(c, offset, data)[k] == if offset <= k < offset + |data| then data[k - offset] else c[k]
  {}

  lemma OverwriteNone(c: seq<byte>, offset: nat)
    ensures Overwrite(c, offset, []) == c
  {}

  lemma OverwriteCompose(c: seq<byte>, offset: nat, a: seq<byte>, pos: nat, b: seq<byte>)
    requires pos == offset + |a| && pos + |b| <= |c|
    ensures Overwrite(Overwrite(c, offset, a), pos, b) == Overwrite(c, offset, a + b)
  {}

  /** Content depends on the sectors of the extent alone. */
  lemma ContentFrame(d: Sectors, d': Sectors, e: Extent)
    requires Fits(d, e) && Fits(d', e)
    requires forall s :: InExtent(e, s) ==> d'[s] == d[s]
    ensures Content(d', e) == Content(d, e)
  {
    var c, c' := Content(d, e), Content(d', e);
    forall k | 0 <= k < e.length ensures c'[k] == c[k] {
      ContentAt(d, e, k);
      ContentAt(d', e, k);
    }
  }

  /** Replacing part of one sector overwrites exactly that stretch of the file. */
  lemma ChunkWritten(d: Sectors, e: Extent, pos: nat, s: nat, j: nat, chunk: seq<byte>, sector: seq<byte>)
    requires Fits(d, e) && At(e, pos, s, j) && j + |chunk| <= SECTOR_SIZE && 0 < |chunk| && pos + |chunk| <= e.length
    requires InExtent(e, s)
    requires sector == d[s][..j] + chunk + d[s][j + |chunk|..]
    ensures Content(d[s := sector], e) == Overwrite(Content(d, e), pos, chunk)
  {
    var c, c' := Content(d, e), Content(d[s := sector], e);
    var r := Overwrite(c, pos, chunk);
    forall k | 0 <= k < e.length ensures c'[k] == r[k] {
      ContentAt(d, e, k);
      ContentAt(d[s := sector], e, k);
      OverwriteAt(c, pos, chunk, k);
      if pos <= k < pos + |chunk| { Divided(s - e.start, k - pos + j); }
    }
  }

  /** Appending the next chunk of a file extends what was read of it. */
  lemma ChunkAppended(d: Sectors, e: Extent, offset: nat, was: seq<byte>, s: nat, j: nat, n: nat)
    requires Fits(d, e) && At(e, offset + |was|, s, j) && j + n <= SECTOR_SIZE && 0 < n && offset + |was| + n <= e.length
    requires was == Slice(Content(d, e), offset, |was|)
    ensures InExtent(e, s)
    ensures was + d[s][j..j + n] == Slice(Content(d, e), offset, |was| + n)
    ensures j == 0 && n == SECTOR_SIZE ==> d[s][j..j + n] == d[s]
  {
    ContentChunk(d, e, offset + |was|, s, j, n);
    SliceExtended(Content(d, e), offset, was, n);
  }

  /** memcpy of the chunk into a sector-sized buffer. */
  function Patched(sector: seq<byte>, j: nat, chunk: seq<byte>): (r: seq<byte>)
    requires |sector| == SECTOR_SIZE && j + |chunk| <= SECTOR_SIZE
    ensures |r| == SECTOR_SIZE
  {
    sector[..j] + chunk + sector[j + |chunk|..]
  }

  /** Appending the next stretch of a file extends the slice that was read. */
  lemma SliceExtended(c: seq<byte>, offset: nat, was: seq<byte>, n: nat)
    requires was == Slice(c, offset, |was|) && offset + |was| + n <= |c| && 0 < n
    ensures was + c[offset + |was|..offset + |was| + n] == Slice(c, offset, |was| + n)
  {
    if |was| > 0 {
      assert c[offset..offset + |was|] + c[offset + |was|..offset + |was| + n] == c[offset..offset + |was| + n];
    }
  }
}
