/** Bitmaps packed into 32-bit words (lib/kernel/bitmap.c). */
module Bitmaps {
  import opened Bytes
  import opened Words

  const ELEM_BITS: nat := 32

  type Word = w: nat | w < TWO32

  function ElemCnt(bitCnt: nat): nat { (bitCnt + ELEM_BITS - 1) / ELEM_BITS }

  function ByteCnt(bitCnt: nat): nat { 4 * ElemCnt(bitCnt) }

  /** The bits that a word array represents. */
  ghost function BitsOf(words: seq<Word>, cnt: nat): (b: seq<bool>)
    requires |words| == ElemCnt(cnt)
    ensures |b| == cnt
    ensures forall i :: 0 <= i < cnt ==> b[i] == Bit(words[i / ELEM_BITS], i % ELEM_BITS)
  {
    seq(cnt, i requires 0 <= i < cnt => Bit(words[i / ELEM_BITS], i % ELEM_BITS))
  }

  /** The bits after [start, start + cnt) were set to value. */
  ghost function SetRange(b: seq<bool>, start: nat, cnt: nat, value: bool): (r: seq<bool>)
    ensures |r| == |b|
    ensures forall i :: 0 <= i < |b| ==> r[i] == if start <= i < start + cnt then value else b[i]
  {
    seq(|b|, i requires 0 <= i < |b| => if start <= i < start + cnt then value else b[i])
  }

  /** A group of cnt consecutive bits equal to value starts at i. */
  ghost predicate IsRun(b: seq<bool>, i: nat, cnt: nat, value: bool) {
    i + cnt <= |b| && forall j :: i <= j < i + cnt ==> b[j] == value
  }

  datatype ScanResult = Found(idx: nat) | BitmapError

  /** What bitmap_scan promises: the first group at or after start, or an error if there is none. */
  ghost predicate IsFirstRun(b: seq<bool>, start: nat, cnt: nat, value: bool, r: ScanResult) {
    match r
    case Found(i) => start <= i && IsRun(b, i, cnt, value) && forall k :: start <= k < i ==> !IsRun(b, k, cnt, value)
    case BitmapError => forall k :: start <= k ==> !IsRun(b, k, cnt, value)
  }

  /** Storage of a word array in a file, least significant byte first. */
  function Encode(words: seq<Word>): (bytes: seq<byte>)
    ensures |bytes| == 4 * |words|
  {
    if words == [] then [] else LE32(words[0]) + Encode(words[1..])
  }

  function Decode(bytes: seq<byte>): (words: seq<Word>)
    requires |bytes| % 4 == 0
    ensures |words| == |bytes| / 4
  {
    if bytes == [] then [] else [FromLE32(bytes[..4])] + Decode(bytes[4..])
  }

  lemma {:induction false} DecodeEncode(words: seq<Word>)
    ensures Decode(Encode(words)) == words
  {
    if words != [] {
      LE32RoundTrip(words[0]);
      DecodeEncode(words[1..]);
      assert Encode(words)[..4] == LE32(words[0]) && Encode(words)[4..] == Encode(words[1..]);
    }
  }

  /** Mask with 1 in the bits of the last word that are in use. */
  function LastMask(bitCnt: nat): nat {
    if bitCnt % ELEM_BITS != 0 then Pow2(bitCnt % ELEM_BITS) - 1 else Pow2(ELEM_BITS) - 1
  }

  lemma WordMasks(w: Word, k: nat)
    requires k < ELEM_BITS
    ensures Pow2(k) < TWO32 && Or(w, Pow2(k)) < TWO32
    ensures 0 <= Complement(Pow2(k), ELEM_BITS) && And(w, Complement(Pow2(k), ELEM_BITS)) < TWO32
  {
    Pow2_32();
    Pow2Mono(k, ELEM_BITS);
    OrBound(w, Pow2(k), ELEM_BITS);
    AndBound(w, Complement(Pow2(k), ELEM_BITS));
  }

  lemma BitSet(w: Word, k: nat, i: nat)
    requires k < ELEM_BITS && i < ELEM_BITS
    ensures Bit(Or(w, Pow2(k)), i) == (i == k || Bit(w, i))
  {
    OrBit(w, Pow2(k), i);
    Pow2Bit(k, i);
  }

  lemma BitCleared(w: Word, k: nat, i: nat)
    requires k < ELEM_BITS && i < ELEM_BITS
    ensures 0 <= Complement(Pow2(k), ELEM_BITS)
    ensures Bit(And(w, Complement(Pow2(k), ELEM_BITS)), i) == (i != k && Bit(w, i))
  {
    WordMasks(w, k);
    AndBit(w, Complement(Pow2(k), ELEM_BITS), i);
    ComplementBit(Pow2(k), ELEM_BITS, i);
    Pow2Bit(k, i);
  }

  /** Rewriting the word that holds bit idx so that only that digit changes rewrites only that bit. */
  lemma OneBitChanged(words: seq<Word>, cnt: nat, idx: nat, w: Word, value: bool)
    requires |words| == ElemCnt(cnt) && idx < cnt
    requires forall i :: 0 <= i < ELEM_BITS ==>
      Bit(w, i) == if i == idx % ELEM_BITS then value else Bit(words[idx / ELEM_BITS], i)
    ensures BitsOf(words[idx / ELEM_BITS := w], cnt) == BitsOf(words, cnt)[idx := value]
  {
    var b := BitsOf(words[idx / ELEM_BITS := w], cnt);
    var b0 := BitsOf(words, cnt)[idx := value];
    forall i | 0 <= i < cnt ensures b[i] == b0[i] {
      if i / ELEM_BITS == idx / ELEM_BITS {
        assert i == idx <==> i % ELEM_BITS == idx % ELEM_BITS;
      }
    }
  }

  lemma InUseDigit(cnt: nat, i: nat)
    requires i < cnt && i / ELEM_BITS == ElemCnt(cnt) - 1
    ensures Bit(LastMask(cnt), i % ELEM_BITS)
  {
    if cnt % ELEM_BITS != 0 {
      assert i % ELEM_BITS < cnt % ELEM_BITS;
      LowMaskBit(cnt % ELEM_BITS, i % ELEM_BITS);
    } else {
      LowMaskBit(ELEM_BITS, i % ELEM_BITS);
    }
  }

  /** Clearing the unused digits of the last word changes no bit of the map. */
  lemma LastWordMasked(words: seq<Word>, cnt: nat)
    requires |words| == ElemCnt(cnt) && 0 < cnt
    ensures And(words[|words| - 1], LastMask(cnt)) < TWO32
    ensures BitsOf(words[|words| - 1 := And(words[|words| - 1], LastMask(cnt))], cnt) == BitsOf(words, cnt)
  {
    var last := |words| - 1;
    AndBound(words[last], LastMask(cnt));
    var b := BitsOf(words[last := And(words[last], LastMask(cnt))], cnt);
    forall i | 0 <= i < cnt ensures b[i] == BitsOf(words, cnt)[i] {
      if i / ELEM_BITS == last {
        InUseDigit(cnt, i);
        AndBit(words[last], LastMask(cnt), i % ELEM_BITS);
      }
    }
  }

  class Bitmap {
    const bitCnt: nat
    const words: array<Word>

    ghost predicate Valid() { words.Length == ElemCnt(bitCnt) }

    ghost function Bits(): (b: seq<bool>)
      requires Valid()
      reads words
      ensures |b| == bitCnt
    {
      BitsOf(words[..], bitCnt)
    }

    /** bitmap_create: the words start out as whatever malloc returned. */
    constructor (cnt: nat)
      ensures Valid() && bitCnt == cnt && fresh(words)
      ensures Bits() == seq(cnt, _ => false)
    {
      bitCnt := cnt;
      words := new Word[ElemCnt(cnt)];
      new;
      SetMultiple(0, bitCnt, false);
    }

    method Mark(idx: nat)
      requires Valid() && idx < bitCnt
      modifies words
      ensures Bits() == old(Bits())[idx := true]
    {
      var e, k := idx / ELEM_BITS, idx % ELEM_BITS;
      WordMasks(words[e], k);
      forall i | 0 <= i < ELEM_BITS { BitSet(words[e], k, i); }
      OneBitChanged(words[..], bitCnt, idx, Or(words[e], Pow2(k)), true);
      words[e] := Or(words[e], Pow2(k));
      assert words[..] == old(words[..])[e := words[e]];
    }

    method Reset(idx: nat)
      requires Valid() && idx < bitCnt
      modifies words
      ensures Bits() == old(Bits())[idx := false]
    {
      var e, k := idx / ELEM_BITS, idx % ELEM_BITS;
      WordMasks(words[e], k);
      forall i | 0 <= i < ELEM_BITS { BitCleared(words[e], k, i); }
      OneBitChanged(words[..], bitCnt, idx, And(words[e], Complement(Pow2(k), ELEM_BITS)), false);
      words[e] := And(words[e], Complement(Pow2(k), ELEM_BITS));
      assert words[..] == old(words[..])[e := words[e]];
    }

    method Set(idx: nat, value: bool)
      requires Valid() && idx < bitCnt
      modifies words
      ensures Bits() == old(Bits())[idx := value]
    {
      if value { Mark(idx); } else { Reset(idx); }
    }

    method Test(idx: nat) returns (r: bool)
      requires Valid() && idx < bitCnt
      ensures r == Bits()[idx]
    {
      var e, k := idx / ELEM_BITS, idx % ELEM_BITS;
      var w := And(words[e], Pow2(k));
      r := w != 0;
      SingleBit(words[e], k);
    }

    method SetMultiple(start: nat, cnt: nat, value: bool)
      requires Valid() && start + cnt <= bitCnt
      modifies words
      ensures Bits() == SetRange(old(Bits()), start, cnt, value)
    {
      for i := 0 to cnt
        invariant Bits() == SetRange(old(Bits()), start, i, value)
      {
        Set(start + i, value);
      }
    }

    method Contains(start: nat, cnt: nat, value: bool) returns (r: bool)
      requires Valid() && start + cnt <= bitCnt
      ensures r == exists i :: start <= i < start + cnt && Bits()[i] == value
    {
      for i := 0 to cnt
        invariant forall j :: start <= j < start + i ==> Bits()[j] != value
      {
        var t := Test(start + i);
        if t == value { return true; }
      }
      return false;
    }

    method Scan(start: nat, cnt: nat, value: bool) returns (r: ScanResult)
      requires Valid() && start <= bitCnt
      ensures IsFirstRun(Bits(), start, cnt, value, r)
    {
      if cnt <= bitCnt {
        var last := bitCnt - cnt;
        var i := start;
        while i <= last
          invariant start <= i
          invariant forall k :: start <= k < i ==> !IsRun(Bits(), k, cnt, value)
        {
          var c := Contains(i, cnt, !value);
          if !c { return Found(i); }
          i := i + 1;
        }
      }
      return BitmapError;
    }

    method ScanAndFlip(start: nat, cnt: nat, value: bool) returns (r: ScanResult)
      requires Valid() && start <= bitCnt
      modifies words
      ensures IsFirstRun(old(Bits()), start, cnt, value, r)
      ensures Bits() == if r.Found? then SetRange(old(Bits()), r.idx, cnt, !value) else old(Bits())
    {
      r := Scan(start, cnt, value);
      if r.Found? { SetMultiple(r.idx, cnt, !value); }
    }

    /** The memory image that bitmap_write hands to file_write_at. */
    method ToBytes() returns (bytes: seq<byte>)
      requires Valid()
      ensures |bytes| == ByteCnt(bitCnt)
      ensures BitsOf(Decode(bytes), bitCnt) == Bits()
    {
      bytes := Encode(words[..]);
      DecodeEncode(words[..]);
    }

    /** bitmap_read, once file_read_at has delivered all the bytes. */
    method FromBytes(bytes: seq<byte>)
      requires Valid() && |bytes| == ByteCnt(bitCnt)
      modifies words
      ensures Bits() == BitsOf(Decode(bytes), bitCnt)
    {
      if bitCnt > 0 {
        var ws := Decode(bytes);
        forall i | 0 <= i < words.Length { words[i] := ws[i]; }
        assert words[..] == ws;
        LastWordMasked(ws, bitCnt);
        var last := words.Length - 1;
        words[last] := And(words[last], LastMask(bitCnt));
        assert words[..] == ws[last := words[last]];
      }
    }
  }

  /** `(w & (1 << k)) != 0` tests digit k. */
  lemma SingleBit(w: Word, k: nat)
    ensures And(w, Pow2(k)) != 0 <==> Bit(w, k)
  {
    AndBit(w, Pow2(k), k);
    Pow2Bit(k, k);
    BitZero(k);
    if And(w, Pow2(k)) != 0 { AndPow2(w, k); }
  }

  lemma {:induction false} AndPow2(w: nat, k: nat)
    requires And(w, Pow2(k)) != 0
    ensures Bit(w, k)
  {
    if k > 0 {
      assert Pow2(k) % 2 == 0 && Pow2(k) / 2 == Pow2(k - 1);
      AndPow2(w / 2, k - 1);
    }
  }
}
