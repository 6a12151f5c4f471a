/** Headers of ustar archives (lib/ustar.c). */
module Ustar {
  import opened Bytes
  import opened Options
  import opened Octal

  const HEADER_SIZE := 512
  const SLASH: byte := 0x2F
  const DOT: byte := 0x2E
  const USTAR: seq<byte> := [0x75, 0x73, 0x74, 0x61, 0x72]
  const ROOT: seq<byte> := [0x72, 0x6F, 0x6F, 0x74]
  const MTIME := 1136102400

  // ------------------------------------------------------------------ file names

  predicate Antisocial(n: seq<byte>) { (n != [] && n[0] == SLASH) || [DOT, SLASH] <= n || [DOT, DOT, SLASH] <= n }

  /** strchr for a slash. */
  function SlashAt(n: seq<byte>): (k: nat)
    requires SLASH in n
    ensures k < |n| && n[k] == SLASH && SLASH !in n[..k]
  {
    if n[0] == SLASH then 0
    else
      var k := 1 + SlashAt(n[1..]);
      assert n[..k] == [n[0]] + n[1..][..k - 1];
      k
  }

  lemma AntisocialSlash(n: seq<byte>)
    requires Antisocial(n)
    ensures SLASH in n
  {
    if [DOT, SLASH] <= n { assert n[1] == SLASH; }
    if [DOT, DOT, SLASH] <= n { assert n[2] == SLASH; }
  }

  /** The name without the prefixes that lead elsewhere. */
  function Strip(n: seq<byte>): (r: seq<byte>)
    ensures !Antisocial(r) && r != [] && r != [DOT, DOT] && (0 !in n ==> 0 !in r)
  {
    if Antisocial(n) then
      AntisocialSlash(n);
      Strip(n[SlashAt(n) + 1..])
    else if n == [] || n == [DOT, DOT] then [DOT] else n
  }

  /** Stripping again changes nothing. */
  lemma StripTwice(n: seq<byte>)
    ensures Strip(Strip(n)) == Strip(n)
  {}

  /** What is left is the end of the name, or a dot. */
  lemma {:induction false} StripSuffix(n: seq<byte>) returns (k: nat)
    ensures k <= |n| && (Strip(n) == [DOT] || Strip(n) == n[k..])
  {
    if Antisocial(n) {
      AntisocialSlash(n);
      var j := SlashAt(n) + 1;
      var i := StripSuffix(n[j..]);
      k := j + i;
      assert n[j..][i..] == n[k..];
    } else {
      k := 0;
      assert n[0..] == n;
    }
  }

  /** The pieces that are taken off the front of a name: "/", "./" and "../". */
  predicate Piece(p: seq<byte>) { p == [SLASH] || p == [DOT, SLASH] || p == [DOT, DOT, SLASH] }

  function Joined(ps: seq<seq<byte>>): seq<byte> { if ps == [] then [] else ps[0] + Joined(ps[1..]) }

  predicate AllPieces(ps: seq<seq<byte>>) { forall i :: 0 <= i < |ps| ==> Piece(ps[i]) }

  /** The piece that a name begins with. */
  function FirstPiece(n: seq<byte>): (p: seq<byte>)
    requires Antisocial(n)
    ensures Piece(p) && p <= n
  {
    if n[0] == SLASH then [SLASH] else if n[1] == SLASH then [DOT, SLASH] else [DOT, DOT, SLASH]
  }

  lemma JoinedOne(p: seq<byte>, qs: seq<seq<byte>>, rest: seq<byte>)
    ensures Joined([p] + qs) + rest == p + (Joined(qs) + rest)
  {
    assert ([p] + qs)[1..] == qs;
  }

  /** Every name is some such pieces and a rest that does not begin with one. */
  lemma {:induction false} Splits(n: seq<byte>) returns (ps: seq<seq<byte>>, rest: seq<byte>)
    ensures AllPieces(ps) && n == Joined(ps) + rest && !Antisocial(rest)
  {
    hide Antisocial, Piece;
    if Antisocial(n) {
      var p := FirstPiece(n);
      NotEmpty(p);
      assert n == p + n[|p|..];
      var qs;
      qs, rest := Splits(n[|p|..]);
      ps := [p] + qs;
      JoinedOne(p, qs, rest);
    } else {
      ps, rest := [], n;
      assert n == [] + rest;
    }
  }

  lemma NotEmpty(p: seq<byte>)
    requires Piece(p)
    ensures p != []
  {}

  /** Stripping takes off all these pieces and nothing else; a dot stands for a rest that is empty or leads up. */
  lemma {:induction false} StripIs(ps: seq<seq<byte>>, rest: seq<byte>)
    requires AllPieces(ps) && !Antisocial(rest)
    ensures Strip(Joined(ps) + rest) == if rest == [] || rest == [DOT, DOT] then [DOT] else rest
  {
    if ps == [] {
      assert Joined(ps) + rest == rest;
    } else {
      var p, more := ps[0], Joined(ps[1..]) + rest;
      StripIs(ps[1..], rest);
      assert Joined(ps) + rest == p + more;
      hide Strip;
      StripPiece(p, more);
    }
  }

  lemma SlashIs(n: seq<byte>, k: nat)
    requires k < |n| && n[k] == SLASH && forall i :: 0 <= i < k ==> n[i] != SLASH
    ensures SlashAt(n) == k
  {
    var j := SlashAt(n);
    assert forall i :: 0 <= i < j ==> n[i] != SLASH by { assert forall i :: 0 <= i < j ==> n[i] in n[..j]; }
  }

  lemma StripPiece(p: seq<byte>, more: seq<byte>)
    requires Piece(p)
    ensures Strip(p + more) == Strip(more)
  {
    var n := p + more;
    assert n[..|p|] == p && n[|p| - 1] == SLASH && Antisocial(n);
    AntisocialSlash(n);
    SlashIs(n, |p| - 1);
    assert n[|p|..] == more;
  }

  /** A name is left as it is just when it does not begin with such a piece, is not empty and is not "..". */
  lemma StripKeeps(n: seq<byte>)
    ensures Strip(n) == n <==> n != [] && n != [DOT, DOT] && n[0] != SLASH && !([DOT, SLASH] <= n) && !([DOT, DOT, SLASH] <= n)
  {}

  /** strip_antisocial_prefixes. */
  method StripAntisocialPrefixes(fileName: seq<byte>) returns (r: seq<byte>)
    ensures r == Strip(fileName)
  {
    var n := fileName;
    while Antisocial(n)
      invariant Strip(n) == Strip(fileName)
      decreases |n|
    {
      AntisocialSlash(n);
      n := n[SlashAt(n) + 1..];
    }
    return if n == [] || n == [DOT, DOT] then [DOT] else n;
  }

  // -------------------------------------------------------------------- checksums

  predicate InChksum(i: int) { 148 <= i < 156 }

  /** The sum of the first n bytes, with spaces for the checksum field. */
  function Sum(h: seq<byte>, n: nat): (s: nat)
    requires n <= |h|
    ensures s <= 255 * n
  {
    if n == 0 then 0 else Sum(h, n - 1) + (if InChksum(n - 1) then SPACE as int else h[n - 1] as int)
  }

  /** The checksum does not depend on the field that holds it. */
  lemma {:induction false} SumIndependent(h: seq<byte>, h': seq<byte>, n: nat)
    requires n <= |h| && n <= |h'| && forall i :: 0 <= i < n && !InChksum(i) ==> h'[i] == h[i]
    ensures Sum(h', n) == Sum(h, n)
  {
    if n > 0 { SumIndependent(h, h', n - 1); }
  }

  /** calculate_chksum. */
  method CalculateChksum(h: seq<byte>) returns (chksum: nat)
    requires |h| == HEADER_SIZE
    ensures chksum == Sum(h, HEADER_SIZE)
  {
    chksum := 0;
    for i := 0 to HEADER_SIZE
      invariant chksum == Sum(h, i)
    {
      chksum := chksum + if 148 <= i < 148 + 8 then SPACE as int else h[i] as int;
    }
  }

  // ---------------------------------------------------------------------- headers

  function Mode(regular: bool): nat { if regular then 420 else 493 }

  /** Byte i of the header of a file, with some checksum field. */
  function HeaderByte(name: seq<byte>, regular: bool, size: nat, chksum: seq<byte>, i: nat): byte
    requires |name| < 100 && |chksum| == 8 && i < HEADER_SIZE
  {
    if i < 100 then (if i < |name| then name[i] else 0)
    else if i < 108 then FieldOf(Mode(regular), 7, 8)[i - 100]
    else if i < 116 then FieldOf(0, 7, 8)[i - 108]
    else if i < 124 then FieldOf(0, 7, 8)[i - 116]
    else if i < 136 then FieldOf(size, 11, 12)[i - 124]
    else if i < 148 then FieldOf(MTIME, 11, 12)[i - 136]
    else if i < 156 then chksum[i - 148]
    else if i == 156 then (if regular then 0x30 else 0x35)
    else if 257 <= i < 262 then USTAR[i - 257]
    else if 263 <= i < 265 then 0x30
    else if 265 <= i < 269 then ROOT[i - 265]
    else if 297 <= i < 301 then ROOT[i - 297]
    else 0
  }

  function HeaderWith(name: seq<byte>, regular: bool, size: nat, chksum: seq<byte>): (h: seq<byte>)
    requires |name| < 100 && |chksum| == 8
    ensures |h| == HEADER_SIZE
    ensures forall i :: 0 <= i < HEADER_SIZE ==> h[i] == HeaderByte(name, regular, size, chksum, i)
  {
    seq<byte>(HEADER_SIZE, i requires 0 <= i < HEADER_SIZE => HeaderByte(name, regular, size, chksum, i))
  }

  /** The header of a file. */
  function HeaderOf(name: seq<byte>, regular: bool, size: nat): (h: seq<byte>)
    requires |name| < 100
    ensures |h| == HEADER_SIZE
  {
    var sum := Sum(HeaderWith(name, regular, size, Zeros(8)), HEADER_SIZE);
    HeaderWith(name, regular, size, FieldOf(sum, 7, 8))
  }

  function Total(s: seq<byte>): nat { if s == [] then 0 else s[0] as int + Total(s[1..]) }

  /**
   * The bytes of a header, field by field: the name, mode 0644 or 0755,
   * owner and group 0, the size, the time, the sum of all bytes with
   * spaces in this field, the type, no link, and the names of format,
   * owner and group.
   */
  ghost predicate LaidOut(h: seq<byte>, name: seq<byte>, regular: bool, size: nat)
    requires |h| == HEADER_SIZE && |name| < 100
  {
    && h[..100] == name + Zeros(100 - |name|)
    && Spells(h[100..108], if regular then 6 * 64 + 4 * 8 + 4 else 7 * 64 + 5 * 8 + 5, 7)
    && Spells(h[108..116], 0, 7) && Spells(h[116..124], 0, 7)
    && Spells(h[124..136], size, 11) && Spells(h[136..148], 1136102400, 11)
    && Spells(h[148..156], Total(h[..148]) + 8 * 0x20 + Total(h[156..]), 7)
    && h[156] == (if regular then 0x30 else 0x35) && h[157..257] == Zeros(100)
    && h[257..265] == [0x75, 0x73, 0x74, 0x61, 0x72, 0, 0x30, 0x30]
    && h[265..297] == [0x72, 0x6F, 0x6F, 0x74] + Zeros(28) && h[297..329] == [0x72, 0x6F, 0x6F, 0x74] + Zeros(28)
    && h[329..] == Zeros(183)
  }

  lemma HeaderLayout(name: seq<byte>, regular: bool, size: nat)
    requires |name| < 100 && size <= INT_MAX
    ensures LaidOut(HeaderOf(name, regular, size), name, regular, size)
  {
    PowersOf8();
    hide FieldOf, Sum, Total, Spells, Pow8;
    var h := HeaderOf(name, regular, size);
    NumberFields(name, regular, size);
    ChksumLayout(name, regular, size);
    assert h[..100] == name + Zeros(100 - |name|);
    assert h[157..257] == Zeros(100) && h[329..] == Zeros(183);
    assert h[257..265] == [0x75, 0x73, 0x74, 0x61, 0x72, 0, 0x30, 0x30];
    assert h[265..297] == [0x72, 0x6F, 0x6F, 0x74] + Zeros(28) && h[297..329] == [0x72, 0x6F, 0x6F, 0x74] + Zeros(28);
  }

  lemma NumberFields(name: seq<byte>, regular: bool, size: nat)
    requires |name| < 100 && size <= INT_MAX
    ensures var h := HeaderOf(name, regular, size);
      && Spells(h[100..108], if regular then 6 * 64 + 4 * 8 + 4 else 7 * 64 + 5 * 8 + 5, 7)
      && Spells(h[108..116], 0, 7) && Spells(h[116..124], 0, 7)
      && Spells(h[124..136], size, 11) && Spells(h[136..148], 1136102400, 11)
  {
    PowersOf8();
    hide FieldOf, Sum, Spells, Pow8;
    var h := HeaderOf(name, regular, size);
    FieldSpells(Mode(regular), 7);
    FieldSpells(0, 7);
    FieldSpells(size, 11);
    FieldSpells(MTIME, 11);
    assert h[100..108] == FieldOf(Mode(regular), 7, 8) && h[108..116] == FieldOf(0, 7, 8) && h[116..124] == FieldOf(0, 7, 8);
    assert h[124..136] == FieldOf(size, 11, 12) && h[136..148] == FieldOf(MTIME, 11, 12);
  }

  lemma {:induction false} TotalPlus(a: seq<byte>, b: seq<byte>)
    ensures Total(a + b) == Total(a) + Total(b)
  {
    if a == [] { assert a + b == b; } else { assert (a + b)[1..] == a[1..] + b; TotalPlus(a[1..], b); }
  }

  /** The checksum is the sum of all bytes, with spaces in its own field. */
  lemma {:induction false} SumIs(h: seq<byte>, n: nat)
    requires n <= |h|
    ensures n <= 148 ==> Sum(h, n) == Total(h[..n])
    ensures 148 <= n <= 156 ==> Sum(h, n) == Total(h[..148]) + 32 * (n - 148)
    ensures 156 <= n ==> Sum(h, n) == Total(h[..148]) + 8 * 32 + Total(h[156..n])
  {
    if n > 0 {
      SumIs(h, n - 1);
      if n <= 148 {
        assert h[..n] == h[..n - 1] + [h[n - 1]];
        TotalPlus(h[..n - 1], [h[n - 1]]);
      } else if n > 156 {
        assert h[156..n] == h[156..n - 1] + [h[n - 1]];
        TotalPlus(h[156..n - 1], [h[n - 1]]);
      }
    }
  }

  lemma ChksumLayout(name: seq<byte>, regular: bool, size: nat)
    requires |name| < 100
    ensures var h := HeaderOf(name, regular, size); Spells(h[148..156], Total(h[..148]) + 8 * 0x20 + Total(h[156..]), 7)
  {
    PowersOf8();
    hide FieldOf, Sum, Total, Spells, Pow8;
    var h, blank := HeaderOf(name, regular, size), HeaderWith(name, regular, size, Zeros(8));
    var sum := Sum(blank, HEADER_SIZE);
    SumIndependent(blank, h, HEADER_SIZE);
    SumIs(h, HEADER_SIZE);
    assert h[156..] == h[156..HEADER_SIZE];
    FieldSpells(sum, 7);
    assert h[148..156] == FieldOf(sum, 7, 8);
  }

  lemma PowersOf8()
    ensures Pow8(7) == 2097152 && Pow8(11) == 8589934592
  {
    assert Pow8(3) == 512;
    assert Pow8(6) == 262144;
    assert Pow8(9) == 134217728;
  }

  /** Copies bytes to a place in the header. */
  method Put(h: array<byte>, ofs: nat, s: seq<byte>)
    requires ofs + |s| <= h.Length
    modifies h
    ensures forall i {:trigger h[i]} :: 0 <= i < h.Length ==> h[i] == if ofs <= i < ofs + |s| then s[i - ofs] else old(h[i])
  {
    forall k | 0 <= k < |s| { h[ofs + k] := s[k]; }
  }

  /** ustar_make_header; a name of more than 99 bytes is refused. */
  method MakeHeader(fileName: seq<byte>, regular: bool, size: nat, h: array<byte>) returns (ok: bool)
    requires h.Length == HEADER_SIZE && size <= INT_MAX
    modifies h
    ensures ok <==> |Strip(fileName)| <= 99
    ensures ok ==> h[..] == HeaderOf(Strip(fileName), regular, size)
  {
    hide FieldOf, Strip, Sum;
    var name := StripAntisocialPrefixes(fileName);
    if |name| > 99 { return false; }
    Fill(name, regular, size, h);
    ghost var blank := HeaderWith(name, regular, size, Zeros(8));
    assert h[..] == blank;
    var chksum := CalculateChksum(h[..]);
    var f := Field(chksum, 7, 8);
    Put(h, 148, f);
    assert h[..] == HeaderWith(name, regular, size, f);
    ok := true;
  }

  /** The header except for its checksum. */
  method Fill(name: seq<byte>, regular: bool, size: nat, h: array<byte>)
    requires h.Length == HEADER_SIZE && |name| < 100
    modifies h
    ensures forall i :: 0 <= i < HEADER_SIZE ==> h[i] == HeaderByte(name, regular, size, Zeros(8), i)
  {
    hide FieldOf, Zeros;
    forall i | 0 <= i < HEADER_SIZE { h[i] := 0; }
    Put(h, 0, name);
    var mode := Field(Mode(regular), 7, 8);
    Put(h, 100, mode);
    var id := Field(0, 7, 8);
    Put(h, 108, id);
    Put(h, 116, id);
    var sz := Field(size, 11, 12);
    Put(h, 124, sz);
    var mtime := Field(MTIME, 11, 12);
    Put(h, 136, mtime);
    h[156] := if regular then 0x30 else 0x35;
    Put(h, 257, USTAR);
    h[263], h[264] := 0x30, 0x30;
    Put(h, 265, ROOT);
    Put(h, 297, ROOT);
  }

  // ---------------------------------------------------------------------- parsing

  datatype Parsed = EndOfArchive | Entry(name: seq<byte>, regular: bool, size: nat) | Bad

  predicate AllZeros(h: seq<byte>) { forall i :: 0 <= i < |h| ==> h[i] == 0 }

  /** ustar_parse_header. */
  function ParseHeader(h: seq<byte>): Parsed
    requires |h| == HEADER_SIZE
  {
    if AllZeros(h) then EndOfArchive
    else if h[257..263] != USTAR + [0] then Bad
    else if h[263] != 0x30 || h[264] != 0x30 then Bad
    else if Meaning(h[148..156]) != Some(Sum(h, HEADER_SIZE)) then Bad
    else if h[99] != 0 || h[345] != 0 then Bad
    else if h[156] != 0x30 && h[156] != 0x35 then Bad
    else if h[156] == 0x35 then Entry(Strip(CStr(h[..100])), false, 0)
    else
      match Meaning(h[124..136])
      case None => Bad
      case Some(size) => if size > INT_MAX then Bad else Entry(Strip(CStr(h[..100])), true, size)
  }

  method IsAllZeros(h: seq<byte>) returns (r: bool)
    ensures r == AllZeros(h)
  {
    for i := 0 to |h|
      invariant forall k :: 0 <= k < i ==> h[k] == 0
    {
      if h[i] != 0 { return false; }
    }
    return true;
  }

  /** The name field holds this C string, and nothing at its end. */
  predicate NameField(h: seq<byte>, n: seq<byte>)
    requires |h| == HEADER_SIZE
  {
    |n| < 100 && 0 !in n && n + [0] <= h[..100] && h[99] == 0
  }

  /**
   * The header is that of a file or directory with this name, but for
   * prefixes that lead elsewhere: every field that is looked at says so,
   * and the checksum is right.
   */
  ghost predicate Describes(h: seq<byte>, name: seq<byte>, regular: bool, size: nat)
    requires |h| == HEADER_SIZE
  {
    && h[257..265] == USTAR + [0, 0x30, 0x30] && h[345] == 0 && Denotes(h[148..156], Sum(h, HEADER_SIZE))
    && (exists n :: NameField(h, n) && name == Strip(n))
    && (if regular then h[156] == 0x30 && Denotes(h[124..136], size) && size <= INT_MAX else h[156] == 0x35 && size == 0)
  }

  /** The one C string that the name field holds. */
  lemma NameFieldIs(h: seq<byte>, n: seq<byte>)
    requires |h| == HEADER_SIZE
    ensures NameField(h, n) <==> h[99] == 0 && n == CStr(h[..100])
  {
    var f := h[..100];
    if NameField(h, n) {
      assert f == n + [0] + f[|n| + 1..];
      CStrTerminated(n, f[|n| + 1..]);
    }
    if h[99] == 0 { CStrEnds(f); }
  }

  lemma {:induction false} CStrEnds(b: seq<byte>)
    requires 0 in b
    ensures |CStr(b)| < |b| && CStr(b) + [0] <= b
  {
    if b[0] != 0 { CStrEnds(b[1..]); }
  }

  /** A header is accepted just when it describes something, and then as that. */
  lemma ParsedIff(h: seq<byte>, name: seq<byte>, regular: bool, size: nat)
    requires |h| == HEADER_SIZE
    ensures ParseHeader(h) == Entry(name, regular, size) <==> Describes(h, name, regular, size)
    ensures ParseHeader(h) == EndOfArchive <==> h == Zeros(HEADER_SIZE)
  {
    hide Meaning, Denotes, Sum, Strip, CStr, NameField;
    MeaningIff(h[148..156], Sum(h, HEADER_SIZE));
    MeaningIff(h[124..136], size);
    NameFieldIs(h, CStr(h[..100]));
    forall n | NameField(h, n) ensures h[99] == 0 && n == CStr(h[..100]) { NameFieldIs(h, n); }
    MagicIff(h);
    assert AllZeros(h) <==> h == Zeros(HEADER_SIZE);
  }

  lemma MagicIff(h: seq<byte>)
    requires |h| == HEADER_SIZE
    ensures h[257..265] == USTAR + [0, 0x30, 0x30] <==> h[257..263] == USTAR + [0] && h[263] == 0x30 && h[264] == 0x30
    ensures h[257..263] == USTAR + [0] ==> !AllZeros(h)
  {
    var m := h[257..265];
    assert m[..6] == h[257..263] && m[6] == h[263] && m[7] == h[264] && m == m[..6] + [m[6], m[7]];
    if h[257..263] == USTAR + [0] { assert h[257] == h[257..263][0]; }
  }

  /** ustar_parse_header: what the header describes, the end of the archive for one of zeros, and else an error. */
  method Parse(h: seq<byte>) returns (r: Parsed)
    requires |h| == HEADER_SIZE
    ensures r == ParseHeader(h)
    ensures r.EndOfArchive? <==> h == Zeros(HEADER_SIZE)
    ensures forall name, regular, size :: r == Entry(name, regular, size) <==> Describes(h, name, regular, size)
  {
    hide Meaning, Sum, Strip, CStr, Describes;
    forall name, regular, size ensures ParseHeader(h) == Entry(name, regular, size) <==> Describes(h, name, regular, size) {
      ParsedIff(h, name, regular, size);
    }
    ParsedIff(h, [], true, 0);
    var zeros := IsAllZeros(h);
    if zeros { return EndOfArchive; }
    if h[257..263] != USTAR + [0] { return Bad; }
    if h[263] != 0x30 || h[264] != 0x30 { return Bad; }
    var chksum := ParseOctalField(h[148..156]);
    if chksum.None? { return Bad; }
    var sum := CalculateChksum(h);
    if chksum.value != sum { return Bad; }
    if h[99] != 0 || h[345] != 0 { return Bad; }
    if h[156] != 0x30 && h[156] != 0x35 { return Bad; }
    var size := 0;
    if h[156] == 0x30 {
      var sz := ParseOctalField(h[124..136]);
      if sz.None? { return Bad; }
      if sz.value > INT_MAX { return Bad; }
      size := sz.value;
    }
    var name := StripAntisocialPrefixes(CStr(h[..100]));
    return Entry(name, h[156] == 0x30, size);
  }

  /** A header that was made is parsed to what it was made from. */
  lemma HeaderRoundTrip(fileName: seq<byte>, regular: bool, size: nat)
    requires 0 !in fileName && |Strip(fileName)| <= 99 && size <= INT_MAX
    ensures ParseHeader(HeaderOf(Strip(fileName), regular, size)) == Entry(Strip(fileName), regular, if regular then size else 0)
  {
    hide Strip, Sum, FieldOf, Meaning, CStr;
    var name := Strip(fileName);
    var h := HeaderOf(name, regular, size);
    ChksumMatches(name, regular, size);
    SizeMatches(name, regular, size);
    NameMatches(name, regular, size);
    StripTwice(fileName);
    assert h[257..263] == USTAR + [0];
    assert h[257] == 0x75;
  }

  /** Making the header of what was parsed and parsing that gives the same again. */
  lemma ParsedRemade(h: seq<byte>)
    requires |h| == HEADER_SIZE && ParseHeader(h).Entry?
    ensures var e := ParseHeader(h);
      0 !in e.name && |e.name| <= 99 && e.size <= INT_MAX && ParseHeader(HeaderOf(e.name, e.regular, e.size)) == e
  {
    hide Meaning, Sum, HeaderOf, CStr;
    var n := CStr(h[..100]);
    NameFieldIs(h, n);
    var k := StripSuffix(n);
    StripTwice(n);
    var e := ParseHeader(h);
    HeaderRoundTrip(e.name, e.regular, e.size);
  }

  lemma {:induction false} SumChanged(h: seq<byte>, i: nat, v: byte, n: nat)
    requires i < |h| && n <= |h| && !InChksum(i)
    ensures Sum(h[i := v], n) == Sum(h, n) + if i < n then v as int - h[i] as int else 0
  {
    if n > 0 { SumChanged(h, i, v, n - 1); }
  }

  /** One wrong byte in a header never makes it that of something else: it is refused, or the byte did not matter. */
  lemma OneByteWrong(h: seq<byte>, i: nat, v: byte)
    requires |h| == HEADER_SIZE && i < HEADER_SIZE && v != h[i] && ParseHeader(h).Entry?
    ensures ParseHeader(h[i := v]).Bad? || (InChksum(i) && ParseHeader(h[i := v]) == ParseHeader(h))
  {
    hide Meaning, Sum, Strip, CStr;
    var h' := h[i := v];
    StillMagic(h, i, v);
    if InChksum(i) {
      SumIndependent(h, h', HEADER_SIZE);
      assert h'[257..263] == h[257..263] && h'[124..136] == h[124..136] && h'[..100] == h[..100];
    } else {
      SumChanged(h, i, v, HEADER_SIZE);
      assert h'[148..156] == h[148..156];
    }
  }

  /** One byte does not make zeros of a header that was accepted. */
  lemma StillMagic(h: seq<byte>, i: nat, v: byte)
    requires |h| == HEADER_SIZE && i < HEADER_SIZE && h[257..263] == USTAR + [0]
    ensures !AllZeros(h[i := v])
  {
    assert h[257] == h[257..263][0] && h[258] == h[257..263][1];
    var h' := h[i := v];
    assert h'[257] != 0 || h'[258] != 0;
  }

  lemma ChksumMatches(name: seq<byte>, regular: bool, size: nat)
    requires |name| < 100
    ensures var h := HeaderOf(name, regular, size); Meaning(h[148..156]) == Some(Sum(h, HEADER_SIZE))
  {
    hide FieldOf, Sum;
    var blank, h := HeaderWith(name, regular, size, Zeros(8)), HeaderOf(name, regular, size);
    var sum := Sum(blank, HEADER_SIZE);
    SumIndependent(blank, h, HEADER_SIZE);
    assert h[148..156] == FieldOf(sum, 7, 8);
    Powers();
    FieldRoundTrip(sum, 7);
  }

  lemma Powers()
    ensures Pow8(7) == 2097152 && Pow8(11) == 8589934592
  {
    assert Pow8(4) == 4096;
  }

  lemma SizeMatches(name: seq<byte>, regular: bool, size: nat)
    requires |name| < 100 && size <= INT_MAX
    ensures Meaning(HeaderOf(name, regular, size)[124..136]) == Some(size)
  {
    hide FieldOf, Sum;
    assert HeaderOf(name, regular, size)[124..136] == FieldOf(size, 11, 12);
    Powers();
    FieldRoundTrip(size, 11);
  }

  lemma NameMatches(name: seq<byte>, regular: bool, size: nat)
    requires |name| < 100 && 0 !in name
    ensures CStr(HeaderOf(name, regular, size)[..100]) == name && HeaderOf(name, regular, size)[99] == 0
  {
    hide FieldOf, Sum, CStr;
    var h := HeaderOf(name, regular, size);
    assert h[..100] == name + [0] + Zeros(99 - |name|);
    CStrTerminated(name, Zeros(99 - |name|));
  }
}
