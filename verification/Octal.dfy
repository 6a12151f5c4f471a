/**
 * Octal fields: the integer conversion of lib/stdio.c for %0<width>o, as
 * snprintf stores it, and the field parser of lib/ustar.c.
 */
module Octal {
  import opened Bytes
  import opened Options

  const ZERO_CHAR: byte := 0x30
  const SPACE: byte := 0x20
  const ULONG_MAX := 0xFFFF_FFFF

  predicate IsDigit(b: byte) { 0x30 <= b <= 0x37 }

  /** The number that octal digits stand for. */
  function Value(ds: seq<byte>): (v: nat)
    requires forall i :: 0 <= i < |ds| ==> IsDigit(ds[i])
  {
    if ds == [] then 0 else assert IsDigit(ds[|ds| - 1]); 8 * Value(ds[..|ds| - 1]) + (ds[|ds| - 1] as int - 0x30)
  }

  /** The digits of v, the most significant first; none for 0. */
  function Digits(v: nat): (ds: seq<byte>)
    ensures forall i :: 0 <= i < |ds| ==> IsDigit(ds[i])
    ensures Value(ds) == v
  {
    if v == 0 then []
    else
      var ds := Digits(v / 8) + [(0x30 + v % 8) as byte];
      assert ds[..|ds| - 1] == Digits(v / 8);
      ds
  }

  function Reverse(s: seq<byte>): (r: seq<byte>)
    ensures |r| == |s|
  {
    if s == [] then [] else [s[|s| - 1]] + Reverse(s[..|s| - 1])
  }

  /** The field: digits, at least one of them, with zeros in front up to the width. */
  function Padded(v: nat, width: nat): (ds: seq<byte>)
    ensures forall i :: 0 <= i < |ds| ==> IsDigit(ds[i])
    ensures |ds| >= width
  {
    var ds := if v == 0 then [ZERO_CHAR] else Digits(v);
    if |ds| >= width then ds else Repeat(ZERO_CHAR, width - |ds|) + ds
  }

  function Repeat(b: byte, n: nat): (s: seq<byte>)
    ensures |s| == n && forall i :: 0 <= i < n ==> s[i] == b
  {
    seq(n, _ => b)
  }

  /** A field means its number, whatever the width. */
  lemma PaddedValue(v: nat, width: nat)
    ensures Value(Padded(v, width)) == v
  {
    var ds := if v == 0 then [ZERO_CHAR] else Digits(v);
    assert Value(ds) == v;
    if |ds| < width { LeadingZeros(width - |ds|, ds); }
  }

  lemma {:induction false} LeadingZeros(n: nat, ds: seq<byte>)
    requires forall i :: 0 <= i < |ds| ==> IsDigit(ds[i])
    ensures Value(Repeat(ZERO_CHAR, n) + ds) == Value(ds)
  {
    var zs := Repeat(ZERO_CHAR, n);
    if ds == [] {
      assert zs + ds == zs;
      OnlyZeros(n);
    } else {
      assert (zs + ds)[..|zs + ds| - 1] == zs + ds[..|ds| - 1];
      LeadingZeros(n, ds[..|ds| - 1]);
    }
  }

  lemma {:induction false} OnlyZeros(n: nat)
    ensures Value(Repeat(ZERO_CHAR, n)) == 0
  {
    if n > 0 {
      assert Repeat(ZERO_CHAR, n)[..n - 1] == Repeat(ZERO_CHAR, n - 1);
      OnlyZeros(n - 1);
    }
  }

  /** How many digits a number has. */
  lemma {:induction false} FewDigits(v: nat, n: nat, bound: nat)
    requires v < bound && bound <= Pow8(n)
    ensures |Digits(v)| <= n
  {
    if v > 0 {
      assert n > 0;
      assert v / 8 < Pow8(n - 1);
      FewDigits(v / 8, n - 1, Pow8(n - 1));
    }
  }

  function Pow8(n: nat): (p: nat)
    ensures p > 0
  {
    if n == 0 then 1 else 8 * Pow8(n - 1)
  }

  lemma PaddedLength(v: nat, width: nat)
    requires 0 < width && v < Pow8(width)
    ensures |Padded(v, width)| == width
  {
    FewDigits(v, width, Pow8(width));
  }

  // ------------------------------------------------------------------- printing

  /** The digits of a number, the least significant first. */
  method DigitsBackwards(value: nat) returns (buf: seq<byte>)
    ensures Reverse(buf) == Digits(value)
  {
    hide Digits;
    var v := value;
    buf := [];
    while v > 0
      invariant Digits(value) == Digits(v) + Reverse(buf)
      decreases v
    {
      var d: byte := 0x30 + v % 8;
      ReverseSnoc(buf, d);
      DigitsStep(v);
      assert Digits(v / 8) + [d] + Reverse(buf) == Digits(v / 8) + ([d] + Reverse(buf));
      buf := buf + [d];
      v := v / 8;
    }
    DigitsStep(0);
  }

  /** Writes a buffer out backwards. */
  method Emit(buf: seq<byte>) returns (out: seq<byte>)
    ensures out == Reverse(buf)
  {
    out := [];
    var n := |buf|;
    assert buf[..n] == buf;
    while n > 0
      invariant 0 <= n <= |buf| && out + Reverse(buf[..n]) == Reverse(buf)
    {
      assert buf[..n][..n - 1] == buf[..n - 1];
      n := n - 1;
      out := out + [buf[n]];
    }
  }

  /** format_integer for an unsigned octal conversion with the 0 flag. */
  method FormatInteger(value: nat, width: nat) returns (out: seq<byte>)
    ensures out == Padded(value, width)
  {
    hide Digits;
    NoneForZero();
    var buf := DigitsBackwards(value);
    while |buf| < 1
      invariant Reverse(buf) == Digits(value) || (value == 0 && buf == [ZERO_CHAR])
      decreases 1 - |buf|
    {
      NoDigits(value);
      buf := buf + [ZERO_CHAR];
    }
    var padCnt := width - |buf|;
    if padCnt < 0 { padCnt := 0; }
    assert Reverse([ZERO_CHAR]) == [ZERO_CHAR];
    hide Reverse;
    var digits := Emit(buf);
    out := Repeat(ZERO_CHAR, padCnt) + digits;
    assert padCnt == 0 ==> out == digits;
  }

  lemma DigitsStep(v: nat)
    ensures Digits(v) == if v == 0 then [] else Digits(v / 8) + [(0x30 + v % 8) as byte]
  {}

  lemma NoDigits(v: nat)
    requires Digits(v) == []
    ensures v == 0
  {}

  lemma ReverseSnoc(s: seq<byte>, b: byte)
    ensures Reverse(s + [b]) == [b] + Reverse(s)
  {
    assert (s + [b])[..|s|] == s;
  }

  /** snprintf of such a conversion into a field of size bytes that holds zeros. */
  method Field(value: nat, width: nat, size: nat) returns (f: seq<byte>)
    requires size > 0
    ensures f == FieldOf(value, width, size)
  {
    var out := FormatInteger(value, width);
    var length, p := 0, [];
    while length < |out|
      invariant 0 <= length <= |out| && p == out[..Min(length, size - 1)]
    {
      if length < size - 1 { p := p + [out[length]]; }
      length := length + 1;
    }
    f := p + [0] + Zeros(size - 1 - |p|);
  }

  function FieldOf(value: nat, width: nat, size: nat): (f: seq<byte>)
    requires size > 0
    ensures |f| == size
  {
    var p := Padded(value, width);
    var kept := p[..Min(|p|, size - 1)];
    kept + [0] + Zeros(size - 1 - |kept|)
  }

  /** The digit of a number that stands for 8^k. */
  function DigitAt(v: nat, k: nat): byte { 0x30 + v / Pow8(k) % 8 }

  lemma {:induction false} DigitsAt(v: nat, j: nat)
    requires j < |Digits(v)|
    ensures Digits(v)[j] == DigitAt(v, |Digits(v)| - 1 - j)
  {
    var n := |Digits(v)|;
    if j == n - 1 {
      assert Pow8(0) == 1;
    } else {
      DigitsAt(v / 8, j);
      assert Digits(v)[j] == Digits(v / 8)[j];
      hide Digits;
      DivTwice(v, Pow8(n - 2 - j));
    }
  }

  lemma DivTwice(v: nat, p: nat)
    requires p > 0
    ensures v / (8 * p) == v / 8 / p
  {
    var q := v / 8 / p;
    assert v == 8 * (v / 8) + v % 8 && v / 8 == p * q + v / 8 % p;
    assert v == (8 * p) * q + (8 * (v / 8 % p) + v % 8) by { assert 8 * (p * q) == (8 * p) * q; }
    Quotient(v, 8 * p, q, 8 * (v / 8 % p) + v % 8);
  }

  lemma Quotient(v: nat, d: nat, q: nat, r: nat)
    requires r < d && v == d * q + r
    ensures v / d == q
  {
    var x := v / d - q;
    assert d * x == r - v % d by { assert v == d * (v / d) + v % d; }
    NoMultiple(d, x);
  }

  lemma NoMultiple(d: int, x: int)
    requires -d < d * x < d
    ensures x == 0
  {}

  lemma {:induction false} DigitsBound(v: nat)
    ensures v < Pow8(|Digits(v)|)
  {
    if v > 0 { DigitsBound(v / 8); }
  }

  lemma {:induction false} PowMore(a: nat, b: nat)
    requires a <= b
    ensures Pow8(a) <= Pow8(b)
  {
    if a < b { PowMore(a, b - 1); }
  }

  lemma TooSmall(v: nat, k: nat)
    requires v < Pow8(k)
    ensures DigitAt(v, k) == ZERO_CHAR
  {
    hide Pow8;
    Quotient(v, Pow8(k), 0, v);
  }

  lemma PaddedDigits(v: nat, width: nat, j: nat)
    requires v < Pow8(width) && j < width && |Padded(v, width)| == width
    ensures Padded(v, width)[j] == DigitAt(v, width - 1 - j)
  {
    hide Pow8, DigitAt, Digits;
    var ds := if v == 0 then [ZERO_CHAR] else Digits(v);
    var k := width - |ds|;
    if j >= k && v > 0 {
      DigitsAt(v, j - k);
    } else {
      DigitsBound(v);
      assert v == 0 ==> Digits(v) == [] by { NoneForZero(); }
      PowMore(|Digits(v)|, width - 1 - j);
      TooSmall(v, width - 1 - j);
    }
  }

  lemma NoneForZero()
    ensures Digits(0) == []
  {}

  /** The octal digits of a number, each by itself, and a zero byte. */
  predicate Spells(f: seq<byte>, v: nat, width: nat) {
    |f| == width + 1 && f[width] == 0 && forall j :: 0 <= j < width ==> f[j] == DigitAt(v, width - 1 - j)
  }

  /** The field of a number that fits spells it. */
  lemma FieldSpells(v: nat, width: nat)
    requires 0 < width && v < Pow8(width)
    ensures Spells(FieldOf(v, width, width + 1), v, width)
  {
    PaddedLength(v, width);
    hide Pow8, DigitAt, Padded;
    var p := Padded(v, width);
    assert FieldOf(v, width, width + 1) == p + [0] + Zeros(0);
    forall j | 0 <= j < width ensures p[j] == DigitAt(v, width - 1 - j) { PaddedDigits(v, width, j); }
  }

  // -------------------------------------------------------------------- parsing

  /** The digits at the start of a field. */
  function Lead(s: seq<byte>): (n: nat)
    ensures n <= |s| && (forall i :: 0 <= i < n ==> IsDigit(s[i])) && (n < |s| ==> !IsDigit(s[n]))
  {
    if s == [] || !IsDigit(s[0]) then 0 else 1 + Lead(s[1..])
  }

  /** What a field means: some digits, ended by a space or a null byte, for a number that an unsigned long can hold. */
  function Meaning(s: seq<byte>): Option<nat> {
    var n := Lead(s);
    if 0 < n < |s| && (s[n] == SPACE || s[n] == 0) && Value(s[..n]) <= ULONG_MAX then Some(Value(s[..n])) else None
  }

  /** parse_octal_field. */
  method ParseOctalField(s: seq<byte>) returns (r: Option<nat>)
    ensures r == Meaning(s)
  {
    var value, ofs := 0, 0;
    while ofs < |s|
      invariant 0 <= ofs <= |s| && ofs <= Lead(s) && value == Value(s[..ofs]) && value <= ULONG_MAX
    {
      var c := s[ofs];
      if IsDigit(c) {
        assert ofs < Lead(s);
        assert s[..ofs + 1][..ofs] == s[..ofs];
        if value > ULONG_MAX / 8 {
          ValueGrows(s[..Lead(s)], ofs + 1);
          assert s[..Lead(s)][..ofs + 1] == s[..ofs + 1];
          return None;
        }
        value := (c as int - 0x30) + value * 8;
        ofs := ofs + 1;
      } else if c == SPACE || c == 0 {
        return if ofs > 0 then Some(value) else None;
      } else {
        return None;
      }
    }
    return None;
  }

  lemma {:induction false} ValueGrows(ds: seq<byte>, k: nat)
    requires k <= |ds| && forall i :: 0 <= i < |ds| ==> IsDigit(ds[i])
    ensures Value(ds[..k]) <= Value(ds)
  {
    if k < |ds| {
      assert ds[..|ds| - 1][..k] == ds[..k];
      ValueGrows(ds[..|ds| - 1], k);
    } else {
      assert ds[..k] == ds;
    }
  }

  /** A number that fits its field is read back from it. */
  lemma FieldRoundTrip(value: nat, width: nat)
    requires 0 < width && value < Pow8(width) && value <= ULONG_MAX
    ensures Meaning(FieldOf(value, width, width + 1)) == Some(value)
  {
    var p := Padded(value, width);
    PaddedLength(value, width);
    PaddedValue(value, width);
    var f := FieldOf(value, width, width + 1);
    assert p[..width] == p && f == p + [0] + Zeros(0);
    LeadIs(f, width);
    assert f[..width] == p;
  }

  lemma {:induction false} LeadIs(s: seq<byte>, n: nat)
    requires n < |s| && (forall i :: 0 <= i < n ==> IsDigit(s[i])) && !IsDigit(s[n])
    ensures Lead(s) == n
  {
    if n > 0 { LeadIs(s[1..], n - 1); }
  }

  /** The field starts with digits that stand for the number, and a space or a null byte. */
  ghost predicate Denotes(s: seq<byte>, v: nat) {
    v <= ULONG_MAX && exists k :: 0 < k < |s| && Terminated(s, k) && Value(s[..k]) == v
  }

  predicate Terminated(s: seq<byte>, k: nat)
    requires k < |s|
  {
    (s[k] == SPACE || s[k] == 0) && forall i :: 0 <= i < k ==> IsDigit(s[i])
  }

  /** That is what a field means, and it means nothing else. */
  lemma MeaningIff(s: seq<byte>, v: nat)
    ensures Meaning(s) == Some(v) <==> Denotes(s, v)
  {
    if Meaning(s) == Some(v) { assert Terminated(s, Lead(s)); }
    if Denotes(s, v) {
      var k :| 0 < k < |s| && Terminated(s, k) && Value(s[..k]) == v;
      LeadIs(s, k);
    }
  }
}
