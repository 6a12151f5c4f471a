/** Bytes, little-endian words and C strings, as they lie on disk and in memory. */
module Bytes {

  type byte = b: int | 0 <= b < 256

  const TWO32: nat := 0x1_0000_0000
  const INT_MAX: nat := 0x7fff_ffff

  /** The four bytes of a 32-bit unsigned value on a little-endian machine. */
  function LE32(n: nat): (b: seq<byte>)
    requires n < TWO32
    ensures |b| == 4
  {
    [n % 256, n / 256 % 256, n / 256 / 256 % 256, n / 256 / 256 / 256]
  }

  function FromLE32(b: seq<byte>): (n: nat)
    requires |b| == 4
    ensures n < TWO32
  {
    var b0: int, b1: int, b2: int, b3: int := b[0], b[1], b[2], b[3];
    b0 + 256 * (b1 + 256 * (b2 + 256 * b3))
  }

  lemma LE32RoundTrip(n: nat)
    requires n < TWO32
    ensures FromLE32(LE32(n)) == n
  {
  }

  function Zeros(n: nat): (z: seq<byte>)
    ensures |z| == n && forall k :: 0 <= k < n ==> z[k] == 0
  {
    seq(n, _ => 0)
  }

  function Min(a: int, b: int): int { if a < b then a else b }

  /** The C string held in a buffer: everything before the first NUL. */
  function CStr(b: seq<byte>): (s: seq<byte>)
    ensures 0 !in s && s <= b
  {
    if b == [] || b[0] == 0 then [] else [b[0]] + CStr(b[1..])
  }

  /** A terminated copy of a C string reads back as that string, whatever follows the NUL. */
  lemma {:induction false} CStrTerminated(s: seq<byte>, rest: seq<byte>)
    requires 0 !in s
    ensures CStr(s + [0] + rest) == s
  {
    if s != [] {
      CStrTerminated(s[1..], rest);
      assert (s + [0] + rest)[1..] == s[1..] + [0] + rest;
    }
  }
}
