/**
 * 64-bit division from a 64-by-32-bit divide (lib/arithmetic.c).
 * Unsigned values are their residues; >> divides and << multiplies, and
 * what a register loses is written out as % 2^32 or % 2^64.
 */
module Division {
  import opened Words

  const B := 0x1_0000_0000
  const B2 := 0x1_0000_0000_0000_0000

  // ------------------------------------------------------- facts of arithmetic

  lemma DivDef(n: int, d: int)
    requires d > 0
    ensures n == d * (n / d) + n % d && 0 <= n % d < d
  {}

  lemma Monotone(a: int, b: int, c: int)
    requires a <= b && c >= 0
    ensures a * c <= b * c
  {
    assert (b - a) * c >= 0;
    assert (b - a) * c == b * c - a * c;
  }

  lemma QuotientBounds(n: int, d: int)
    requires d > 0
    ensures (n / d) * d <= n < (n / d + 1) * d
  {
    DivDef(n, d);
    assert (n / d + 1) * d == (n / d) * d + d;
  }

  lemma QuotientBelow(n: int, d: int, k: int)
    requires d > 0 && n < k * d
    ensures n / d < k
  {
    QuotientBounds(n, d);
    if n / d >= k { Monotone(k, n / d, d); }
  }

  lemma QuotientAbove(n: int, d: int, k: int)
    requires d > 0 && k * d <= n
    ensures k <= n / d
  {
    QuotientBounds(n, d);
    if n / d + 1 <= k { Monotone(n / d + 1, k, d); }
  }

  /** q is the quotient when q * d is the last multiple of d that is not above n. */
  lemma QuotientIs(n: int, d: int, q: int)
    requires d > 0 && q * d <= n < (q + 1) * d
    ensures n / d == q
  {
    QuotientAbove(n, d, q);
    QuotientBelow(n, d, q + 1);
  }

  /** Two divisions in a row are one. */
  lemma DivTwice(n: int, a: int, b: int)
    requires n >= 0 && a > 0 && b > 0
    ensures a * b > 0 && n / a / b == n / (a * b)
  {
    assert a * b > 0;
    var q := n / (a * b);
    QuotientBounds(n, a * b);
    assert q * (a * b) == (q * b) * a && (q + 1) * (a * b) == ((q + 1) * b) * a;
    QuotientAbove(n, a, q * b);
    QuotientBelow(n, a, (q + 1) * b);
    QuotientIs(n / a, b, q);
  }

  // -------------------------------------------------------------- arithmetic.c

  /** The divl instruction: it traps unless the quotient fits in 32 bits. */
  method Divl(n: nat, d: nat) returns (q: nat)
    requires n < B2 && 0 < d < B && n / d < B
    ensures q == n / d && q < B
  {
    q := n / d;
  }

  lemma {:induction false} PowSum(a: nat, b: nat)
    ensures Pow2(a + b) == Pow2(a) * Pow2(b)
  {
    if b > 0 { PowSum(a, b - 1); }
  }

  lemma Powers()
    ensures Pow2(1) == 2 && Pow2(2) == 4 && Pow2(4) == 0x10 && Pow2(8) == 0x100 && Pow2(16) == 0x1_0000
    ensures Pow2(31) == B / 2 && Pow2(32) == B && Pow2(33) == 2 * B
  {
    assert Pow2(4) == 0x10;
    PowSum(4, 4);
    PowSum(8, 8);
    PowSum(16, 16);
    assert Pow2(32) == 2 * Pow2(31) && Pow2(33) == 2 * Pow2(32);
  }

  lemma PowZero()
    ensures Pow2(0) == 1
  {}

  lemma ShiftedOn(x: nat, y: nat, n: nat, k: nat)
    requires y == x * Pow2(n)
    ensures y * Pow2(k) == x * Pow2(n + k)
  {
    PowSum(n, k);
    assert x * Pow2(n) * Pow2(k) == x * (Pow2(n) * Pow2(k));
  }

  /** One step of nlz: a number with its top k bits clear is shifted left by k. */
  method NlzStep(ghost x: nat, y: nat, n: nat, limit: nat, k: nat, p: nat, ghost low: nat) returns (y': nat, n': nat)
    requires y == x * Pow2(n) && low <= y < B && p == Pow2(k) && p * (limit + 1) == B && low * p > limit
    ensures y' == x * Pow2(n') && limit < y' < B && n <= n' <= n + k
  {
    hide Pow2;
    y', n' := y, n;
    if y <= limit {
      ShiftedOn(x, y, n, k);
      Monotone(y, limit, p);
      Monotone(low, y, p);
      assert limit * p == p * (limit + 1) - p;
      ModSmall(y * p, B);
      y', n' := y * p % B, n + k;
    }
  }

  /** The number of leading zeros: shifting x left by it sets the top bit and loses none. */
  method Nlz(x: nat) returns (n: nat)
    requires 0 < x < B
    ensures n <= 31 && B / 2 <= x * Pow2(n) < B
  {
    hide Pow2;
    Powers();
    PowZero();
    n := 0;
    var y := x;
    y, n := NlzStep(x, y, n, 0x0000_FFFF, 16, 0x1_0000, 1);
    y, n := NlzStep(x, y, n, 0x00FF_FFFF, 8, 0x100, 0x1_0000);
    y, n := NlzStep(x, y, n, 0x0FFF_FFFF, 4, 0x10, 0x100_0000);
    y, n := NlzStep(x, y, n, 0x3FFF_FFFF, 2, 4, 0x1000_0000);
    y, n := NlzStep(x, y, n, 0x7FFF_FFFF, 1, 2, 0x4000_0000);
  }

  /** What the first case divides is below b * d, so divl does not trap; the parts add up to the quotient. */
  lemma SplitQuotient(n1: nat, n0: nat, d: nat)
    requires n1 < B && n0 < B && 0 < d < B
    ensures (B * (n1 % d) + n0) / d < B
    ensures (B * (n1 % d) + n0) / d + B * (n1 / d) == (B * n1 + n0) / d
  {
    var m, t := B * (n1 % d) + n0, n1 / d;
    DivDef(n1, d);
    assert B * (n1 % d) <= B * (d - 1);
    assert m < B * d;
    QuotientBelow(m, d, B);
    var q := m / d;
    QuotientBounds(m, d);
    assert B * n1 + n0 == (B * t) * d + m by { assert B * n1 == B * (d * t) + B * (n1 % d); assert B * (d * t) == (B * t) * d; }
    assert (q + B * t) * d == q * d + (B * t) * d && (q + B * t + 1) * d == (q + 1) * d + (B * t) * d;
    QuotientIs(B * n1 + n0, d, q + B * t);
  }

  lemma CoarseDivisor(d: nat, t: nat, v: nat)
    requires t > 0 && v == d / t && B / 2 <= v
    ensures v * t <= d < v * t + t && B / 2 * t <= v * t
  {
    QuotientBounds(d, t);
    assert (v + 1) * t == v * t + t;
    Monotone(B / 2, v, t);
  }

  lemma QuotientSmall(n: nat, w: nat, t: nat, k: nat, q: nat)
    requires n < B2 && t > 0 && t * k == 2 * B && B / 2 * t <= w && q * w <= n
    ensures q < k
  {
    assert k * (B / 2 * t) == (t * k) * (B / 2);
    if k <= q { Products(k, q, B / 2 * t, w); }
  }

  /** What d has over w, taken q + 1 times, is at most w. */
  lemma SmallExcess(d: nat, w: nat, t: nat, k: nat, q: nat)
    requires (t == 2 || t >= 4) && t * k == 2 * B && B / 2 * t <= w <= d < w + t && q < k
    ensures (q + 1) * d <= (q + 2) * w
  {
    Products(d - w, t - 1, q + 1, k);
    assert (t - 1) * k == t * k - k;
    assert (q + 1) * d == (q + 1) * w + (d - w) * (q + 1);
    assert (q + 2) * w == (q + 1) * w + w;
  }

  lemma CoarseBounds(n: nat, d: nat, w: nat, t: nat, k: nat)
    requires n < B2 && (t == 2 || t >= 4) && t * k == 2 * B && B / 2 * t <= w <= d < w + t && w > 0
    ensures n / d <= n / w <= n / d + 1
  {
    var q := n / d;
    QuotientBounds(n, d);
    Products(q, q, w, d);
    QuotientAbove(n, w, q);
    QuotientSmall(n, w, t, k, q);
    SmallExcess(d, w, t, k, q);
    QuotientBelow(n, w, q + 2);
  }

  /**
   * The second case: v holds the top 32 bits of d, which is v * t and a
   * little more, t * k being 2^33. Dividing n by v * t instead of d gives
   * the quotient, or one more.
   */
  lemma CoarseQuotient(n: nat, d: nat, t: nat, k: nat, v: nat)
    requires n < B2 && (t == 2 || t >= 4) && t * k == 2 * B && v == d / t && B / 2 <= v
    ensures d > 0 && v * t > 0 && n / d <= n / (v * t) <= n / d + 1
  {
    CoarseDivisor(d, t, v);
    CoarseBounds(n, d, v * t, t, k);
  }

  lemma Products(a: int, b: int, c: int, d: int)
    requires 0 <= a <= b && 0 <= c <= d
    ensures a * c <= b * d
  {
    Monotone(a, b, c);
    Monotone(c, d, b);
    assert c * b == b * c && d * b == b * d;
  }

  lemma TopPowers(s: nat)
    requires s <= 31
    ensures var p, t, k := Pow2(s), Pow2(32 - s), Pow2(s + 1);
      p > 0 && t * p == B && t * k == 2 * B && (t == 2 || t >= 4) && t == 2 * Pow2(31 - s)
  {
    Powers();
    PowSum(32 - s, s + 1);
    PowSum(32 - s, s);
    if s < 31 { PowAtLeast(32 - s); }
  }

  /** The shift loses nothing. */
  lemma ShiftFits(d: nat, p: nat, t: nat)
    requires p > 0 && t > 0 && t * p == B && (d / B) * p < B
    ensures d * p < B2
  {
    var d1 := d / B;
    QuotientBounds(d, B);
    if t <= d1 { Monotone(t, d1, p); }
    Monotone(d1 + 1, t, p);
    StrictProduct(d, (d1 + 1) * B, p);
    assert ((d1 + 1) * B) * p == ((d1 + 1) * p) * B;
    Monotone((d1 + 1) * p, B, B);
  }

  lemma ShiftFills(d: nat, p: nat)
    requires B / 2 <= (d / B) * p
    ensures B / 2 * B <= d * p
  {
    var d1 := d / B;
    QuotientBounds(d, B);
    Monotone(d1 * B, d, p);
    assert (d1 * B) * p == (d1 * p) * B;
    Monotone(B / 2, d1 * p, B);
  }

  /** The top half of d * p, when p and t make up B, is what d has above t. */
  lemma TopHalf(d: nat, p: nat, t: nat)
    requires p > 0 && t > 0 && t * p == B
    ensures d * p / B == d / t
  {
    var q := d / t;
    QuotientBounds(d, t);
    Monotone(q * t, d, p);
    StrictProduct(d, (q + 1) * t, p);
    assert (q * t) * p == q * B && ((q + 1) * t) * p == (q + 1) * B;
    QuotientIs(d * p, B, q);
  }

  /** The shifted divisor's top half holds the top 32 bits of d. */
  lemma TopBits(d: nat, p: nat, t: nat)
    requires p > 0 && t > 0 && t * p == B && B / 2 <= (d / B) * p < B
    ensures d * p < B2 && d * p / B == d / t && B / 2 <= d / t < B
  {
    ShiftFits(d, p, t);
    ShiftFills(d, p);
    TopHalf(d, p, t);
    QuotientAbove(d * p, B, B / 2);
    QuotientBelow(d * p, B, B);
  }

  lemma StrictProduct(a: int, b: int, c: int)
    requires a < b && c > 0
    ensures a * c < b * c
  {
    Monotone(a + 1, b, c);
    assert (a + 1) * c == a * c + c;
  }

  lemma PowAtLeast(n: nat)
    requires n >= 2
    ensures Pow2(n) >= 4
  {
    assert Pow2(2) == 4;
    if n > 2 { Pow2Mono(2, n); }
  }

  /** udiv64: the quotient, for every nonzero divisor. */
  method Udiv64(n: nat, d: nat) returns (q: nat)
    requires n < B2 && 0 < d < B2
    ensures q == n / d
  {
    DivDef(d, B);
    if d / B == 0 {
      q := UdivShort(n, d);
    } else if n < d {
      QuotientIs(n, d, 0);
      q := 0;
    } else {
      var q1 := Estimate(n, d);
      Corrected(n, d, q1);
      var rest := n - (q1 - 1) * d;
      ModSmall(rest, B2);
      q := if rest % B2 < d then q1 - 1 else q1;
    }
  }

  /** The quotient by a divisor of at most 32 bits. */
  method UdivShort(n: nat, d: nat) returns (q: nat)
    requires n < B2 && 0 < d < B
    ensures q == n / d
  {
    var n1, n0 := n / B, n % B;
    DivDef(n, B);
    QuotientBelow(n, B, B);
    SplitQuotient(n1, n0, d);
    DivDef(n1, d);
    Products(n1 % d, d - 1, B, B);
    var low := Divl(B * (n1 % d) + n0, d);
    q := low + B * (n1 / d);
  }

  /** Dividing by the top 32 bits of d estimates the quotient to within one, and divl does not trap. */
  lemma EstimateOk(n: nat, d: nat, p: nat, t: nat, k: nat, h: nat, v: nat)
    requires n < B2 && B <= d < B2 && p > 0 && t * p == B && t * k == 2 * B && (t == 2 || t >= 4) && t == 2 * h
    requires B / 2 <= (d / B) * p < B && v == d * p % B2 / B
    ensures 0 < v < B && n / 2 / v < B && h > 0 && n / d <= n / 2 / v / h <= n / d + 1
  {
    TopBits(d, p, t);
    ModSmall(d * p, B2);
    HalfFits(n, v);
    ShiftedQuotient(n, v, h);
    CoarseQuotient(n, d, t, k, v);
  }

  lemma ModSmall(x: int, m: int)
    requires 0 <= x < m
    ensures x % m == x
  {}

  /** The quotient, or one more, for a divisor of more than 32 bits. */
  method Estimate(n: nat, d: nat) returns (q: nat)
    requires n < B2 && B <= d < B2
    ensures n / d <= q <= n / d + 1
  {
    hide Pow2;
    QuotientBelow(d, B, B);
    QuotientAbove(d, B, 1);
    var s := Nlz(d / B);
    TopPowers(s);
    var v := d * Pow2(s) % B2 / B;
    EstimateOk(n, d, Pow2(s), Pow2(32 - s), Pow2(s + 1), Pow2(31 - s), v);
    q := Divl(n / 2, v);
    q := q / Pow2(31 - s);
  }

  /** divl does not trap in the second case either. */
  lemma HalfFits(n: nat, v: nat)
    requires n < B2 && B / 2 <= v
    ensures n / 2 / v < B
  {
    Products(B, B, B / 2, v);
    QuotientBelow(n / 2, v, B);
  }

  lemma ShiftedQuotient(n: nat, v: nat, h: nat)
    requires v > 0 && h > 0
    ensures v * (2 * h) > 0 && n / 2 / v / h == n / (v * (2 * h))
  {
    DivTwice(n, 2, v);
    DivTwice(n, 2 * v, h);
    assert 2 * v * h == v * (2 * h);
  }

  /** The last step picks the right one of q - 1 and q, and its subtractions do not wrap. */
  lemma Corrected(n: nat, d: nat, q: nat)
    requires 0 < d <= n < B2 && n / d <= q <= n / d + 1
    ensures q >= 1 && 0 <= n - (q - 1) * d < B2
    ensures n / d == if n - (q - 1) * d < d then q - 1 else q
  {
    QuotientBounds(n, d);
    QuotientAbove(n, d, 1);
    Monotone(q - 1, n / d, d);
    assert q * d == (q - 1) * d + d;
    assert 0 <= (q - 1) * d;
  }

  /** umod64 returns 32 bits of the remainder. */
  method Umod64(n: nat, d: nat) returns (r: nat)
    requires n < B2 && 0 < d < B2
    ensures r == n % d % B
  {
    var q := Udiv64(n, d);
    QuotientBounds(n, d);
    DivDef(n, d);
    assert d * q == q * d;
    ModSmall(d * q, B2);
    ModSmall(n - d * q, B2);
    r := (n - d * q % B2) % B2 % B;
  }

  /** A divisor greater than 2^32 leaves 2^32 over from itself, and umod64 gives 0. */
  lemma Umod64Fails(d: nat)
    requires B < d
    ensures B % d == B && B % d % B == 0
  {
    ModSmall(B, d);
  }

  /** Those are the whole remainder, whatever is divided, just when the divisor is at most 2^32. */
  lemma Umod64Exact(d: nat)
    requires 0 < d < B2
    ensures (forall n: nat :: n < B2 ==> n % d % B == n % d) <==> d <= B
  {
    if d > B {
      Umod64Fails(d);
    } else {
      forall n: nat | n < B2 ensures n % d % B == n % d {
        DivDef(n, d);
        ModSmall(n % d, B);
      }
    }
  }

  // ------------------------------------------------------------------ signed

  function Abs(x: int): nat { if x < 0 then -x else x }

  /** The quotient rounded toward zero, and what it leaves. */
  function Quot(n: int, d: int): int
    requires d != 0
  {
    if (n < 0) == (d < 0) then Abs(n) / Abs(d) else -(Abs(n) / Abs(d))
  }

  function Rem(n: int, d: int): int
    requires d != 0
  {
    n - d * Quot(n, d)
  }

  /** Rounding toward zero: the remainder is below the divisor in size and has the sign of n. */
  lemma RemTruncates(n: int, d: int)
    requires d != 0
    ensures Abs(Rem(n, d)) == Abs(n) % Abs(d) < Abs(d) && (Rem(n, d) == 0 || (Rem(n, d) < 0 <==> n < 0))
  {
    var a: int, b: int := Abs(n), Abs(d);
    DivDef(a, b);
    var q := a / b;
    assert d * Quot(n, d) == if n < 0 then -(b * q) else b * q by {
      assert (-b) * (-q) == b * q && b * (-q) == -(b * q) && (-b) * q == -(b * q);
    }
  }

  function Signed64(x: int): int { if x % B2 < B2 / 2 then x % B2 else x % B2 - B2 }
  function Signed32(x: int): int { if x % B < B / 2 then x % B else x % B - B }

  lemma Signed64Negated(x: int)
    ensures Signed64(-Signed64(x)) == Signed64(-x)
  {
    var k := Wraps(x);
    ModMultiple(-x, k);
  }

  lemma ModMultiple(x: int, k: int)
    ensures (x + B2 * k) % B2 == x % B2
  {
    DivDef(x, B2);
    QuotientIs(x + B2 * k, B2, x / B2 + k);
    DivDef(x + B2 * k, B2);
  }

  /** sdiv64: the truncated quotient, in 64 bits. */
  method Sdiv64(n: int, d: int) returns (r: int)
    requires -B2 / 2 <= n < B2 / 2 && -B2 / 2 <= d < B2 / 2 && d != 0
    ensures r == Signed64(Quot(n, d))
  {
    var nAbs := if n >= 0 then n % B2 else (-(n % B2)) % B2;
    var dAbs := if d >= 0 then d % B2 else (-(d % B2)) % B2;
    AbsOfWord(n);
    AbsOfWord(d);
    var qAbs := Udiv64(nAbs, dAbs);
    Signed64Negated(qAbs);
    r := if (n < 0) == (d < 0) then Signed64(qAbs) else Signed64(-Signed64(qAbs));
  }

  lemma AbsOfWord(n: int)
    requires -B2 / 2 <= n < B2 / 2
    ensures (if n >= 0 then n % B2 else (-(n % B2)) % B2) == Abs(n) < B2
  {
    if n < 0 {
      ModMultiple(n, 1);
      ModSmall(n + B2, B2);
      ModMultiple(-n - B2, 1);
      ModSmall(-n, B2);
    }
  }

  /** That is the quotient rounded toward zero for every pair but the smallest number and -1. */
  lemma Sdiv64Exact(n: int, d: int)
    requires -B2 / 2 <= n < B2 / 2 && -B2 / 2 <= d < B2 / 2 && d != 0
    ensures Signed64(Quot(n, d)) == Quot(n, d) <==> !(n == -B2 / 2 && d == -1)
  {
    var q: int := Abs(n) / Abs(d);
    QuotRange(Abs(n), Abs(d));
    Signed64Small(q);
    Signed64Small(-q);
    hide Signed64;
  }

  lemma QuotRange(a: int, b: int)
    requires 0 <= a <= B2 / 2 && b >= 1
    ensures 0 <= a / b <= B2 / 2 && (a / b == B2 / 2 <==> a == B2 / 2 && b == 1)
  {
    QuotientBounds(a, b);
    var q := a / b;
    QuotientAbove(a, b, 0);
    if b == 1 {
      assert q == a;
    } else {
      Products(q, q, 2, b);
    }
  }

  lemma Signed64Small(x: int)
    requires -B2 / 2 <= x <= B2 / 2
    ensures Signed64(x) == if x == B2 / 2 then -x else x
  {
    if x < 0 {
      ModMultiple(x, 1);
      ModSmall(x + B2, B2);
    } else {
      ModSmall(x, B2);
    }
  }

  /** smod64 returns 32 bits of the remainder, with its sign. */
  method Smod64(n: int, d: int) returns (r: int)
    requires -B2 / 2 <= n < B2 / 2 && -B2 / 2 <= d < B2 / 2 && d != 0
    ensures r == Signed32(Rem(n, d))
  {
    var q := Sdiv64(n, d);
    RemWraps(n, d, q);
    r := Signed32(Signed64(n - d * q));
  }

  /** A quotient that wrapped leaves the same remainder. */
  lemma RemWraps(n: int, d: int, q: int)
    requires -B2 / 2 <= d < B2 / 2 && d != 0 && q == Signed64(Quot(n, d))
    ensures Signed64(n - d * q) == Rem(n, d)
  {
    hide Quot, Signed64;
    var k := Wraps(Quot(n, d));
    WrapsOff(n, d, q, Quot(n, d), k);
    Signed64Multiple(Rem(n, d), d * k);
    RemTruncates(n, d);
    Signed64Small(Rem(n, d));
  }

  lemma WrapsOff(n: int, d: int, q: int, whole: int, k: int)
    requires whole == q + B2 * k
    ensures n - d * q == n - d * whole + B2 * (d * k)
  {
    assert d * (q + B2 * k) == d * q + d * (B2 * k);
    assert d * (B2 * k) == B2 * (d * k);
  }

  lemma Signed64Multiple(x: int, k: int)
    ensures Signed64(x + B2 * k) == Signed64(x)
  {
    ModMultiple(x, k);
  }

  /** How far a number is from its 64-bit value. */
  lemma Wraps(x: int) returns (k: int)
    ensures x == Signed64(x) + B2 * k
  {
    DivDef(x, B2);
    k := if x % B2 < B2 / 2 then x / B2 else x / B2 + 1;
  }

  /** What 32 signed bits keep. */
  lemma Signed32Range(x: int)
    ensures Signed32(x) == x <==> -B / 2 <= x < B / 2
  {
    DivDef(x, B);
    if -B / 2 <= x < 0 {
      QuotientIs(x, B, -1);
    } else if 0 <= x < B / 2 {
      QuotientIs(x, B, 0);
    }
  }

  /** A divisor greater than 2^31 in size leaves 2^31 over from itself, and smod64 gives the opposite sign. */
  lemma Smod64Fails(d: int)
    requires Abs(d) > B / 2
    ensures Rem(B / 2, d) == B / 2 && Signed32(Rem(B / 2, d)) == -B / 2
  {
    QuotientIs(B / 2, Abs(d), 0);
    ModSmall(B / 2, B);
  }

  /** smod64 is exact, whatever is divided, just when the divisor is at most 2^31 in size. */
  lemma Smod64Exact(d: int)
    requires -B2 / 2 <= d < B2 / 2 && d != 0
    ensures (forall n :: -B2 / 2 <= n < B2 / 2 ==> Signed32(Rem(n, d)) == Rem(n, d)) <==> Abs(d) <= B / 2
  {
    if Abs(d) > B / 2 {
      Smod64Fails(d);
    } else {
      forall n | -B2 / 2 <= n < B2 / 2 ensures Signed32(Rem(n, d)) == Rem(n, d) {
        RemTruncates(n, d);
        Signed32Range(Rem(n, d));
      }
    }
  }
}
