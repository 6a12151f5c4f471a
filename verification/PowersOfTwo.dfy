/** The bit tricks of lib/kernel/hash.c on powers of two. */
module PowersOfTwo {
  import opened Words
  import opened Division

  predicate IsPow2(x: nat) { x == 1 || (x > 0 && x % 2 == 0 && IsPow2(x / 2)) }

  /** The largest power of two that is at most x. */
  function TopBit(x: nat): (p: nat)
    requires x > 0
    ensures p <= x < 2 * p && IsPow2(p)
  {
    if x == 1 then 1 else 2 * TopBit(x / 2)
  }

  /** turn_off_least_1bit. */
  function TurnOffLeast1Bit(x: nat): nat
    requires x > 0
  {
    And(x, x - 1)
  }

  /** is_power_of_2. */
  predicate IsPowerOf2(x: nat) { x != 0 && TurnOffLeast1Bit(x) == 0 }

  lemma {:induction false} AndSelf(x: nat)
    ensures And(x, x) == x
  {
    if x > 0 { AndSelf(x / 2); }
  }

  /** The least bit is gone: at once from an odd number, and from the half of an even one. */
  lemma TurnOffHalf(x: nat)
    requires x > 0
    ensures x % 2 == 1 ==> TurnOffLeast1Bit(x) == x - 1
    ensures x % 2 == 0 ==> TurnOffLeast1Bit(x) == 2 * TurnOffLeast1Bit(x / 2)
  {
    if x > 1 {
      var y := x / 2;
      AndSelf(y);
      if x % 2 == 1 {
        assert (x - 1) / 2 == y && (x - 1) % 2 == 0;
      } else {
        assert (x - 1) / 2 == y - 1 && (x - 1) % 2 == 1;
      }
    }
  }

  lemma {:induction false} IsPowerOf2Correct(x: nat)
    ensures IsPowerOf2(x) <==> IsPow2(x)
  {
    if x > 0 {
      TurnOffHalf(x);
      if x % 2 == 0 { IsPowerOf2Correct(x / 2); }
    }
  }

  /** Turning off the least of several bits keeps the top one. */
  lemma {:induction false} TurnOffKeepsTop(x: nat)
    requires x > 0 && !IsPow2(x)
    ensures 0 < TurnOffLeast1Bit(x) < x && TopBit(TurnOffLeast1Bit(x)) == TopBit(x)
  {
    TurnOffHalf(x);
    if x % 2 == 0 { TurnOffKeepsTop(x / 2); }
  }

  lemma {:induction false} TopOfPower(x: nat)
    requires IsPow2(x)
    ensures TopBit(x) == x
  {
    if x > 1 { TopOfPower(x / 2); }
  }

  /** Masking with a power of two less one is the remainder. */
  lemma {:induction false} MaskIsMod(x: nat, c: nat)
    requires IsPow2(c)
    ensures And(x, c - 1) == x % c
  {
    if c > 1 && x > 0 {
      var h := c / 2;
      MaskIsMod(x / 2, h);
      assert (c - 1) / 2 == h - 1 && (c - 1) % 2 == 1;
      HalfMod(x, h);
    }
  }

  lemma HalfMod(x: nat, h: nat)
    requires h > 0
    ensures x % (2 * h) == x % 2 + 2 * (x / 2 % h)
  {
    var q, r := x / 2 / h, x / 2 % h;
    assert x / 2 == q * h + r;
    assert (q + 1) * (2 * h) == q * (2 * h) + 2 * h;
    assert q * (2 * h) == 2 * (q * h);
    QuotientIs(x, 2 * h, q);
  }
}
