/** x & -x on 64-bit two's complement, and rounding up to a power of two. */
module Bits {
  import opened Powers

  /** The bitwise and of the w low bits of two integers in two's complement. */
  function And(x: int, y: int, w: nat): (r: nat)
    ensures r < Pow2(w)
    decreases w, x, y
  {
    if w == 0 then 0 else (if x % 2 == 1 && y % 2 == 1 then 1 else 0) + 2 * And(x / 2, y / 2, w - 1)
  }

  /** Reading w bits as a signed number. */
  function Signed(r: nat, w: nat): int
    requires w > 0
  {
    if r < Pow2(w - 1) then r else r - Pow2(w)
  }

  /** The C expression x & -x on a long. */
  function Lowbit(x: int): int {
    Signed(And(x, -x, 64), 64)
  }

  function Abs(x: int): nat {
    if x < 0 then -x else x
  }

  /** The largest power of two dividing x. */
  function LowPower(x: int): (p: nat)
    requires x != 0
    ensures 0 < p <= Abs(x)
    decreases Abs(x)
  {
    if x % 2 == 1 then 1 else 2 * LowPower(x / 2)
  }

  /** Exactly the powers of two up to LowPower(x) divide x. */
  lemma {:induction false} LowPowerIsLargest(x: int, k: nat)
    requires x != 0
    ensures x % Pow2(k) == 0 <==> Pow2(k) <= LowPower(x)
    decreases Abs(x)
  {
    if k == 0 {
    } else {
      EvenDivides(x, Pow2(k - 1));
      if x % 2 == 0 { LowPowerIsLargest(x / 2, k - 1); }
    }
  }

  lemma EvenDivides(x: int, p: nat)
    requires p > 0
    ensures x % (2 * p) == 0 <==> x % 2 == 0 && (x / 2) % p == 0
  {
    if x % 2 == 0 && (x / 2) % p == 0 {
      var q := x / 2 / p;
      assert x == 2 * (p * q);
      Associate(2, p, q);
      MultipleOf(2 * p, q, x);
    }
    if x % (2 * p) == 0 {
      var q := x / (2 * p);
      Associate(2, p, q);
      assert x == 2 * (p * q);
      MultipleOf(p, q, x / 2);
    }
  }

  lemma {:induction false} LowPowerIsPow2(x: int) returns (k: nat)
    requires x != 0
    ensures LowPower(x) == Pow2(k)
    decreases Abs(x)
  {
    k := 0;
    if x % 2 == 0 {
      k := LowPowerIsPow2(x / 2);
      k := k + 1;
    }
  }

  /** x and its complement -x - 1 have no bit in common. */
  lemma {:induction false} AndComplement(x: int, w: nat)
    ensures And(x, -x - 1, w) == 0
    decreases w
  {
    if w == 0 {
    } else {
      assert (-x - 1) / 2 == -(x / 2) - 1;
      AndComplement(x / 2, w - 1);
    }
  }

  lemma {:induction false} AndNegate(x: int, w: nat)
    requires x != 0 && LowPower(x) < Pow2(w)
    ensures And(x, -x, w) == LowPower(x)
    decreases w
  {
    if x % 2 == 1 {
      assert (-x) / 2 == -(x / 2) - 1 && (-x) % 2 == 1;
      AndComplement(x / 2, w - 1);
    } else {
      assert (-x) / 2 == -(x / 2) && (-x) % 2 == 0;
      AndNegate(x / 2, w - 1);
    }
  }

  lemma {:induction false} AndZero(y: int, w: nat)
    ensures And(0, y, w) == 0
    decreases w
  {
    if w == 0 {
    } else {
      AndZero(y / 2, w - 1);
    }
  }

  const LONG_MAX := 0x7fff_ffff_ffff_ffff

  lemma Pow2Of63(k: nat)
    requires k == 63
    ensures Pow2(k) == LONG_MAX + 1
  {
    Pow2Sum(31, 32);
    Pow2Sum(16, 16);
    Pow2Sum(15, 16);
    Pow2Sum(8, 8);
    Pow2Sum(7, 8);
    assert Pow2(8) == 256 && Pow2(7) == 128;
  }

  /** On every long that can be negated, x & -x is the largest power of two dividing x, and 0 for 0. */
  lemma LowbitIsLowPower(x: int)
    requires -LONG_MAX <= x <= LONG_MAX
    ensures Lowbit(x) == if x == 0 then 0 else LowPower(x)
  {
    var w: nat := 64;
    Pow2Of63(w - 1);
    if x == 0 {
      AndZero(0, w);
    } else {
      AndNegate(x, w);
    }
  }

  /** The least power of two that is at least x. */
  function NextPow2(x: nat): (p: nat)
    ensures p >= x && p > 0
  {
    if x <= 1 then 1 else 2 * NextPow2((x + 1) / 2)
  }

  lemma {:induction false} NextPow2IsLeast(x: nat, k: nat)
    ensures x <= Pow2(k) <==> NextPow2(x) <= Pow2(k)
    decreases x
  {
    if x > 1 && k > 0 { NextPow2IsLeast((x + 1) / 2, k - 1); }
  }

  lemma {:induction false} NextPow2IsPow2(x: nat) returns (k: nat)
    ensures NextPow2(x) == Pow2(k)
    decreases x
  {
    k := 0;
    if x > 1 {
      k := NextPow2IsPow2((x + 1) / 2);
      k := k + 1;
    }
  }

  lemma {:induction false} LowPowerOfPow2(k: nat)
    ensures LowPower(Pow2(k)) == Pow2(k)
  {
    if k == 0 {
    } else {
      LowPowerOfPow2(k - 1);
    }
  }

  /** Two multiples of p are at least p apart. */
  lemma MultiplesApart(p: nat, x: int, y: int)
    requires p > 0 && x % p == 0 && y % p == 0 && x < y
    ensures x + p <= y
  {
    var a, b := x / p, y / p;
    Distribute(p, a, b - a);
    if y - x < p { SmallMultiple(p, b - a, y - x); }
  }

  /** Adding the low bit moves up without passing the next power of two, or zero from below. */
  lemma AddingLowPower(x: int)
    requires x != 0 && x != LowPower(x)
    ensures x < 0 ==> x + LowPower(x) <= 0
    ensures x > 0 ==> x + LowPower(x) <= NextPow2(x) && NextPow2(x + LowPower(x)) == NextPow2(x)
  {
    var l := LowPower(x);
    var e := LowPowerIsPow2(x);
    LowPowerIsLargest(x, e);
    if x < 0 {
      MultiplesApart(l, x, 0);
    } else {
      var k := NextPow2IsPow2(x);
      var p := Pow2(k);
      if x == p { LowPowerOfPow2(k); }
      LowPowerIsLargest(p, e);
      LowPowerOfPow2(k);
      MultiplesApart(l, x, p);
      NextPow2IsLeast(x + l, k);
      var m := NextPow2IsPow2(x + l);
      NextPow2IsLeast(x, m);
    }
  }

  /** The loop ends, and for positive arguments at the least power of two that is at least x. */
  method RoundUpPower2(x: int) returns (r: int)
    requires -LONG_MAX <= x <= 0x4000_0000_0000_0000
    ensures r == if x <= 0 then 0 else NextPow2(x)
  {
    r := x;
    ghost var target: int := if x <= 0 then 0 else NextPow2(x);
    Bound62(x);
    LowbitIsLowPower(r);
    while r != Lowbit(r)
      invariant x <= r <= target
      invariant if x <= 0 then r <= 0 else r > 0 && NextPow2(r) == target
      invariant Lowbit(r) == if r == 0 then 0 else LowPower(r)
      decreases target - r
    {
      AddingLowPower(r);
      r := r + Lowbit(r);
      LowbitIsLowPower(r);
    }
    if r > 0 { FixedPoint(r); }
  }

  lemma Bound62(x: int)
    requires x <= 0x4000_0000_0000_0000
    ensures x > 0 ==> NextPow2(x) <= 0x4000_0000_0000_0000
  {
    var k: nat := 62;
    Pow2Of63(k + 1);
    if x > 0 { NextPow2IsLeast(x, k); }
  }

  lemma FixedPoint(x: nat)
    requires x > 0 && x == LowPower(x)
    ensures NextPow2(x) == x
  {
    var e := LowPowerIsPow2(x);
    NextPow2IsLeast(x, e);
  }

  lemma LowBitAndRest(c: int, p: nat)
    requires p > 0
    ensures c % 2 + 2 * ((c / 2) % p) == c % (2 * p)
  {
    var q := c / 2 / p;
    var r := c % 2 + 2 * ((c / 2) % p);
    assert c / 2 == p * q + (c / 2) % p;
    assert c == 2 * (p * q) + r;
    Associate(2, p, q);
    ModShift(2 * p, r, q);
    assert 0 <= r < 2 * p;
    SmallMod(r, 2 * p);
  }

  lemma SmallMod(r: nat, m: nat)
    requires r < m
    ensures r % m == r
  {}

  lemma AndOdd(c: int, p: nat, w: nat)
    requires p > 0 && w > 0
    ensures And(c, 2 * p - 1, w) == c % 2 + 2 * And(c / 2, p - 1, w - 1)
  {
    assert (2 * p - 1) / 2 == p - 1 && (2 * p - 1) % 2 == 1;
  }

  lemma AndMaskStep(c: int, p: nat, w: nat)
    requires p > 0 && w > 0 && And(c / 2, p - 1, w - 1) == (c / 2) % p
    ensures And(c, 2 * p - 1, w) == c % (2 * p)
  {
    AndOdd(c, p, w);
    LowBitAndRest(c, p);
  }

  /** Masking with 2^n - 1 is the remainder modulo 2^n. */
  lemma {:induction false} AndMask(c: int, n: nat, w: nat)
    requires n <= w
    ensures And(c, Pow2(n) - 1, w) == c % Pow2(n)
    decreases w
  {
    if n == 0 {
      AndCommutes(c, 0, w);
      AndZero(c, w);
    } else {
      AndMask(c / 2, n - 1, w - 1);
      AndMaskStep(c, Pow2(n - 1), w);
    }
  }

  lemma {:induction false} AndCommutes(x: int, y: int, w: nat)
    ensures And(x, y, w) == And(y, x, w)
    decreases w
  {
    if w == 0 {
    } else {
      AndCommutes(x / 2, y / 2, w - 1);
    }
  }

  /** Masking with all ones, that is with -1, keeps the w low bits. */
  lemma {:induction false} AndOnes(c: int, w: nat)
    ensures And(c, -1, w) == c % Pow2(w)
    decreases w
  {
    if w == 0 {
    } else {
      AndOnes(c / 2, w - 1);
      LowBitAndRest(c, Pow2(w - 1));
    }
  }

  /** Read as a signed number, w bits are the number itself below 2^(w-1), and -1 exactly for all ones. */
  lemma SignedOf(r: nat, w: nat)
    requires w > 0 && r < Pow2(w)
    ensures r < Pow2(w - 1) ==> Signed(r, w) == r
    ensures Signed(r, w) == -1 <==> r == Pow2(w) - 1
  {
    assert Pow2(w) == 2 * Pow2(w - 1);
  }
}
