/** Powers of two and the little arithmetic of multiples that the proofs share. */
module Powers {

  function Pow2(k: nat): (p: nat)
    ensures p > 0
  {
    if k == 0 then 1 else 2 * Pow2(k - 1)
  }

  lemma Distribute(a: int, b: int, c: int)
    ensures a * (b + c) == a * b + a * c
  {}

  lemma Associate(a: int, b: int, c: int)
    ensures a * (b * c) == (a * b) * c
  {}

  /** Every positive number is a power of two times an odd number. */
  lemma {:induction false} OddPart(d: nat) returns (e: nat, m: nat)
    requires d > 0
    ensures d == m * Pow2(e) && m % 2 == 1
    decreases d
  {
    if d % 2 == 1 {
      e, m := 0, d;
    } else {
      e, m := OddPart(d / 2);
      assert d == 2 * (d / 2) == m * (2 * Pow2(e));
      e := e + 1;
    }
  }

  lemma {:induction false} Pow2Sum(a: nat, b: nat)
    ensures Pow2(a + b) == Pow2(a) * Pow2(b)
    decreases a
  {
    if a == 0 {
    } else {
      Pow2Sum(a - 1, b);
    }
  }

  lemma {:induction false} Pow2Monotone(a: nat, b: nat)
    requires a <= b
    ensures Pow2(a) <= Pow2(b)
    decreases b
  {
    if a == b {
    } else {
      Pow2Monotone(a, b - 1);
    }
  }

  lemma Cancel(p: int, x: int, y: int)
    requires p > 0 && p * x == p * y
    ensures x == y
  {
    assert p * (x - y) == 0;
  }

  lemma Divides(p: nat, x: int)
    requires p > 0
    ensures (p * x) % p == 0
  {
    MultipleOf(p, x, p * x);
  }

  lemma MultipleOf(p: nat, x: int, y: int)
    requires p > 0 && y == p * x
    ensures y % p == 0
  {
    var d := y / p;
    var r := y - p * d;
    assert r == y % p && r == p * (x - d);
    SmallMultiple(p, x - d, r);
  }

  lemma SmallMultiple(p: nat, z: int, r: nat)
    requires r < p && r == p * z
    ensures r == 0
  {}

  lemma ModShift(m: nat, r: int, q: int)
    requires m > 0
    ensures (r + m * q) % m == r % m
  {
    var y := r + m * q;
    assert m * q == m * (y / m) - m * (r / m) + (y % m - r % m);
    Distribute(m, y / m, -(r / m));
    Distribute(m, q, -(y / m - r / m));
    var z := q - (y / m - r / m);
    assert m * z == y % m - r % m;
    if y % m >= r % m { SmallMultiple(m, z, y % m - r % m); } else { SmallMultiple(m, -z, r % m - y % m); }
  }
}
