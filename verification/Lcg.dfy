/** The workload generator: x -> 214013 * x + 2531011 modulo 2^32 has full period, so every 2^32
    consecutive picks have exactly the same mix. */
module Lcg {
  import opened Powers

  const A := 214013
  const C := 2531011
  const M := 0x1_0000_0000

  // ---- the generator over the integers ----

  function F(x: int): int {
    A * x + C
  }

  function Iter(n: nat, x: int): int {
    if n == 0 then x else F(Iter(n - 1, x))
  }

  lemma {:induction false} IterAdd(n: nat, m: nat, x: int)
    ensures Iter(n + m, x) == Iter(m, Iter(n, x))
    decreases m
  {
    if m == 0 {
    } else {
      IterAdd(n, m - 1, x);
    }
  }

  /** The affine form of 2^k steps: x -> Slope(k) * x + Shift(k). */
  function Slope(k: nat): int {
    if k == 0 then A else Slope(k - 1) * Slope(k - 1)
  }

  function Shift(k: nat): int {
    if k == 0 then C else Shift(k - 1) * (Slope(k - 1) + 1)
  }

  lemma {:induction false} AffineForm(k: nat, x: int)
    ensures Iter(Pow2(k), x) == Slope(k) * x + Shift(k)
    decreases k
  {
    if k == 0 {
      assert Iter(0, x) == x;
    } else {
      var a, c := Slope(k - 1), Shift(k - 1);
      AffineForm(k - 1, x);
      IterAdd(Pow2(k - 1), Pow2(k - 1), x);
      AffineForm(k - 1, a * x + c);
      calc {
        a * (a * x + c) + c;
        { Distribute(a, a * x, c); Associate(a, a, x); }
        (a * a) * x + (a * c + c);
        { Distribute(c, a, 1); }
        (a * a) * x + c * (a + 1);
      }
    }
  }

  lemma SlopeStep(p: int, t: int)
    ensures (1 + 4 * p * t) * (1 + 4 * p * t) == 1 + 4 * (2 * p) * (t * (1 + 2 * (p * t)))
  {
    var z := p * t;
    assert 4 * p * t == 4 * z;
    Associate(p, t, 1 + 2 * z);
    assert (1 + 4 * z) * (1 + 4 * z) == 1 + 8 * (z * (1 + 2 * z));
  }

  lemma ShiftStep(p: int, u: int, w: int)
    ensures (p * (2 * u + 1)) * (2 + 4 * w) == (2 * p) * (2 * (u + w * (2 * u + 1)) + 1)
  {
    var o := 2 * u + 1;
    assert o * (2 + 4 * w) == 2 * (o + 2 * (w * o));
    Associate(p, o, 2 + 4 * w);
    Associate(p, 2, o + 2 * (w * o));
  }

  /** Slope(k) is 1 modulo 2^(k+2), and Shift(k) is an odd multiple of 2^k. */
  lemma {:induction false} SlopeAndShift(k: nat) returns (t: int, u: int)
    ensures Slope(k) == 1 + 4 * Pow2(k) * t
    ensures Shift(k) == Pow2(k) * (2 * u + 1)
    decreases k
  {
    if k == 0 {
      t, u := 53503, 1265505;
    } else {
      var p := Pow2(k - 1);
      var t', u' := SlopeAndShift(k - 1);
      var z := p * t';
      SlopeStep(p, t');
      ShiftStep(p, u', z);
      assert 4 * p * t' == 4 * z;
      t, u := t' * (1 + 2 * z), u' + z * (2 * u' + 1);
    }
  }

  /** 2^k steps move every x by an odd multiple of 2^k. */
  lemma PowerStep(k: nat, x: int) returns (u: int)
    ensures Iter(Pow2(k), x) == x + Pow2(k) * (2 * u + 1)
  {
    AffineForm(k, x);
    var t, v := SlopeAndShift(k);
    u := v + 2 * (t * x);
    StepSum(Pow2(k), t, x, v);
  }

  lemma StepSum(p: int, t: int, x: int, v: int)
    ensures (1 + 4 * p * t) * x + p * (2 * v + 1) == x + p * (2 * (v + 2 * (t * x)) + 1)
  {
    var z := t * x;
    Distribute(x, 1, 4 * p * t);
    Associate(4 * p, t, x);
    Distribute(p, 4 * z, 2 * v + 1);
    Associate(p, 4, z);
  }

  lemma OneLess(m: nat, p: nat)
    requires m > 0
    ensures m * p == (m - 1) * p + p && (m - 1) * p >= 0
  {
    Distribute(p, m - 1, 1);
  }

  lemma Parity(m: nat, v: int, w: int)
    requires m > 0 && v % 2 == (m - 1) % 2
    ensures (v + 2 * w + 1) % 2 == m % 2
  {}

  /** An odd number of moves by odd multiples is a move by an odd multiple, an even number by an even one. */
  lemma {:induction false} RepeatedStep(k: nat, m: nat, x: int) returns (u: int)
    ensures Iter(m * Pow2(k), x) == x + Pow2(k) * u
    ensures u % 2 == m % 2
    decreases m
  {
    var p := Pow2(k);
    if m == 0 {
      u := 0;
    } else {
      var v := RepeatedStep(k, m - 1, x);
      var n := (m - 1) * p;
      OneLess(m, p);
      var w;
      u, w := OneStepMore(k, n, v, x);
      Parity(m, v, w);
    }
  }

  lemma OneStepMore(k: nat, n: nat, v: int, x: int) returns (u: int, w: int)
    requires Iter(n, x) == x + Pow2(k) * v
    ensures Iter(n + Pow2(k), x) == x + Pow2(k) * u && u == v + 2 * w + 1
  {
    w := PowerStep(k, Iter(n, x));
    IterAdd(n, Pow2(k), x);
    u := v + 2 * w + 1;
    Distribute(Pow2(k), v, 2 * w + 1);
  }

  lemma EvenQuotient(p: int, r: int, q: int, u: int)
    requires p > 0 && p * u == (p * (2 * r)) * q
    ensures u == 2 * (r * q)
  {
    var z := r * q;
    Associate(p, 2 * r, q);
    Associate(2, r, q);
    assert p * u == p * (2 * z);
    Cancel(p, u, 2 * z);
  }

  lemma OddNotMultiple(p: nat, m: nat, r: int, u: int)
    requires p > 0 && m > 0 && m == p * (2 * r) && u % 2 == 1
    ensures (p * u) % m != 0
  {
    if (p * u) % m == 0 {
      var q := (p * u) / m;
      assert p * u == m * q;
      EvenQuotient(p, r, q, u);
    }
  }

  /** 2^k divides 2^e * u, for odd u, only when k <= e. */
  lemma OddMultiple(k: nat, e: nat, u: int)
    requires u % 2 == 1 && e < k
    ensures (Pow2(e) * u) % Pow2(k) != 0
  {
    Pow2Sum(e, k - e);
    OddNotMultiple(Pow2(e), Pow2(k), Pow2(k - e - 1), u);
  }

  /** The period theorem, for every modulus 2^k: n steps lead back to the same residue exactly when
      2^k divides n. */
  lemma ReturnsIff(k: nat, n: nat, x: int)
    ensures (Iter(n, x) - x) % Pow2(k) == 0 <==> n % Pow2(k) == 0
  {
    if n > 0 {
      var e, m := OddPart(n);
      var u := RepeatedStep(e, m, x);
      if e < k {
        OddMultiple(k, e, u);
        OddMultiple(k, e, m);
        assert m * Pow2(e) == Pow2(e) * m;
      } else {
        Pow2Sum(k, e - k);
        var p, q := Pow2(k), Pow2(e - k);
        Associate(p, q, u);
        Associate(p, q, m);
        Divides(p, q * u);
        Divides(p, q * m);
        assert m * Pow2(e) == Pow2(e) * m;
      }
    }
  }


  // ---- the generator on 32-bit states ----

  predicate Seed(x: int) {
    0 <= x < M
  }

  /** One step of g_seed: unsigned arithmetic wraps modulo 2^32. */
  function Next(x: nat): (y: nat)
    ensures Seed(y)
  {
    (A * x + C) % M
  }

  function Orbit(n: nat, s: nat): nat {
    if n == 0 then s else Next(Orbit(n - 1, s))
  }

  lemma Period32()
    ensures Pow2(32) == M
  {
    Pow2Sum(16, 16);
    Pow2Sum(8, 8);
    assert Pow2(8) == 256;
  }

  lemma NextMod(x: int)
    ensures F(x) % M == F(x % M) % M
  {
    var q := x / M;
    assert F(x) == F(x % M) + M * (A * q);
    ModShift(M, F(x % M), A * q);
  }

  /** Wrapping at every step is wrapping once at the end. */
  lemma {:induction false} OrbitIsIter(n: nat, s: nat)
    requires Seed(s)
    ensures Orbit(n, s) == Iter(n, s) % M
  {
    if n == 0 {
    } else {
      OrbitIsIter(n - 1, s);
      NextMod(Iter(n - 1, s));
    }
  }

  lemma {:induction false} OrbitAdd(n: nat, m: nat, s: nat)
    ensures Orbit(n + m, s) == Orbit(m, Orbit(n, s))
    decreases m
  {
    if m == 0 {
    } else {
      OrbitAdd(n, m - 1, s);
    }
  }

  lemma {:induction false} OrbitIsSeed(n: nat, s: nat)
    requires Seed(s)
    ensures Seed(Orbit(n, s))
  {}

  lemma SameResidue(a: int, b: int)
    requires Seed(b)
    ensures a % M == b <==> (a - b) % M == 0
  {}

  /** Full period: from every seed, two positions of the sequence hold the same state exactly when
      they are a multiple of 2^32 apart. */
  lemma FullPeriod(s: nat, i: nat, j: nat)
    requires Seed(s) && i <= j
    ensures Orbit(i, s) == Orbit(j, s) <==> (j - i) % M == 0
  {
    var x := Orbit(i, s);
    OrbitIsSeed(i, s);
    OrbitAdd(i, j - i, s);
    OrbitIsIter(j - i, x);
    Period32();
    ReturnsIff(32, j - i, x);
    SameResidue(Iter(j - i, x), x);
  }

  predicate Agree(k: nat, a: int, b: int) {
    (a - b) % Pow2(k) == 0
  }

  /** Every residue is reached within 2^k steps: an extra 2^(k-1) steps flip bit k-1. */
  lemma {:induction false} Reaches(k: nat, x: int, t: int) returns (i: nat)
    ensures i < Pow2(k)
    ensures Agree(k, Iter(i, x), t)
    decreases k
  {
    if k == 0 {
      i := 0;
    } else {
      i := Reaches(k - 1, x, t);
      if !Agree(k, Iter(i, x), t) {
        OneMoreBit(k - 1, i, x, t);
        i := i + Pow2(k - 1);
      }
    }
  }

  lemma OneMoreBit(k: nat, i: nat, x: int, t: int)
    requires Agree(k, Iter(i, x), t) && !Agree(k + 1, Iter(i, x), t)
    ensures Agree(k + 1, Iter(i + Pow2(k), x), t)
  {
    var y := Iter(i, x);
    var u := PowerStep(k, y);
    IterAdd(i, Pow2(k), x);
    FlipBit(Pow2(k), y - t, u);
  }

  lemma FlipBit(p: nat, d: int, u: int)
    requires p > 0 && d % p == 0 && d % (2 * p) != 0
    ensures (d + p * (2 * u + 1)) % (2 * p) == 0
  {
    var q := d / p;
    assert d == p * q;
    if q % 2 == 0 {
      Associate(p, 2, q / 2);
      MultipleOf(2 * p, q / 2, d);
    }
    var h := (q + 2 * u + 1) / 2;
    assert q + 2 * u + 1 == 2 * h;
    Distribute(p, q, 2 * u + 1);
    Associate(p, 2, h);
    MultipleOf(2 * p, h, d + p * (2 * u + 1));
  }

  lemma ReachesState(k: nat, s: nat, t: nat) returns (i: nat)
    requires Seed(s) && Seed(t) && k == 32
    ensures i < M && Orbit(i, s) == t
  {
    Period32();
    i := Reaches(k, s, t);
    OrbitIsIter(i, s);
    SameResidue(Iter(i, s), t);
  }

  lemma FullCircle(s: nat, i: nat, n: nat) returns (j: nat)
    requires Seed(s) && i == 0 && n == M
    ensures j == n && Orbit(j, s) == s
  {
    j := n;
    FullPeriod(s, i, n);
  }

  lemma VisitedOnce(s: nat, i: nat, j: nat)
    requires Seed(s) && 1 <= i <= M && 1 <= j <= M && Orbit(i, s) == Orbit(j, s)
    ensures i == j
  {
    if j <= i { FullPeriod(s, j, i); } else { FullPeriod(s, i, j); }
  }

  /** Every state is visited exactly once in any 2^32 consecutive steps. */
  lemma VisitsEveryState(s: nat, t: nat) returns (i: nat)
    requires Seed(s) && Seed(t)
    ensures 1 <= i <= M && Orbit(i, s) == t
    ensures forall j: nat | 1 <= j <= M && Orbit(j, s) == t :: j == i
  {
    i := ReachesState(32, s, t);
    if i == 0 { i := FullCircle(s, 0, M); }
    forall j: nat | 1 <= j <= M && Orbit(j, s) == t ensures j == i { VisitedOnce(s, i, j); }
  }
}
