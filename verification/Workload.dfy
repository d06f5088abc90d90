/** The request mix: how often the generator picks each of the two requests over a full period. */
module Workload {
  import opened Lcg

  /** fast_rand's output: the middle fifteen bits of the state. */
  function Output(state: nat): (r: nat)
    ensures r < 32768
  {
    state / 65536 % 32768
  }

  /** The pick GenerateWorkload makes from a state: index 0 is "danyang", 1 is "matt". */
  predicate Danyang(state: nat) {
    Output(state) % 100 < 1
  }

  class Generator {
    var seed: nat

    /** fast_srand converts an int to unsigned. */
    constructor (s: int)
      ensures seed == s % M && Seed(seed)
    {
      seed := s % M;
    }

    method FastRand() returns (r: nat)
      requires Seed(seed)
      modifies this
      ensures seed == Next(old(seed)) && Seed(seed) && r == Output(seed)
    {
      seed := (A * seed + C) % M;
      r := seed / 65536 % 32768;
    }

    /** One call of GenerateWorkload. */
    method GenerateWorkload() returns (index: nat)
      requires Seed(seed)
      modifies this
      ensures seed == Next(old(seed)) && Seed(seed)
      ensures index == if Danyang(seed) then 0 else 1
    {
      var r := FastRand();
      index := 1 - (if r % 100 < 1 then 1 else 0);
    }

    /** n consecutive calls, as the client's loops make them, with the number of "danyang" picks. */
    method GenerateMany(n: nat) returns (danyang: nat)
      requires Seed(seed)
      modifies this
      ensures seed == Orbit(n, old(seed)) && Seed(seed)
      ensures danyang == Picks(old(seed), n)
    {
      danyang := 0;
      for i := 0 to n
        invariant Seed(seed) && seed == Orbit(i, old(seed)) && danyang == Picks(old(seed), i)
      {
        var index := GenerateWorkload();
        if index == 0 { danyang := danyang + 1; }
      }
    }
  }

  /** How many of the first n calls from seed s pick "danyang". */
  function Picks(s: nat, n: nat): nat {
    if n == 0 then 0 else Picks(s, n - 1) + (if Danyang(Orbit(n, s)) then 1 else 0)
  }

  /** How many states below n do. */
  function Below(n: nat): nat {
    if n == 0 then 0 else Below(n - 1) + (if Danyang(n - 1) then 1 else 0)
  }

  /** The sequence from seed 1, which fixes the constants of the generator. */
  lemma KnownSequence(s: nat)
    requires s == 1
    ensures Output(Orbit(1, s)) == 41 && Output(Orbit(2, s)) == 18467 && Output(Orbit(3, s)) == 6334
  {
    assert Orbit(1, s) == 2745024;
    assert Orbit(2, s) == 3357800067;
    assert Orbit(3, s) == 415139642;
  }

  // ---- from the sequence to the states ----

  function Visited(s: nat, n: nat): set<nat> {
    set i | 1 <= i <= n && Danyang(Orbit(i, s)) :: Orbit(i, s)
  }

  function StatesBelow(n: nat): set<nat> {
    set x: nat | 0 <= x < n && Danyang(x)
  }

  lemma {:induction false} PicksCountVisited(s: nat, n: nat)
    requires Seed(s) && n <= M
    ensures |Visited(s, n)| == Picks(s, n)
    decreases n
  {
    if n == 0 {
      assert Visited(s, n) == {};
    } else {
      PicksCountVisited(s, n - 1);
      var x := Orbit(n, s);
      forall i | 1 <= i <= n - 1 ensures Orbit(i, s) != x { FullPeriod(s, i, n); }
      if Danyang(x) {
        assert Visited(s, n) == Visited(s, n - 1) + {x};
      } else {
        assert Visited(s, n) == Visited(s, n - 1);
      }
    }
  }

  lemma {:induction false} BelowCountsStates(n: nat)
    ensures |StatesBelow(n)| == Below(n)
    decreases n
  {
    if n == 0 {
      assert StatesBelow(n) == {};
    } else {
      BelowCountsStates(n - 1);
      assert StatesBelow(n) == StatesBelow(n - 1) + (if Danyang(n - 1) then {n - 1} else {});
    }
  }

  lemma AllStatesVisited(s: nat, n: nat)
    requires Seed(s) && n == M
    ensures Visited(s, n) == StatesBelow(n)
  {
    forall x | x in StatesBelow(n) ensures x in Visited(s, n) {
      var i := VisitsEveryState(s, x);
    }
    forall x | x in Visited(s, n) ensures x in StatesBelow(n) {
      var i :| 1 <= i <= n && Danyang(Orbit(i, s)) && Orbit(i, s) == x;
      OrbitIsSeed(i, s);
    }
  }

  // ---- counting the states ----

  /** Outputs below n that pick "danyang", when the output is all that varies. */
  function Blocks(q: nat): nat {
    if q == 0 then 0 else Blocks(q - 1) + (if (q - 1) % 32768 % 100 < 1 then 1 else 0)
  }

  lemma {:induction false} BlockOf(q: nat, r: nat)
    requires r <= 65536
    ensures Below(65536 * q + r) == Below(65536 * q) + (if q % 32768 % 100 < 1 then r else 0)
    decreases r
  {
    if r == 0 {
    } else {
      BlockOf(q, r - 1);
      assert (65536 * q + (r - 1)) / 65536 == q;
      assert Danyang(65536 * q + r - 1) <==> q % 32768 % 100 < 1;
    }
  }

  lemma {:induction false} BelowIsBlocks(q: nat)
    ensures Below(65536 * q) == 65536 * Blocks(q)
    decreases q
  {
    if q == 0 {
    } else {
      BelowIsBlocks(q - 1);
      BlockOf(q - 1, 65536);
      assert 65536 * (q - 1) + 65536 == 65536 * q;
    }
  }

  lemma HundredStep(q: nat)
    requires 0 < q <= 32768
    ensures (q + 99) / 100 == (q + 98) / 100 + (if (q - 1) % 32768 % 100 < 1 then 1 else 0)
  {
    assert (q - 1) % 32768 == q - 1;
  }

  lemma {:induction false} BlocksFirst(q: nat)
    requires q <= 32768
    ensures Blocks(q) == (q + 99) / 100
    decreases q
  {
    if q == 0 {
    } else {
      BlocksFirst(q - 1);
      HundredStep(q);
    }
  }

  lemma NextBlock(h: nat, r: nat)
    requires h == 32768
    ensures (h + r) % 32768 == r % 32768
  {}

  lemma {:induction false} BlocksSecond(h: nat, q: nat)
    requires h == 32768 && q <= h
    ensures Blocks(h + q) == 328 + (q + 99) / 100
    decreases q
  {
    if q == 0 {
      BlocksFirst(h);
    } else {
      BlocksSecond(h, q - 1);
      HundredStep(q);
      NextBlock(h, q - 1);
    }
  }

  /** The exact mix: from every seed, any 2^32 consecutive calls pick "danyang" 328 * 2^17 times. The
      comment's 1% would be 327.68 * 2^17. */
  lemma ExactMix(s: nat, n: nat)
    requires Seed(s) && n == M
    ensures Picks(s, n) == 328 * 131072
  {
    PicksCountVisited(s, n);
    AllStatesVisited(s, n);
    BelowCountsStates(n);
    AllBlocks(n, 65536, 32768);
  }

  lemma AllBlocks(n: nat, q: nat, h: nat)
    requires n == 65536 * q && q == h + h && h == 32768
    ensures Below(n) == 328 * 131072
  {
    BelowIsBlocks(q);
    BlocksSecond(h, h);
  }
}
