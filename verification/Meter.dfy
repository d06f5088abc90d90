/** The sampled throughput meter. */
module Metering {
  import opened Powers
  import opened Bits

  const INT_MAX := 0x7fff_ffff

  /** The accumulator; tp is when the current window began. */
  datatype State = State(cnt: int, bytes: int, qps: int, tp: int)

  /** One call, with the time the clock would show; AddBytes only touches the bytes. */
  datatype Call = AddBytes(bytes: int, now: int) | AddQps(bytes: int, ops: int, now: int)

  /** A printed line: the totals of the window and its length; AddBytes prints no ops. */
  datatype Report = Report(bytes: int, ops: int, length: int)

  /** The test (cnt & sample) == sample on two 32-bit ints. */
  predicate Sampled(cnt: int, sample: int) {
    Signed(And(cnt, sample, 32), 32) == sample
  }

  function Ops(c: Call): int {
    if c.AddQps? then c.ops else 0
  }

  /** The state and the reports after one more call; AddBytes keeps qps when it reports. */
  function After(s: State, c: Call, sample: int, interval: int): (State, seq<Report>) {
    var t := State(s.cnt + 1, s.bytes + c.bytes, s.qps + Ops(c), s.tp);
    if Sampled(t.cnt, sample) && c.now - t.tp >= interval then
      if c.AddBytes? then (State(t.cnt, 0, t.qps, c.now), [Report(t.bytes, 0, c.now - t.tp)])
      else (State(t.cnt, 0, 0, c.now), [Report(t.bytes, t.qps, c.now - t.tp)])
    else (t, [])
  }

  function Run(s: State, calls: seq<Call>, sample: int, interval: int): (State, seq<Report>) {
    if calls == [] then (s, [])
    else
      var (t, rs) := Run(s, calls[..|calls| - 1], sample, interval);
      var (u, r) := After(t, calls[|calls| - 1], sample, interval);
      (u, rs + r)
  }

  /** Whether a call consults the clock, by its number since the start. */
  function ClockReads(calls: nat, sample: int): seq<int> {
    if calls == 0 then []
    else ClockReads(calls - 1, sample) + (if Sampled(calls, sample) then [calls] else [])
  }

  class Meter {
    const sample: int
    const interval: int
    const disable: bool
    var cnt: int
    var bytes: int
    var qps: int
    var tp: int
    /** Everything printed, and the numbers of the calls that read the clock. */
    ghost var reports: seq<Report>
    ghost var clockReads: seq<int>

    function Now(): State
      reads this
    {
      State(cnt, bytes, qps, tp)
    }

    /** The bytes of all windows printed and of the one under way. */
    ghost function Metered(): int
      reads this
    {
      BytesReported(reports) + bytes
    }

    /** The requested sample is rounded up to one less than a power of two. */
    constructor (interval: int, requested: int, disable: bool, now: int)
      requires -INT_MAX - 1 <= requested < INT_MAX
      ensures Now() == State(0, 0, 0, now) && reports == [] && clockReads == []
      ensures this.interval == interval && this.disable == disable
      ensures sample == if requested < 0 then -1 else NextPow2(requested + 1) - 1
    {
      var r := RoundUpPower2(requested + 1);
      sample := r - 1;
      this.interval, this.disable := interval, disable;
      cnt, bytes, qps, tp := 0, 0, 0, now;
      reports, clockReads := [], [];
    }

    method AddBytes(add: int, now: int)
      requires 0 <= cnt < INT_MAX
      modifies this
      ensures disable ==> Now() == old(Now()) && reports == old(reports) && clockReads == old(clockReads)
      ensures old(reports) <= reports
      ensures !disable ==>
                (Now(), reports[|old(reports)|..]) == After(old(Now()), Call.AddBytes(add, now), sample, interval)
      ensures !disable ==> clockReads == old(clockReads) + (if Sampled(cnt, sample) then [cnt] else [])
      ensures Metered() == old(Metered()) + if disable then 0 else add
    {
      if disable { return; }
      assert reports[|old(reports)|..] == [];
      bytes := bytes + add;
      cnt := cnt + 1;
      if Signed(And(cnt, sample, 32), 32) == sample {
        clockReads := clockReads + [cnt];
        if now - tp >= interval {
          reports := reports + [Report(bytes, 0, now - tp)];
          assert reports[|old(reports)|..] == [Report(bytes, 0, now - tp)];
          assert reports[..|reports| - 1] == old(reports);
          bytes, tp := 0, now;
        }
      }
    }

    method AddQps(bytesAdd: int, qpsAdd: int, now: int)
      requires 0 <= cnt < INT_MAX
      modifies this
      ensures disable ==> Now() == old(Now()) && reports == old(reports) && clockReads == old(clockReads)
      ensures old(reports) <= reports
      ensures !disable ==>
                (Now(), reports[|old(reports)|..])
                == After(old(Now()), Call.AddQps(bytesAdd, qpsAdd, now), sample, interval)
      ensures !disable ==> clockReads == old(clockReads) + (if Sampled(cnt, sample) then [cnt] else [])
    {
      if disable { return; }
      assert reports[|old(reports)|..] == [];
      bytes := bytes + bytesAdd;
      qps := qps + qpsAdd;
      cnt := cnt + 1;
      if Signed(And(cnt, sample, 32), 32) == sample {
        clockReads := clockReads + [cnt];
        if now - tp >= interval {
          reports := reports + [Report(bytes, qps, now - tp)];
          assert reports[|old(reports)|..] == [Report(bytes, qps, now - tp)];
          bytes, qps, tp := 0, 0, now;
        }
      }
    }

    /** A whole sequence of calls on an enabled meter. */
    method AddAll(calls: seq<Call>)
      requires !disable && cnt == 0 && reports == [] && clockReads == [] && |calls| <= INT_MAX
      modifies this
      ensures (Now(), reports) == Run(old(Now()), calls, sample, interval)
      ensures clockReads == ClockReads(|calls|, sample)
    {
      for i := 0 to |calls|
        invariant cnt == i && clockReads == ClockReads(i, sample)
        invariant (Now(), reports) == Run(old(Now()), calls[..i], sample, interval)
      {
        RunNext(old(Now()), calls, i, sample, interval);
        ghost var before := reports;
        match calls[i] {
          case AddBytes(b, now) => AddBytes(b, now);
          case AddQps(b, ops, now) => AddQps(b, ops, now);
        }
        assert reports == before + reports[|before|..];
      }
      assert calls[..|calls|] == calls;
    }
  }

  lemma RunNext(s: State, calls: seq<Call>, i: nat, sample: int, interval: int)
    requires i < |calls|
    ensures var (t, rs) := Run(s, calls[..i], sample, interval);
      var (u, r) := After(t, calls[i], sample, interval);
      Run(s, calls[..i + 1], sample, interval) == (u, rs + r)
  {
    assert calls[..i + 1][..i] == calls[..i];
  }

  // ---- sampling ----

  /** The mask test is a test of the call number: it succeeds at sample modulo sample + 1. */
  lemma SampledIff(cnt: nat, n: nat)
    requires n <= 31
    ensures Sampled(cnt, Pow2(n) - 1) <==> cnt % Pow2(n) == Pow2(n) - 1
  {
    MaskIsUnsigned(cnt, n, 32);
  }

  lemma MaskIsUnsigned(cnt: nat, n: nat, w: nat)
    requires n < w
    ensures Signed(And(cnt, Pow2(n) - 1, w), w) == cnt % Pow2(n)
  {
    AndMask(cnt, n, w);
    Pow2Monotone(n, w - 1);
    SignedOf(And(cnt, Pow2(n) - 1, w), w);
  }

  /** With the mask -1 the test succeeds exactly when the low 32 bits of the call number are all ones. */
  lemma MinusOneIff(cnt: int, w: nat)
    requires w == 32
    ensures Sampled(cnt, -1) <==> cnt % Pow2(w) == Pow2(w) - 1
  {
    AndOnes(cnt, w);
    SignedOf(And(cnt, -1, w), w);
  }

  /** So a negative request gives a meter that never reads the clock, as long as its call counter does not overflow. */
  lemma {:induction false} NegativeNeverSamples(calls: nat)
    requires calls <= INT_MAX
    ensures !Sampled(calls, -1)
    ensures ClockReads(calls, -1) == []
    decreases calls
  {
    Pow2Of31(31);
    assert Pow2(32) == 2 * Pow2(31);
    MinusOneIff(calls, 32);
    if calls == 0 {
    } else {
      NegativeNeverSamples(calls - 1);
    }
  }

  /** Every sample a meter is built with is one less than a power of two, and at least the request. */
  lemma SampleIsMask(requested: nat) returns (n: nat)
    requires requested < INT_MAX
    ensures n <= 31 && NextPow2(requested + 1) - 1 == Pow2(n) - 1 >= requested
  {
    n := NextPow2IsPow2(requested + 1);
    Pow2Of31(31);
    NextPow2IsLeast(requested + 1, 31);
    if n > 31 { Pow2Monotone(32, n); }
  }

  lemma Pow2Of31(k: nat)
    requires k == 31
    ensures Pow2(k) == INT_MAX + 1
  {
    Pow2Sum(15, 16);
    Pow2Sum(8, 8);
    Pow2Sum(7, 8);
    assert Pow2(8) == 256 && Pow2(7) == 128;
  }

  /** The clock is consulted at exactly the call numbers congruent to sample modulo sample + 1, in order. */
  lemma {:induction false} ClockIsReadPeriodically(calls: nat, n: nat, i: nat)
    requires n <= 31
    ensures i in ClockReads(calls, Pow2(n) - 1) <==> 1 <= i <= calls && i % Pow2(n) == Pow2(n) - 1
    ensures |ClockReads(calls, Pow2(n) - 1)| == (calls + 1) / Pow2(n) - 1 / Pow2(n)
    decreases calls
  {
    var p := Pow2(n);
    if calls > 0 {
      ClockIsReadPeriodically(calls - 1, n, i);
      SampledIff(calls, n);
      NextQuotient(calls, p);
    }
  }

  lemma NextQuotient(c: nat, p: nat)
    requires p > 0
    ensures (c + 1) / p == c / p + (if c % p == p - 1 then 1 else 0)
  {
    var q, r := c / p, c % p;
    assert c == p * q + r;
    if r == p - 1 {
      Distribute(p, q, 1);
      Quotient(c + 1, p, q + 1, 0);
    } else {
      Quotient(c + 1, p, q, r + 1);
    }
  }

  lemma Quotient(x: nat, p: nat, q: int, r: nat)
    requires p > 0 && x == p * q + r && r < p
    ensures x / p == q
  {
    ModShift(p, r, q);
    SmallMod(r, p);
    assert x == p * (x / p) + r;
    Cancel(p, x / p, q);
  }

  // ---- conservation ----

  function BytesAdded(calls: seq<Call>): int {
    if calls == [] then 0 else BytesAdded(calls[..|calls| - 1]) + calls[|calls| - 1].bytes
  }

  function OpsAdded(calls: seq<Call>): int {
    if calls == [] then 0 else OpsAdded(calls[..|calls| - 1]) + Ops(calls[|calls| - 1])
  }

  function BytesReported(rs: seq<Report>): int {
    if rs == [] then 0 else BytesReported(rs[..|rs| - 1]) + rs[|rs| - 1].bytes
  }

  function OpsReported(rs: seq<Report>): int {
    if rs == [] then 0 else OpsReported(rs[..|rs| - 1]) + rs[|rs| - 1].ops
  }

  /** Nothing is lost or counted twice: what the reported windows hold and what is still accumulated
      sums to what was added, for bytes and for ops, in any mix of calls. */
  lemma {:induction false} Conservation(s: State, calls: seq<Call>, sample: int, interval: int)
    ensures var (t, rs) := Run(s, calls, sample, interval);
      && BytesReported(rs) + t.bytes == s.bytes + BytesAdded(calls)
      && OpsReported(rs) + t.qps == s.qps + OpsAdded(calls)
      && t.cnt == s.cnt + |calls|
    decreases |calls|
  {
    if calls == [] {
    } else {
      var init := calls[..|calls| - 1];
      Conservation(s, init, sample, interval);
      var (t, rs) := Run(s, init, sample, interval);
      var (u, r) := After(t, calls[|calls| - 1], sample, interval);
      if r == [] { assert rs + r == rs; } else { assert (rs + r)[..|rs + r| - 1] == rs; }
    }
  }

  /** When a meter reports, and what: exactly at the sampled call numbers at which the window is at least the interval
      long; the line has all that was added since the last one, and the next window starts empty. */
  lemma ReportsIff(s: State, calls: seq<Call>, i: nat, n: nat, interval: int)
    requires s.cnt >= 0 && i < |calls| && n <= 31
    ensures var (t, rs) := Run(s, calls[..i], Pow2(n) - 1, interval);
      var (u, rs') := Run(s, calls[..i + 1], Pow2(n) - 1, interval);
      t.cnt == s.cnt + i && ReportsAt(t, rs, calls[i], u, rs', (t.cnt + 1) % Pow2(n) == Pow2(n) - 1, interval)
  {
    var sample := Pow2(n) - 1;
    RunNext(s, calls, i, sample, interval);
    Conservation(s, calls[..i], sample, interval);
    var (t, rs) := Run(s, calls[..i], sample, interval);
    ReportsFrom(t, rs, calls[i], n, interval);
  }

  lemma ReportsFrom(t: State, rs: seq<Report>, c: Call, n: nat, interval: int)
    requires t.cnt >= 0 && n <= 31
    ensures var (u, r) := After(t, c, Pow2(n) - 1, interval);
      ReportsAt(t, rs, c, u, rs + r, (t.cnt + 1) % Pow2(n) == Pow2(n) - 1, interval)
  {
    SampledIff(t.cnt + 1, n);
    ReportsNow(t, rs, c, Pow2(n) - 1, interval);
  }

  /** From t and the lines rs to u and rs': one line with the whole window, or none. */
  predicate ReportsAt(t: State, rs: seq<Report>, c: Call, u: State, rs': seq<Report>, sampled: bool, interval: int) {
    var bytes, ops := t.bytes + c.bytes, t.qps + if c.AddQps? then c.ops else 0;
    if sampled && c.now - t.tp >= interval then
      && rs' == rs + [Report(bytes, if c.AddQps? then ops else 0, c.now - t.tp)]
      && u == State(t.cnt + 1, 0, if c.AddQps? then 0 else ops, c.now)
    else
      rs' == rs && u == State(t.cnt + 1, bytes, ops, t.tp)
  }

  lemma ReportsNow(t: State, rs: seq<Report>, c: Call, sample: int, interval: int)
    ensures var (u, r) := After(t, c, sample, interval);
      ReportsAt(t, rs, c, u, rs + r, Sampled(t.cnt + 1, sample), interval)
  {
    assert rs + [] == rs;
  }

  function TotalLength(rs: seq<Report>): int {
    if rs == [] then 0 else TotalLength(rs[..|rs| - 1]) + rs[|rs| - 1].length
  }

  /** The windows are back to back and none is shorter than the interval. */
  lemma {:induction false} WindowsAreContiguous(s: State, calls: seq<Call>, sample: int, interval: int)
    ensures var (t, rs) := Run(s, calls, sample, interval);
      t.tp == s.tp + TotalLength(rs) && forall k | 0 <= k < |rs| :: rs[k].length >= interval
    decreases |calls|
  {
    if calls == [] {
    } else {
      var init := calls[..|calls| - 1];
      WindowsAreContiguous(s, init, sample, interval);
      var (t, rs) := Run(s, init, sample, interval);
      var (u, r) := After(t, calls[|calls| - 1], sample, interval);
      if r == [] { assert rs + r == rs; } else { assert (rs + r)[..|rs + r| - 1] == rs; }
    }
  }
}
