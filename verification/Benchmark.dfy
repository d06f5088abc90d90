/** The bandwidth benchmark as a whole: one message repeated is inside the domain of the echo. */
module Benchmark {
  import opened Wire
  import opened EchoSystem
  import opened EchoRuns
  import opened EchoProgress
  import opened Client

  /** The requests of n rounds of the benchmark loop. */
  function Rounds(r: Request, n: nat, inCap: nat, outCap: nat): Config {
    Config(Copies(r, n), inCap, outCap)
  }

  /** What the client's loop has sent after n rounds is the stream of that many requests. */
  lemma LoopSendsTheStream(out: seq<Byte>, before: seq<Byte>, r: Request, n: nat, inCap: nat, outCap: nat)
    ensures SentCopies(out, before, r, n) <==> out == before + Up(Rounds(r, n, inCap, outCap))
  {}

  lemma CopiesNeverDecrease(r: Request, n: nat)
    ensures NonDecreasing(Copies(r, n))
  {
    forall k: nat | k < n ensures Grows(Copies(r, n), k) {}
  }

  lemma RoundsAreAdmissible(r: Request, n: nat, inCap: nat, outCap: nat)
    requires Fits(r)
    ensures Admissible(Rounds(r, n, inCap, outCap)) && Limit(Copies(r, n)) == n
  {
    CopiesNeverDecrease(r, n);
  }

  /** Every run of the benchmark echoes. */
  lemma BenchmarkEchoes(r: Request, n: nat, inCap: nat, outCap: nat, run: seq<Action>, s: Sys)
    requires Fits(r) && Reaches(Rounds(r, n, inCap, outCap), run, s)
    ensures Echoes(Rounds(r, n, inCap, outCap), s)
  {
    RoundsAreAdmissible(r, n, inCap, outCap);
    EchoIsCorrect(Rounds(r, n, inCap, outCap), run, s);
  }

  /** Every run of the benchmark, whose header is never empty, is of bounded length if its steps all change the state,
      and is complete if it cannot go on. */
  lemma BenchmarkCompletes(r: Request, n: nat, inCap: nat, outCap: nat, run: seq<Action>, s: Sys)
    requires Fits(r) && r.header != [] && inCap >= 1 && outCap >= 1
    requires EagerRun(Rounds(r, n, inCap, outCap), run, s)
    ensures Stuck(Rounds(r, n, inCap, outCap), s) ==> Complete(Rounds(r, n, inCap, outCap), s)
    ensures Productive(Rounds(r, n, inCap, outCap), START, run) ==>
              |run| <= 32 * (6 * |Up(Rounds(r, n, inCap, outCap))| + n) + 7
  {
    var c := Rounds(r, n, inCap, outCap);
    RoundsAreAdmissible(r, n, inCap, outCap);
    CopiesNeverDecrease(r, n);
    if Stuck(c, s) { EveryRunCompletes(c, run, s); }
    if Productive(c, START, run) { EveryRunIsBounded(c, run); }
  }
}
