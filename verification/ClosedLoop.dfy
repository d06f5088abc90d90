/** The closed-loop benchmark client: a window of in-flight calls refilled on every reply. */
module ClosedLoop {
  import opened Ledger

  /** iters is total_iters, or usize::MAX / 2 for a timed run; interval is the reporting interval. */
  datatype Args = Args(
    concurrency: nat, iters: nat, warmup: nat, reqSize: nat, interval: int, reporting: bool, logLatency: bool)

  /** The clocks as one turn of the loop sees them: since the start, and since the last report. */
  datatype Turn = Turn(elapsed: int, sinceReport: int)

  /** Panicked is the unwrap of a None; Waiting means the schedule of turns ended first. */
  datatype Outcome = Finished | TimedOut | Panicked | Waiting

  /** What one report covers. */
  datatype Window = Window(replies: int, bytes: int)

  datatype Result = Result(
    outcome: Outcome, sent: nat, replied: nat, bytes: nat, recordings: nat, held: nat,
    inFlight: set<nat>, order: seq<nat>, windows: seq<Window>)

  function Total(a: Args): nat {
    a.iters + a.warmup
  }

  function Min(a: nat, b: nat): nat {
    if a < b then a else b
  }

  function After(n: nat, warmup: nat): nat {
    if n < warmup then 0 else n - warmup
  }

  function Replies(ws: seq<Window>): int {
    if ws == [] then 0 else Replies(ws[..|ws| - 1]) + ws[|ws| - 1].replies
  }

  function Bytes(ws: seq<Window>): int {
    if ws == [] then 0 else Bytes(ws[..|ws| - 1]) + ws[|ws| - 1].bytes
  }

  /** The window: how many calls have been sent after how many replies. */
  function Sent(a: Args, replied: nat): nat {
    Min(a.concurrency + replied, Total(a))
  }

  /** The first turn that finds the time run out, or the number of turns. */
  function FirstLate(turns: seq<Turn>, timeout: int, k: nat): (n: nat)
    requires k <= |turns|
    ensures k <= n <= |turns|
    ensures n < |turns| ==> turns[n].elapsed > timeout
    ensures forall j | k <= j < n :: turns[j].elapsed <= timeout
    decreases |turns| - k
  {
    if k == |turns| || turns[k].elapsed > timeout then k else FirstLate(turns, timeout, k + 1)
  }

  /** How many replies a run takes, by its inputs: with calls in flight every turn takes one until the run is over. */
  function Replied(a: Args, timeout: int, turns: seq<Turn>): nat {
    if a.concurrency == 0 then 0 else Min(FirstLate(turns, timeout, 0), Total(a))
  }

  function Ending(a: Args, timeout: int, turns: seq<Turn>): Outcome {
    var n := Replied(a, timeout, turns);
    if n == |turns| then Waiting
    else if n == Total(a) then Finished
    else if turns[n].elapsed > timeout then TimedOut
    else Panicked
  }

  /** The loop stands at turn k. */
  predicate At(a: Args, timeout: int, turns: seq<Turn>, k: nat) {
    k <= |turns| && k <= Total(a) && k <= FirstLate(turns, timeout, 0) && (a.concurrency == 0 ==> k == 0)
  }

  lemma EndsHere(a: Args, timeout: int, turns: seq<Turn>, k: nat)
    requires At(a, timeout, turns, k)
    ensures k == |turns| ==> Replied(a, timeout, turns) == k && Ending(a, timeout, turns) == Waiting
    ensures k < |turns| && k == Total(a) ==> Replied(a, timeout, turns) == k && Ending(a, timeout, turns) == Finished
    ensures k < |turns| && k < Total(a) && turns[k].elapsed > timeout ==>
              Replied(a, timeout, turns) == k && Ending(a, timeout, turns) == TimedOut
    ensures k < |turns| && k < Total(a) && turns[k].elapsed <= timeout && a.concurrency == 0 ==>
              Replied(a, timeout, turns) == k && Ending(a, timeout, turns) == Panicked
    ensures k < |turns| && k < Total(a) && turns[k].elapsed <= timeout && a.concurrency > 0 ==>
              At(a, timeout, turns, k + 1)
  {}

  /** A run that times out has not finished its warm-up, so that the final report underflows, if and only if some turn
      with an index below the warm-up is past the timeout. */
  lemma UnderflowIff(a: Args, timeout: int, turns: seq<Turn>)
    requires a.concurrency > 0 && Ending(a, timeout, turns) == TimedOut
    ensures Replied(a, timeout, turns) < a.warmup <==>
            exists k :: 0 <= k < |turns| && k < a.warmup && turns[k].elapsed > timeout
  {
    var n := FirstLate(turns, timeout, 0);
    assert Replied(a, timeout, turns) == n < |turns|;
  }

  /** Such a run: two warm-up calls, and the time is up when the second reply comes. */
  lemma UnderflowingRun(a: Args, turns: seq<Turn>)
    requires a.concurrency > 0 && a.warmup == 2 && turns == [Turn(0, 0), Turn(5, 0)]
    ensures Ending(a, 4, turns) == TimedOut && Replied(a, 4, turns) == 1 < a.warmup
  {
    assert FirstLate(turns, 4, 0) == 1;
  }

  lemma AppendWindow(ws: seq<Window>, w: Window)
    ensures Replies(ws + [w]) == Replies(ws) + w.replies && Bytes(ws + [w]) == Bytes(ws) + w.bytes
  {
    assert (ws + [w])[..|ws|] == ws;
  }

  /** How many replies had been taken at the end of each window. */
  function Ends(ws: seq<Window>): seq<int> {
    if ws == [] then [] else Ends(ws[..|ws| - 1]) + [Replies(ws)]
  }

  /** The counts of replies at which a window has ended after n turns: the interval has passed since the last one.
      A line is printed for those past the warm-up. */
  function Due(a: Args, turns: seq<Turn>, n: nat): seq<int>
    requires n <= |turns|
  {
    if n == 0 || !a.reporting then []
    else Due(a, turns, n - 1) + (if turns[n - 1].sinceReport > a.interval then [n] else [])
  }

  /** Exactly the counts after the turns that are past the interval, in order. */
  lemma {:induction false} DueIff(a: Args, turns: seq<Turn>, n: nat, x: int)
    requires n <= |turns|
    ensures x in Due(a, turns, n) <==> a.reporting && 1 <= x <= n && turns[x - 1].sinceReport > a.interval
    ensures forall i, j | 0 <= i < j < |Due(a, turns, n)| :: Due(a, turns, n)[i] < Due(a, turns, n)[j]
    ensures forall i | 0 <= i < |Due(a, turns, n)| :: 1 <= Due(a, turns, n)[i] <= n
    decreases n
  {
    if n == 0 || !a.reporting {
    } else {
      DueIff(a, turns, n - 1, x);
    }
  }

  /** The last report past the warm-up that cleared the histogram, or 0. */
  function Cleared(a: Args, turns: seq<Turn>, n: nat): (x: int)
    requires n <= |turns|
    ensures 0 <= x <= n
    ensures x > 0 ==> a.reporting && a.logLatency && x > a.warmup && turns[x - 1].sinceReport > a.interval
    ensures a.reporting && a.logLatency ==> forall j | x <= j < n && j >= a.warmup :: turns[j].sinceReport <= a.interval
  {
    if n == 0 then 0
    else if a.reporting && a.logLatency && n > a.warmup && turns[n - 1].sinceReport > a.interval then n
    else Cleared(a, turns, n - 1)
  }

  lemma AppendEnd(ws: seq<Window>, w: Window)
    ensures Ends(ws + [w]) == Ends(ws) + [Replies(ws) + w.replies]
  {
    assert (ws + [w])[..|ws|] == ws;
  }

  lemma {:induction false} TimesMinus(n: nat, k: nat, m: nat)
    requires n <= k
    ensures Times(k, m) - Times(n, m) == Times(k - n, m)
    decreases k - n
  {
    if n == k {
    } else {
      TimesMinus(n, k - 1, m);
    }
  }

  /** n * m, by repeated addition as the loop computes it. */
  function Times(n: nat, m: nat): nat {
    if n == 0 then 0 else Times(n - 1, m) + m
  }

  lemma {:induction false} TimesIsProduct(n: nat, m: nat)
    ensures Times(n, m) == n * m
  {
    if n == 0 {
    } else {
      TimesIsProduct(n - 1, m);
    }
  }

  lemma LessBytes(n: nat, k: nat, m: nat)
    requires n <= k
    ensures n * m <= k * m && k * m - n * m == (k - n) * m
  {}

  /** The loop's first phase: fill the window. */
  method Fill(a: Args) returns (scnt: nat, inFlight: set<nat>)
    ensures scnt == Sent(a, 0) == |inFlight| && Accounted(scnt, inFlight, [])
  {
    inFlight, scnt := {}, 0;
    while scnt < a.concurrency && scnt < Total(a)
      invariant scnt <= a.concurrency && scnt <= Total(a)
      invariant |inFlight| == scnt && Accounted(scnt, inFlight, [])
    {
      SendNext(scnt, inFlight, []);
      inFlight, scnt := inFlight + {scnt}, scnt + 1;
    }
  }

  /** Takes one reply, any of those in flight, and issues the next call if there is one. */
  method TakeReply(a: Args, scnt: nat, inFlight: set<nat>, order: seq<nat>)
    returns (scnt': nat, inFlight': set<nat>, order': seq<nat>)
    requires inFlight != {} && |order| < Total(a) && scnt == Sent(a, |order|) && Accounted(scnt, inFlight, order)
    requires |inFlight| == Min(a.concurrency, Total(a) - |order|)
    ensures |order'| == |order| + 1 && scnt' == Sent(a, |order'|) && Accounted(scnt', inFlight', order')
    ensures |inFlight'| == Min(a.concurrency, Total(a) - |order'|)
  {
    var c :| c in inFlight;
    ReplyTo(scnt, inFlight, order, c);
    scnt', inFlight', order' := scnt, inFlight - {c}, order + [c];
    if scnt < Total(a) {
      SendNext(scnt, inFlight', order');
      inFlight', scnt' := inFlight' + {scnt}, scnt + 1;
    }
  }

  /** What has been reported after n turns. */
  ghost predicate ReportsSoFar(a: Args, turns: seq<Turn>, n: nat, ws: seq<Window>, lastRcnt: nat, lastBytes: nat) {
    && n <= |turns| && lastRcnt <= n && lastBytes == Times(lastRcnt, a.reqSize)
    && Replies(ws) == lastRcnt && Bytes(ws) == lastBytes && Ends(ws) == Due(a, turns, n)
    && (forall w | w in ws :: w.replies >= 0 && w.bytes == Times(w.replies, a.reqSize))
  }

  /** How many recordings the histogram holds after n turns. */
  function Holds(a: Args, turns: seq<Turn>, n: nat): int
    requires n <= |turns|
  {
    if Cleared(a, turns, n) > 0 then n - Cleared(a, turns, n) else After(n, a.warmup)
  }

  /** The report at the end of a turn, if one is due. */
  method Report(a: Args, turns: seq<Turn>, k: nat, nbytes: nat, held: nat, lastRcnt: nat, lastBytes: nat,
                windows: seq<Window>) returns (held': nat, lastRcnt': nat, lastBytes': nat, windows': seq<Window>)
    requires k < |turns| && nbytes == Times(k + 1, a.reqSize) && ReportsSoFar(a, turns, k, windows, lastRcnt, lastBytes)
    requires held == Holds(a, turns, k) + (if k >= a.warmup then 1 else 0)
    ensures ReportsSoFar(a, turns, k + 1, windows', lastRcnt', lastBytes') && held' == Holds(a, turns, k + 1)
  {
    held', lastRcnt', lastBytes', windows' := held, lastRcnt, lastBytes, windows;
    if a.reporting && turns[k].sinceReport > a.interval {
      var w := Window(k + 1 - lastRcnt, nbytes - lastBytes);
      AppendWindow(windows, w);
      AppendEnd(windows, w);
      TimesMinus(lastRcnt, k + 1, a.reqSize);
      windows' := windows + [w];
      if k + 1 > a.warmup && a.logLatency { held' := 0; }
      lastRcnt', lastBytes' := k + 1, nbytes;
    }
  }

  /** The reply in hand when the loop ends is dropped. */
  method DropReply(sent: nat, inFlight: set<nat>, order: seq<nat>) returns (rest: set<nat>)
    requires Accounted(sent, inFlight, order)
    ensures inFlight == {} ==> rest == {}
    ensures inFlight != {} ==> exists c :: c !in rest && rest + {c} == inFlight
  {
    rest := inFlight;
    if inFlight != {} {
      var c :| c in inFlight;
      rest := inFlight - {c};
      assert rest + {c} == inFlight;
    }
  }

  /** run_bench: the reply taken in a turn is any of those in flight; the one taken in the turn that
      finds the time has run out is dropped unseen. How the run ends and how many replies it takes is decided by the
      clock and the arguments alone. */
  method RunBench(a: Args, timeout: int, turns: seq<Turn>) returns (r: Result)
    ensures r.replied == Replied(a, timeout, turns) && r.outcome == Ending(a, timeout, turns)
    ensures |r.order| == r.replied <= Total(a) && r.sent == Sent(a, r.replied)
    ensures forall k | 0 <= k < r.replied :: turns[k].elapsed <= timeout
    ensures r.bytes == Times(r.replied, a.reqSize)
    ensures r.recordings == if r.replied < a.warmup then 0 else r.replied - a.warmup
    ensures r.replied <= |turns| && Ends(r.windows) == Due(a, turns, r.replied)
    ensures 0 <= Replies(r.windows) <= r.replied && Bytes(r.windows) == Times(Replies(r.windows), a.reqSize)
    ensures forall w | w in r.windows :: w.replies >= 0 && w.bytes == Times(w.replies, a.reqSize)
    ensures var x := Cleared(a, turns, r.replied);
      r.held == if x > 0 then r.replied - x else r.recordings
    ensures r.outcome == TimedOut ==> r.replied < |turns| && turns[r.replied].elapsed > timeout
    ensures r.outcome == Waiting ==> r.replied == |turns|
    ensures r.outcome == Panicked ==> a.concurrency == 0 && 0 < Total(a)
    ensures r.outcome == Finished ==> r.replied == Total(a) && r.inFlight == {}
    ensures r.outcome != TimedOut ==> Accounted(r.sent, r.inFlight, r.order)
    ensures r.outcome == TimedOut && a.concurrency > 0 ==>
              exists c :: c !in r.inFlight && Accounted(r.sent, r.inFlight + {c}, r.order)
    ensures r.outcome != TimedOut ==> |r.inFlight| == Min(a.concurrency, Total(a) - r.replied)
  {
    var scnt, inFlight := Fill(a);
    var rcnt, nbytes, recordings, held, lastRcnt, lastBytes: nat := 0, 0, 0, 0, 0, 0;
    var order, windows := [], [];
    for k := 0 to |turns|
      invariant rcnt == k == |order| <= Total(a)
      invariant scnt == Sent(a, rcnt) && |inFlight| == Min(a.concurrency, Total(a) - rcnt)
      invariant Accounted(scnt, inFlight, order)
      invariant nbytes == Times(rcnt, a.reqSize) && recordings == After(rcnt, a.warmup)
      invariant held == Holds(a, turns, k)
      invariant ReportsSoFar(a, turns, k, windows, lastRcnt, lastBytes)
      invariant At(a, timeout, turns, k)
    {
      EndsHere(a, timeout, turns, k);
      if rcnt >= Total(a) || turns[k].elapsed > timeout {
        var rest := DropReply(scnt, inFlight, order);
        var outcome := if rcnt >= Total(a) then Finished else TimedOut;
        return Result(outcome, scnt, rcnt, nbytes, recordings, held, rest, order, windows);
      }
      if inFlight == {} {
        return Result(Panicked, scnt, rcnt, nbytes, recordings, held, inFlight, order, windows);
      }
      scnt, inFlight, order := TakeReply(a, scnt, inFlight, order);
      if rcnt >= a.warmup { recordings, held := recordings + 1, held + 1; }
      nbytes, rcnt := nbytes + a.reqSize, rcnt + 1;
      held, lastRcnt, lastBytes, windows := Report(a, turns, k, nbytes, held, lastRcnt, lastBytes, windows);
    }
    EndsHere(a, timeout, turns, |turns|);
    r := Result(Waiting, scnt, rcnt, nbytes, recordings, held, inFlight, order, windows);
  }

  /** The final line of run_client_thread subtracts the warmup from both totals, in usize arithmetic:
      the subtractions go wrong exactly for a run that did not finish its warmup, and otherwise give
      the bytes and the count of the measured calls. */
  method FinalReport(a: Args, r: Result) returns (underflow: bool, bytes: int, count: int)
    requires r.bytes == Times(r.replied, a.reqSize)
    ensures underflow <==> r.replied < a.warmup
    ensures !underflow ==> 0 <= count == r.replied - a.warmup && 0 <= bytes == count * a.reqSize
    ensures r.outcome == Finished && r.replied == Total(a) ==> !underflow && count == a.iters
  {
    TimesIsProduct(r.replied, a.reqSize);
    bytes, count := r.bytes - a.warmup * a.reqSize, r.replied - a.warmup;
    underflow := bytes < 0 || count < 0;
    if a.warmup <= r.replied {
      LessBytes(a.warmup, r.replied, a.reqSize);
    } else {
      LessBytes(r.replied, a.warmup, a.reqSize);
    }
  }
}
