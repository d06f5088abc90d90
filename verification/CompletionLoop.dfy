/** The asynchronous clients' completion loop: every completion is answered with a new call until a
    sampled clock has passed the deadline, and then the window drains. */
module CompletionLoop {
  import opened Ledger

  /** One success of Next: the call's status, the clock if it is read in this turn, and the time a
      new call would be issued. */
  datatype Completion = Completion(ok: bool, read: int, issue: int)

  /** late counts the calls issued after the deadline. */
  datatype Result = Result(
    issued: nat, count: nat, overlimit: nat, live: set<nat>, deleted: seq<nat>, timeout: bool, late: nat)

  const TIME_PERIOD := 1000

  predicate Monotone(cs: seq<Completion>) {
    && (forall k | 0 <= k < |cs| :: cs[k].read <= cs[k].issue)
    && (forall j, k | 0 <= j < k < |cs| :: cs[j].issue <= cs[k].read)
  }

  /** The turn at whose end the flag is set and stays set: the clock is read in turns that are
      multiples of the period. */
  predicate SetsFlag(cs: seq<Completion>, deadline: int, turn: nat) {
    0 < turn <= |cs| && turn % TIME_PERIOD == 0 && cs[turn - 1].read > deadline
  }

  /** The flag after k turns: what the clock said at the last turn that looked at it. */
  function FlagAfter(cs: seq<Completion>, deadline: int, k: nat): bool
    requires k <= |cs|
  {
    if k == 0 then false
    else if k % TIME_PERIOD == 0 then cs[k - 1].read > deadline
    else FlagAfter(cs, deadline, k - 1)
  }

  /** That is the last multiple of a thousand, and before the first one the flag is not set. */
  lemma {:induction false} FlagIff(cs: seq<Completion>, deadline: int, k: nat)
    requires k <= |cs|
    ensures FlagAfter(cs, deadline, k) <==> k >= 1000 && cs[k / 1000 * 1000 - 1].read > deadline
    decreases k
  {
    if k == 0 {
    } else if k % 1000 != 0 {
      FlagIff(cs, deadline, k - 1);
      assert k / 1000 == (k - 1) / 1000;
    }
  }

  /** The turns up to n that completed well, those that did not, those that issue a call, and those that do so late. */
  function Succeeded(cs: seq<Completion>, n: nat): set<nat> {
    set k: nat | k < n && k < |cs| && cs[k].ok
  }

  function Failures(cs: seq<Completion>, n: nat): set<nat> {
    set k: nat | k < n && k < |cs| && !cs[k].ok
  }

  predicate Issues(cs: seq<Completion>, deadline: int, k: nat) {
    k < |cs| && !FlagAfter(cs, deadline, k + 1)
  }

  predicate IssuesLate(cs: seq<Completion>, deadline: int, k: nat) {
    Issues(cs, deadline, k) && cs[k].issue > deadline
  }

  function Issuing(cs: seq<Completion>, deadline: int, n: nat): set<nat> {
    set k: nat | k < n && Issues(cs, deadline, k)
  }

  function Late(cs: seq<Completion>, deadline: int, n: nat): set<nat> {
    set k: nat | k < n && IssuesLate(cs, deadline, k)
  }

  lemma SetGrows(a: set<nat>, b: set<nat>, k: nat, grows: bool)
    requires k !in a && b == if grows then a + {k} else a
    ensures |b| == |a| + if grows then 1 else 0
  {}

  lemma SucceededNext(cs: seq<Completion>, k: nat)
    requires k < |cs|
    ensures |Succeeded(cs, k + 1)| == |Succeeded(cs, k)| + if cs[k].ok then 1 else 0
  {
    SetGrows(Succeeded(cs, k), Succeeded(cs, k + 1), k, cs[k].ok);
  }

  lemma FailuresNext(cs: seq<Completion>, k: nat)
    requires k < |cs|
    ensures |Failures(cs, k + 1)| == |Failures(cs, k)| + if cs[k].ok then 0 else 1
  {
    SetGrows(Failures(cs, k), Failures(cs, k + 1), k, !cs[k].ok);
  }

  lemma IssuingNext(cs: seq<Completion>, deadline: int, k: nat)
    ensures |Issuing(cs, deadline, k + 1)| == |Issuing(cs, deadline, k)| + if Issues(cs, deadline, k) then 1 else 0
  {
    SetGrows(Issuing(cs, deadline, k), Issuing(cs, deadline, k + 1), k, Issues(cs, deadline, k));
  }

  lemma LateNext(cs: seq<Completion>, deadline: int, k: nat)
    ensures |Late(cs, deadline, k + 1)| == |Late(cs, deadline, k)| + if IssuesLate(cs, deadline, k) then 1 else 0
  {
    SetGrows(Late(cs, deadline, k), Late(cs, deadline, k + 1), k, IssuesLate(cs, deadline, k));
  }

  /** The counters after k turns. */
  ghost predicate Counted(cs: seq<Completion>, deadline: int, k: nat,
                          count: nat, overlimit: nat, reissued: int, late: nat) {
    && count == |Succeeded(cs, k)| && overlimit == |Failures(cs, k)|
    && reissued == |Issuing(cs, deadline, k)| && late == |Late(cs, deadline, k)|
  }

  lemma CountsNext(cs: seq<Completion>, deadline: int, k: nat, count: nat, overlimit: nat, reissued: int, late: nat)
    requires k < |cs| && Counted(cs, deadline, k, count, overlimit, reissued, late)
    ensures Counted(cs, deadline, k + 1,
              count + (if cs[k].ok then 1 else 0), overlimit + (if cs[k].ok then 0 else 1),
              reissued + (if Issues(cs, deadline, k) then 1 else 0),
              late + (if IssuesLate(cs, deadline, k) then 1 else 0))
  {
    SucceededNext(cs, k);
    FailuresNext(cs, k);
    IssuingNext(cs, deadline, k);
    LateNext(cs, deadline, k);
  }

  lemma NoTurns(cs: seq<Completion>, deadline: int)
    ensures Counted(cs, deadline, 0, 0, 0, 0, 0)
  {
    assert Succeeded(cs, 0) == {} && Failures(cs, 0) == {} && Issuing(cs, deadline, 0) == {};
    assert Late(cs, deadline, 0) == {};
  }

  lemma NextTurn(k: nat, m: nat)
    requires m == k % TIME_PERIOD
    ensures (k + 1) % TIME_PERIOD == if m + 1 >= TIME_PERIOD then 0 else m + 1
  {}

  /** No turn up to k sets the flag. */
  ghost predicate Unset(cs: seq<Completion>, deadline: int, k: int) {
    forall t: nat | t <= k :: !SetsFlag(cs, deadline, t)
  }

  lemma UnsetNext(cs: seq<Completion>, deadline: int, k: nat)
    requires Unset(cs, deadline, k) && !SetsFlag(cs, deadline, k + 1)
    ensures Unset(cs, deadline, k + 1)
  {}

  /** The sampled clock at the end of turn k: between samples the flag stays as it is, and with a clock that does not
      go back a flag that was set by some turn stays set. */
  method Sample(cs: seq<Completion>, deadline: int, k: nat, timeCnt: nat, timeout: bool, ghost first: nat)
    returns (cnt: nat, flag: bool)
    requires k < |cs| && timeCnt == k % TIME_PERIOD
    ensures cnt == (k + 1) % TIME_PERIOD && cnt == if timeCnt + 1 >= TIME_PERIOD then 0 else timeCnt + 1
    ensures flag == if cnt == 0 then cs[k].read > deadline else timeout
    ensures SetsFlag(cs, deadline, k + 1) <==> cnt == 0 && flag
    ensures Monotone(cs) && timeout && SetsFlag(cs, deadline, first) && first <= k ==> flag
  {
    NextTurn(k, timeCnt);
    cnt, flag := timeCnt + 1, timeout;
    if cnt >= TIME_PERIOD {
      cnt := 0;
      flag := cs[k].read > deadline;
    }
  }

  /** The window of live calls after k turns: whole until a turn sets the flag, and for a clock that does not go back
      one call smaller with every turn from then on. ever and first say whether and which turn was the first to set
      it. */
  ghost predicate Window(cs: seq<Completion>, deadline: int, concurrency: nat, k: nat, timeout: bool, reqCnt: nat,
                         late: nat, ever: bool, first: nat) {
    && k <= |cs| && reqCnt <= concurrency
    && (!ever ==> !timeout && reqCnt == concurrency && Unset(cs, deadline, k))
    && (ever ==> SetsFlag(cs, deadline, first) && first <= k && reqCnt < concurrency && Unset(cs, deadline, first - 1))
    && (Monotone(cs) && ever ==> timeout && reqCnt + k + 1 == concurrency + first)
    && (Monotone(cs) && late > 0 ==> k > 0 && cs[k - 1].issue > deadline)
    && (Monotone(cs) ==> late <= if timeout then TIME_PERIOD else k % TIME_PERIOD + 1)
  }

  lemma WindowNext(cs: seq<Completion>, deadline: int, concurrency: nat, k: nat, timeout: bool, reqCnt: nat,
                   late: nat, ever: bool, first: nat, flag: bool)
    requires k < |cs| && reqCnt > 0 && Window(cs, deadline, concurrency, k, timeout, reqCnt, late, ever, first)
    requires flag == if (k + 1) % TIME_PERIOD == 0 then cs[k].read > deadline else timeout
    ensures Window(cs, deadline, concurrency, k + 1, flag, if flag then reqCnt - 1 else reqCnt,
              if !flag && cs[k].issue > deadline then late + 1 else late, ever || flag, if ever then first else k + 1)
  {
    NextTurn(k, k % TIME_PERIOD);
    if !ever && !flag { UnsetNext(cs, deadline, k); }
  }

  /** One completion is taken: the call is deleted, and unless the flag is set a new one is issued. */
  method Turn(flag: bool, issued: nat, live: set<nat>, deleted: seq<nat>)
    returns (issued': nat, live': set<nat>, deleted': seq<nat>)
    requires live != {} && Accounted(issued, live, deleted)
    ensures Accounted(issued', live', deleted') && |deleted'| == |deleted| + 1
    ensures issued' == issued + (if flag then 0 else 1) && |live'| == |live| - (if flag then 1 else 0)
  {
    var call :| call in live;
    ReplyTo(issued, live, deleted, call);
    issued', live', deleted' := issued, live - {call}, deleted + [call];
    if !flag {
      SendNext(issued, live', deleted');
      live', issued' := live' + {issued}, issued + 1;
    }
  }

  /** Job, or the hotel client's Run, on the completions Next delivers; the call that completes in a
      turn is any live one. turn is any turn that sets the flag. Only the last clauses need a clock that does not go
      back: the flag never reverts, at most a period of calls is issued late, and the window drains. */
  method Job(concurrency: nat, deadline: int, cs: seq<Completion>, ghost turn: nat) returns (r: Result)
    ensures r.issued == r.count + r.overlimit + |r.live|
    ensures r.count + r.overlimit == |r.deleted| <= |cs|
    ensures r.count == |Succeeded(cs, |r.deleted|)| && r.overlimit == |Failures(cs, |r.deleted|)|
    ensures r.timeout == FlagAfter(cs, deadline, |r.deleted|)
    ensures r.issued == concurrency + |Issuing(cs, deadline, |r.deleted|)|
    ensures r.late == |Late(cs, deadline, |r.deleted|)|
    ensures Accounted(r.issued, r.live, r.deleted)
    ensures r.live != {} ==> |r.deleted| == |cs|
    ensures |r.live| <= concurrency
    ensures |r.live| == concurrency <==> Unset(cs, deadline, |r.deleted|)
    ensures r.timeout ==> !Unset(cs, deadline, |r.deleted|)
    ensures Monotone(cs) ==> (r.timeout <==> !Unset(cs, deadline, |r.deleted|))
    ensures Monotone(cs) ==> r.late <= TIME_PERIOD
    ensures Monotone(cs) && SetsFlag(cs, deadline, turn) && turn + concurrency <= |cs| + 1 ==> r.live == {}
  {
    var live: set<nat>, issued: nat := {}, 0;
    while issued < concurrency
      invariant issued <= concurrency && |live| == issued && Accounted(issued, live, [])
    {
      SendNext(issued, live, []);
      live, issued := live + {issued}, issued + 1;
    }
    var reqCnt, count, overlimit, late: nat := concurrency, 0, 0, 0;
    var deleted: seq<nat>, timeout, timeCnt := [], false, 0;
    ghost var ever, first: nat := false, 0;
    var k := 0;
    NoTurns(cs, deadline);
    while reqCnt > 0 && k < |cs|
      invariant k == |deleted| <= |cs| && reqCnt == |live|
      invariant issued == count + overlimit + |live| && count + overlimit == k
      invariant Accounted(issued, live, deleted)
      invariant timeCnt == k % TIME_PERIOD && timeout == FlagAfter(cs, deadline, k)
      invariant Counted(cs, deadline, k, count, overlimit, issued - concurrency, late)
      invariant Window(cs, deadline, concurrency, k, timeout, reqCnt, late, ever, first)
    {
      var ev := cs[k];
      CountsNext(cs, deadline, k, count, overlimit, issued - concurrency, late);
      if ev.ok { count := count + 1; } else { overlimit := overlimit + 1; }
      reqCnt := reqCnt - 1;
      var flag;
      timeCnt, flag := Sample(cs, deadline, k, timeCnt, timeout, first);
      WindowNext(cs, deadline, concurrency, k, timeout, reqCnt + 1, late, ever, first, flag);
      ever, first, timeout := ever || flag, if ever then first else k + 1, flag;
      issued, live, deleted := Turn(timeout, issued, live, deleted);
      k := k + 1;
      if !timeout {
        reqCnt := reqCnt + 1;
        if ev.issue > deadline { late := late + 1; }
      }
    }
    r := Result(issued, count, overlimit, live, deleted, timeout, late);
  }
}
