/** What happens when frames pile up behind requests that PushData does not wait for: exactly when a wake-up is lost,
    and exactly when a frame is swallowed by the one before it. */
module EchoPileUp {
  import opened Wire
  import opened EndpointSpec
  import opened EchoSystem
  import opened EchoCorrect
  import opened EchoRuns
  import opened EchoProgress
  import opened EchoNaps

  // ---- runs ----

  lemma Step(c: Config, s: Sys, a: Action) returns (run: seq<Action>, t: Sys)
    requires LocalInv(s.ep) && EagerEnabled(c, s, a)
    ensures t == Apply(c, s, a) && EagerExec(c, s, run) == Some(t)
  {
    run, t := [a], Apply(c, s, a);
    assert EagerExec(c, t, []) == Some(t);
  }

  lemma {:induction false} Then(c: Config, s: Sys, p: seq<Action>, t: Sys, q: seq<Action>)
    requires EagerExec(c, s, p) == Some(t)
    ensures EagerExec(c, s, p + q) == EagerExec(c, t, q)
    decreases |p|
  {
    if p == [] {
      assert p + q == q;
    } else {
      assert (p + q)[0] == p[0] && (p + q)[1..] == p[1..] + q;
      Then(c, Apply(c, s, p[0]), p[1..], t, q);
    }
  }

  // ---- serving the requests before the first drop ----

  function Prefix(c: Config, n: nat): Config
    requires n <= |c.reqs|
  {
    c.(reqs := c.reqs[..n])
  }

  lemma SameRequest(c: Config, n: nat, i: nat)
    requires n <= |c.reqs|
    ensures i < |Prefix(c, n).reqs| <==> i < n
    ensures i < n ==> Prefix(c, n).reqs[i] == c.reqs[i]
  {}

  lemma ClientTransfers(c: Config, n: nat, s: Sys, a: Action)
    requires n <= |c.reqs| && LocalInv(s.ep) && EagerEnabled(Prefix(c, n), s, a)
    requires a.ClientSend? || a.ClientRecv? || a.ClientReturn?
    ensures EagerEnabled(c, s, a) && Apply(c, s, a) == Apply(Prefix(c, n), s, a)
  {
    SameRequest(c, n, s.i);
  }

  lemma ServerTransfers(c: Config, n: nat, s: Sys, a: Action)
    requires n <= |c.reqs| && LocalInv(s.ep) && EagerEnabled(Prefix(c, n), s, a)
    requires !a.ClientSend? && !a.ClientRecv? && !a.ClientReturn?
    ensures EagerEnabled(c, s, a) && Apply(c, s, a) == Apply(Prefix(c, n), s, a)
  {}

  lemma ActionTransfers(c: Config, n: nat, s: Sys, a: Action)
    requires n <= |c.reqs| && LocalInv(s.ep) && EagerEnabled(Prefix(c, n), s, a)
    ensures EagerEnabled(c, s, a) && Apply(c, s, a) == Apply(Prefix(c, n), s, a)
  {
    if a.ClientSend? || a.ClientRecv? || a.ClientReturn? {
      ClientTransfers(c, n, s, a);
    } else {
      ServerTransfers(c, n, s, a);
    }
  }

  /** A run for the first requests is a run for all of them. */
  lemma {:induction false} RunTransfers(c: Config, n: nat, s: Sys, run: seq<Action>)
    requires n <= |c.reqs| && EagerExec(Prefix(c, n), s, run).Some?
    ensures EagerExec(c, s, run) == EagerExec(Prefix(c, n), s, run)
    decreases |run|
  {
    if run == [] {
    } else {
      ActionTransfers(c, n, s, run[0]);
      RunTransfers(c, n, Apply(c, s, run[0]), run[1..]);
    }
  }

  lemma PrefixSetting(c: Config, n: nat)
    requires Roomy(c) && AllFit(c) && n <= Limit(c.reqs)
    ensures Setting(Prefix(c, n)) && NonDecreasing(Prefix(c, n).reqs)
  {
    var rs := Prefix(c, n).reqs;
    forall k: nat | k < |rs| ensures Grows(rs, k) { assert Grows(c.reqs, k); }
  }

  lemma {:induction false} OwnersOfPrefix(c: Config, n: nat, m: nat)
    requires m <= n <= |c.reqs|
    ensures HeaderOwner(Prefix(c, n).reqs, m) == HeaderOwner(c.reqs, m)
    ensures DataOwner(Prefix(c, n).reqs, m) == DataOwner(c.reqs, m)
    decreases m
  {
    if m == 0 {
    } else {
      OwnersOfPrefix(c, n, m - 1);
    }
  }

  /** The endpoint between requests. */
  function Rest(c: Config, n: nat): Ep
    requires n <= |c.reqs|
  {
    Ep(NewRpc, Idle, [], [], [], HeaderOwner(c.reqs, n), DataOwner(c.reqs, n), [], n == 0, c.reqs[..n])
  }

  /** The first n requests are over and nothing is left of them. */
  predicate Between(c: Config, n: nat, s: Sys)
    requires n <= |c.reqs|
  {
    && s.i == n && s.off == 0 && s.got == [] && s.acks == Headers(c.reqs)[..n]
    && s.c2s == [] && s.s2c == [] && s.ep == Rest(c, n) && Quiet(s)
  }

  lemma SettledEp(c: Config, s: Sys)
    requires NonDecreasing(c.reqs) && Inv(c, s) && Wake(c, s) && Complete(c, s) && Quiet(s)
    ensures Between(c, |c.reqs|, s)
  {
    QuietMissesNothing(c, s);
    QuietPositions(c, s);
    assert Received(s.ep) == [] && s.ep.meta == [];
    assert c.reqs[..|c.reqs|] == c.reqs;
  }

  lemma BetweenTransfers(c: Config, n: nat, s: Sys)
    requires n <= |c.reqs| && Between(Prefix(c, n), n, s)
    ensures Between(c, n, s)
  {
    OwnersOfPrefix(c, n, n);
    assert Prefix(c, n).reqs[..n] == c.reqs[..n];
    assert Headers(Prefix(c, n).reqs)[..n] == Headers(c.reqs)[..n];
  }

  lemma CompletesFromStart(c: Config) returns (run: seq<Action>, t: Sys)
    requires Setting(c) && NonDecreasing(c.reqs)
    ensures EagerRun(c, run, t) && Between(c, |c.reqs|, t)
  {
    InitHolds(c);
    run, t := Completes(c, START);
    SettledEp(c, t);
  }

  lemma BetweenIsSafe(c: Config, n: nat, run: seq<Action>, s: Sys)
    requires AllFit(c) && n <= Limit(c.reqs) && EagerRun(c, run, s) && Between(c, n, s)
    ensures Inv(c, s) && Wake(c, s)
  {
    EagerIsExec(c, START, run);
    RunKeepsOrSwallows(c, run, s);
    assert !Swallowed(c, s.ep);
  }

  /** Every request before the first drop can be served, by a client that does not run ahead. */
  lemma Serves(c: Config, n: nat) returns (run: seq<Action>, t: Sys)
    requires Roomy(c) && AllFit(c) && n <= Limit(c.reqs)
    ensures EagerRun(c, run, t) && Between(c, n, t)
    ensures Inv(c, t) && Wake(c, t)
  {
    PrefixSetting(c, n);
    run, t := CompletesFromStart(Prefix(c, n));
    RunTransfers(c, n, START, run);
    BetweenTransfers(c, n, t);
    BetweenIsSafe(c, n, run, t);
  }

  // ---- the first request that is smaller than its predecessor ----

  /** Between events the endpoint has not got all it wants of the first drop. */
  lemma IncompleteAtDrop(c: Config, ep: Ep)
    requires ServerInv(c, ep) && |ep.served| == Limit(c.reqs) < |c.reqs| && ep.pc.Idle?
    ensures UpPos(c, |ep.served|) + |Received(ep)| < Wanted(c, |ep.served|)
  {}

  /** So if the client could not go on, it would have to have sent all it can, and that is enough. */
  lemma DropClientMoves(c: Config, s: Sys)
    requires Inv(c, s) && !Starved(c) && s.ep.pc.Idle? && s.c2s == [] && |s.ep.served| == Limit(c.reqs)
    ensures s.i < |c.reqs|
    ensures s.off < FrameSize(c.reqs[s.i]) || |s.got| == |c.reqs[s.i].header| || s.s2c != []
  {
    IncompleteAtDrop(c, s.ep);
    QuietPositions(c, s);
    assert UpPos(c, s.i) + s.off < UpLimit(c);
    if s.i < Limit(c.reqs) && |s.got| < |c.reqs[s.i].header| { AckIsInFlight(c, s); }
  }

  lemma DropProgress(c: Config, s: Sys) returns (a: Action)
    requires Roomy(c) && !Starved(c) && Inv(c, s) && Wake(c, s) && |s.ep.served| == Limit(c.reqs)
    ensures EagerEnabled(c, s, a) && Apply(c, s, a) != s
  {
    if Quiet(s) {
      QuietMissesNothing(c, s);
      DropClientMoves(c, s);
      a := ClientMoves(c, s);
    } else if !s.ep.pc.Idle? {
      a := BusyServerCanAct(c, s);
      BusyStepMoves(c, s, a);
    } else {
      a := if s.todoRecv then CallRecv else if s.todoSend then CallSend
           else Fetch(s.c2s != [], s.ep.writable && |s.s2c| < c.outCap);
    }
  }

  /** Until it answers, the endpoint stays at the first drop. */
  lemma StaysAtDrop(c: Config, s: Sys, a: Action)
    requires Inv(c, s) && Enabled(c, s, a) && !s.ep.state.Replying?
    ensures Apply(c, s, a).ep.served == s.ep.served
  {
    Stages(s.ep);
    match a
    case ServerRecv(_) => AfterReceive(s.ep, IoOf(s, a));
    case ServerBlock => AfterReceive(s.ep, Blocked);
    case _ =>
  }

  /** Every step that is not yet the answer moves something, so the answer comes. */
  lemma {:induction false} DropIsAnsweredFrom(c: Config, s: Sys) returns (run: seq<Action>, t: Sys)
    requires AllFit(c) && Roomy(c) && !Starved(c) && Inv(c, s) && Wake(c, s) && |s.ep.served| == Limit(c.reqs)
    ensures EagerExec(c, s, run) == Some(t)
    ensures Swallowed(c, t.ep) && |t.ep.served| == Limit(c.reqs) && t.ep.state.Replying?
    decreases (InvIsShape(c, s); Measure(c, s))
  {
    var a := DropProgress(c, s);
    InvIsShape(c, s);
    var u := Apply(c, s, a);
    StepKeepsOrSwallows(c, s, a);
    StaysAtDrop(c, s, a);
    if Inv(c, u) {
      MeasureFalls(c, s, a);
      MeasureIsNat(c, u);
      WakeKeeps(c, s, a);
      var rest;
      rest, t := DropIsAnsweredFrom(c, u);
      run := [a] + rest;
      assert run[1..] == rest;
    } else {
      run, t := Step(c, s, a);
    }
  }

  /** With enough bytes behind it the first drop is answered, with bytes of the frames that follow. */
  lemma DropIsAnswered(c: Config) returns (run: seq<Action>, t: Sys)
    requires AllFit(c) && Roomy(c) && !Starved(c)
    ensures EagerRun(c, run, t)
    ensures Swallowed(c, t.ep) && |t.ep.served| == Limit(c.reqs) && t.ep.state.Replying?
  {
    var s, q;
    run, s := Serves(c, Limit(c.reqs));
    q, t := DropIsAnsweredFrom(c, s);
    Then(c, START, run, s, q);
    run := run + q;
  }

  /** Exactly when the endpoint answers the first drop: when the client can send, without an answer, as many bytes as
      the owners' lengths ask for. */
  lemma RepliesInsideDropIff(c: Config)
    requires AllFit(c) && Roomy(c) && Limit(c.reqs) < |c.reqs|
    ensures (exists run, s :: Reaches(c, run, s) && |s.ep.served| == Limit(c.reqs) && s.ep.state.Replying?) <==>
            Wanted(c, Limit(c.reqs)) <= UpLimit(c)
  {
    if Starved(c) {
      forall run, s | Reaches(c, run, s) && |s.ep.served| == Limit(c.reqs) ensures !s.ep.state.Replying? {
        RunKeeps(c, run, s);
      }
    } else {
      var run, s := DropIsAnswered(c);
      EagerIsExec(c, START, run);
      assert Reaches(c, run, s);
    }
  }

  /** The exact domain of the echo: every state of every run echoes if and only if no request smaller than its
      predecessor can be completed with bytes of the frames behind it. */
  lemma EchoesIff(c: Config)
    requires AllFit(c) && Roomy(c)
    ensures (forall run, s | Reaches(c, run, s) :: Echoes(c, s)) <==> Starved(c)
  {
    if Starved(c) {
      forall run, s | Reaches(c, run, s) ensures Echoes(c, s) { EchoIsCorrect(c, run, s); }
    } else {
      var run, s := DropIsAnswered(c);
      EagerIsExec(c, START, run);
      assert Reaches(c, run, s);
      var d := Limit(c.reqs);
      assert (s.ep.served + [Request(s.ep.header, s.ep.data)])[d] != c.reqs[d];
      assert !Echoes(c, s);
    }
  }

  // ---- a client that does not wait ----

  /** The client has sent the frame it is at; behind an empty header it is already between two requests. */
  function Pushed(c: Config, s: Sys): Sys
    requires s.i < |c.reqs|
  {
    var r := c.reqs[s.i];
    var t := s.(c2s := s.c2s + Frame(r), armed := true);
    if r.header == [] then t.(i := s.i + 1, acks := s.acks + [[]]) else t.(off := FrameSize(r))
  }

  lemma Pushes(c: Config, s: Sys) returns (run: seq<Action>, t: Sys)
    requires LocalInv(s.ep) && s.i < |c.reqs| && s.off == 0 && s.got == []
    requires |s.c2s| + FrameSize(c.reqs[s.i]) <= c.inCap
    ensures EagerExec(c, s, run) == Some(t) && t == Pushed(c, s)
  {
    var f := Frame(c.reqs[s.i]);
    assert f[0..|f|] == f;
    run, t := Step(c, s, ClientSend(|f|));
    if c.reqs[s.i].header == [] {
      var u, q := t, [];
      q, t := Step(c, u, ClientReturn);
      Then(c, s, run, u, q);
      run := run + q;
    }
  }

  // ---- the endpoint reads one request, by its owners' lengths ----

  /** The endpoint has read sizes m, header h and data d. */
  function Reading(ep: Ep, m: seq<Byte>, h: seq<Byte>, d: seq<Byte>): Ep {
    Ep(Replying, InSend, m, h, d, Some(|h|), Some(|d|), [Tx(h, 0)], ep.writable, ep.served)
  }

  predicate Fresh(ep: Ep) {
    ep == Ep(NewRpc, Idle, [], [], [], ep.headerOwner, ep.dataOwner, [], ep.writable, ep.served)
  }

  lemma FreshIsSound(ep: Ep)
    requires Fresh(ep)
    ensures LocalInv(ep)
  {}

  lemma ReadingIsSound(ep: Ep, m: seq<Byte>, h: seq<Byte>, d: seq<Byte>)
    requires Lengths(ep, m, h, d)
    ensures LocalInv(Reading(ep, m, h, d))
  {}

  predicate Lengths(ep: Ep, m: seq<Byte>, h: seq<Byte>, d: seq<Byte>) {
    && |m| == META_SIZE && Grow(ep.headerOwner, HeaderSize(m)) == Some(|h|)
    && Grow(ep.dataOwner, DataSize(m)) == Some(|d|)
  }

  lemma WakesFor(c: Config, s: Sys) returns (run: seq<Action>, t: Sys)
    requires Fresh(s.ep) && s.armed && !s.todoRecv && !s.todoSend && s.c2s != []
    ensures EagerExec(c, s, run) == Some(t)
    ensures t == s.(armed := false, todoSend := s.ep.writable && |s.s2c| < c.outCap, ep := s.ep.(pc := InMeta))
  {
    var p, u := Step(c, s, Fetch(true, s.ep.writable && |s.s2c| < c.outCap));
    var q;
    q, t := Step(c, u, CallRecv);
    Then(c, s, p, u, q);
    run := p + q;
  }

  lemma ReadsSizes(c: Config, s: Sys, ep: Ep, m: seq<Byte>, h: seq<Byte>, d: seq<Byte>, rest: seq<Byte>)
    returns (run: seq<Action>, t: Sys)
    requires Fresh(ep) && s.ep == ep.(pc := InMeta) && s.c2s == m + rest && Lengths(ep, m, h, d)
    ensures EagerExec(c, s, run) == Some(t)
    ensures t == s.(c2s := rest, ep :=
                    Ep(MetaRecved, InHeader, m, [], [], Some(|h|), Some(|d|), [], ep.writable, ep.served))
  {
    assert s.c2s[..META_SIZE] == m && s.c2s[META_SIZE..] == rest && [] + m == m;
    run, t := Step(c, s, ServerRecv(META_SIZE));
  }

  lemma ReadsHeader(c: Config, s: Sys, ep: Ep, m: seq<Byte>, h: seq<Byte>, d: seq<Byte>, rest: seq<Byte>)
    returns (run: seq<Action>, t: Sys)
    requires s.ep == Ep(MetaRecved, InHeader, m, [], [], Some(|h|), Some(|d|), [], ep.writable, ep.served)
    requires LocalInv(s.ep) && s.c2s == h + rest
    ensures EagerExec(c, s, run) == Some(t)
    ensures t == s.(c2s := rest, ep :=
                    if |d| == 0 then Reading(ep, m, h, [])
                    else Ep(HeaderRecved, InData, m, h, [], Some(|h|), Some(|d|), [], ep.writable, ep.served))
  {
    assert s.c2s[..|h|] == h && s.c2s[|h|..] == rest && [] + h == h;
    run, t := Step(c, s, ServerRecv(|h|));
  }

  lemma ReadsData(c: Config, s: Sys, ep: Ep, m: seq<Byte>, h: seq<Byte>, d: seq<Byte>, rest: seq<Byte>)
    returns (run: seq<Action>, t: Sys)
    requires s.ep == Ep(HeaderRecved, InData, m, h, [], Some(|h|), Some(|d|), [], ep.writable, ep.served)
    requires LocalInv(s.ep) && s.c2s == d + rest
    ensures EagerExec(c, s, run) == Some(t)
    ensures t == s.(c2s := rest, ep := Reading(ep, m, h, d))
  {
    assert s.c2s[..|d|] == d && s.c2s[|d|..] == rest && [] + d == d;
    run, t := Step(c, s, ServerRecv(|d|));
  }

  /** An armed endpoint reads one request from the channel and leaves the rest. */
  lemma Reads(c: Config, s: Sys, m: seq<Byte>, h: seq<Byte>, d: seq<Byte>, rest: seq<Byte>)
    returns (run: seq<Action>, t: Sys)
    requires Fresh(s.ep) && s.armed && !s.todoRecv && !s.todoSend && Lengths(s.ep, m, h, d)
    requires s.c2s == m + (h + (d + rest))
    ensures EagerExec(c, s, run) == Some(t)
    ensures t == s.(armed := false, todoSend := s.ep.writable && |s.s2c| < c.outCap, c2s := rest,
                    ep := Reading(s.ep, m, h, d))
  {
    var u, v, x, q;
    run, u := WakesFor(c, s);
    q, v := ReadsSizes(c, u, s.ep, m, h, d, h + (d + rest));
    Then(c, s, run, u, q);
    run := run + q;
    q, x := ReadsHeader(c, v, s.ep, m, h, d, d + rest);
    Then(c, s, run, v, q);
    run := run + q;
    if |d| == 0 {
      t := x;
      assert d + rest == rest && d == [];
    } else {
      q, t := ReadsData(c, x, s.ep, m, h, d, rest);
      Then(c, s, run, x, q);
      run := run + q;
    }
  }

  // ---- a wrong ack ----

  /** A smaller request with an empty header between two others. */
  const SWALLOW := Config([Request([9], []), Request([], []), Request([8], [])], 64, 64)

  lemma SwallowLimits(c: Config)
    requires c == SWALLOW
    ensures AllFit(c) && Limit(c.reqs) == 1 && HeaderOwner(c.reqs, 1) == Some(1) && DataOwner(c.reqs, 1) == Some(0)
  {
    assert Grows(c.reqs, 0) && !Grows(c.reqs, 1);
  }

  /** The two frames as the endpoint cuts them: sizes, one byte of header, and the rest. */
  lemma SwallowedBytes(c: Config)
    requires c == SWALLOW
    ensures Frame(c.reqs[1]) + Frame(c.reqs[2]) == Meta(c.reqs[1]) + ([1] + ([] + Frame(c.reqs[2])[1..]))
    ensures HeaderSize(Meta(c.reqs[1])) == 0 && DataSize(Meta(c.reqs[1])) == 0
  {
    MetaRoundTrip(c.reqs[1]);
    assert Frame(c.reqs[1]) == Meta(c.reqs[1]);
    var f := Frame(c.reqs[2]);
    assert f[0] == EncodeU32(1)[0] == 1;
    assert f == [f[0]] + f[1..];
  }

  /** One byte is echoed to a client that waits for one byte. */
  lemma EchoesByte(c: Config, s: Sys, ep: Ep, m: seq<Byte>, h: seq<Byte>) returns (run: seq<Action>, t: Sys)
    requires LocalInv(s.ep) && s.ep == Reading(ep, m, h, []) && |h| == 1 && c.outCap >= 1
    requires s.i < |c.reqs| && s.off == FrameSize(c.reqs[s.i]) && |c.reqs[s.i].header| == 1 && s.got == []
    requires s.s2c == []
    ensures EagerExec(c, s, run) == Some(t) && t.i == s.i + 1 && t.acks == s.acks + [h]
  {
    var u, v, q;
    assert Offered(s.ep)[..1] == h && [] + h == h && h[..1] == h;
    run, u := Step(c, s, ServerSend(1));
    q, v := Step(c, u, ClientRecv(1));
    Then(c, s, run, u, q);
    run := run + q;
    q, t := Step(c, v, ClientReturn);
    Then(c, s, run, v, q);
    run := run + q;
  }

  /** Both frames are sent. */
  lemma SendsBoth(c: Config, s: Sys) returns (run: seq<Action>, t: Sys)
    requires c == SWALLOW && Between(c, 1, s)
    ensures EagerExec(c, s, run) == Some(t)
    ensures t == s.(i := 2, off := FrameSize(c.reqs[2]), acks := s.acks + [[]], armed := true,
                    c2s := Frame(c.reqs[1]) + Frame(c.reqs[2]))
  {
    var u, q;
    FreshIsSound(s.ep);
    assert [] + Frame(c.reqs[1]) == Frame(c.reqs[1]);
    run, u := Pushes(c, s);
    q, t := Pushes(c, u);
    Then(c, s, run, u, q);
    run := run + q;
  }

  /** The endpoint reads the first with a byte of the second. */
  lemma Swallows(c: Config, s: Sys) returns (run: seq<Action>, t: Sys)
    requires c == SWALLOW && Fresh(s.ep) && s.ep.headerOwner == Some(1) && s.ep.dataOwner == Some(0)
    requires s.armed && !s.todoRecv && !s.todoSend && s.c2s == Frame(c.reqs[1]) + Frame(c.reqs[2])
    ensures EagerExec(c, s, run) == Some(t) && LocalInv(t.ep) && t.ep == Reading(s.ep, Meta(c.reqs[1]), [1], [])
    ensures t.i == s.i && t.off == s.off && t.got == s.got && t.s2c == s.s2c && t.acks == s.acks
  {
    SwallowedBytes(c);
    ReadingIsSound(s.ep, Meta(c.reqs[1]), [1], []);
    run, t := Reads(c, s, Meta(c.reqs[1]), [1], [], Frame(c.reqs[2])[1..]);
  }

  lemma SwallowsFrom(c: Config, s: Sys) returns (run: seq<Action>, t: Sys)
    requires c == SWALLOW && Between(c, 1, s) && s.acks == [[9]]
    requires HeaderOwner(c.reqs, 1) == Some(1) && DataOwner(c.reqs, 1) == Some(0)
    ensures EagerExec(c, s, run) == Some(t) && t.i == 3 && t.acks == [[9], [], [1]]
  {
    var u, v, q;
    run, u := SendsBoth(c, s);
    q, v := Swallows(c, u);
    Then(c, s, run, u, q);
    run := run + q;
    q, t := EchoesByte(c, v, s.ep, Meta(c.reqs[1]), [1]);
    Then(c, s, run, v, q);
    run := run + q;
  }

  /** The third request is acknowledged, and with a byte that is not its header: it is the first byte of its frame,
      which the endpoint read as the header of the second request. */
  lemma WrongAck(c: Config) returns (run: seq<Action>, t: Sys)
    requires c == SWALLOW
    ensures EagerRun(c, run, t) && Done(c, t) && t.acks == [[9], [], [1]]
  {
    var s, q;
    SwallowLimits(c);
    run, s := Serves(c, 1);
    assert s.acks == [[9]];
    q, t := SwallowsFrom(c, s);
    Then(c, START, run, s, q);
    run := run + q;
  }

  // ---- lost wake-ups ----

  /** With non-decreasing sizes: two empty headers and a third request. */
  lemma PatientIff(c: Config)
    requires NonDecreasing(c.reqs)
    ensures Patient(c) <==> |c.reqs| <= 2 || c.reqs[1].header != []
  {
    if |c.reqs| > 2 && c.reqs[1].header != [] {
      forall k: nat | 1 <= k < |c.reqs| ensures c.reqs[k].header != [] { HeadersGrow(c.reqs, 1, k); }
    }
  }

  lemma {:induction false} HeadersGrow(rs: seq<Request>, a: nat, b: nat)
    requires NonDecreasing(rs) && a <= b < |rs|
    ensures |rs[a].header| <= |rs[b].header|
    decreases b
  {
    if a == b {
    } else {
      HeadersGrow(rs, a, b - 1);
      assert Grows(rs, b);
    }
  }

  /** The last reply of a read, if its header is empty and WRITABLE is no longer registered: nothing is re-armed. */
  lemma RepliesNothing(c: Config, s: Sys, ep: Ep, m: seq<Byte>, d: seq<Byte>) returns (run: seq<Action>, t: Sys)
    requires LocalInv(s.ep) && s.ep == Reading(ep, m, [], d) && !ep.writable && |s.s2c| <= c.outCap
    ensures EagerExec(c, s, run) == Some(t)
    ensures t == s.(ep := Ep(NewRpc, Idle, [], [], [], Some(0), Some(|d|), [], false, ep.served + [Request([], d)]))
  {
    assert s.s2c + [] == s.s2c;
    run, t := Step(c, s, ServerSend(0));
  }

  // ---- a request with an empty header, but for its end ----

  /** Of request k, all but what the last handler call needs is sent and read, and the endpoint is quiet. */
  predicate Poised(c: Config, k: nat, s: Sys) {
    && k < |c.reqs| && s.i == k && s.off == FrameSize(c.reqs[k]) - Last(c.reqs[k]) && s.got == []
    && s.c2s == [] && s.s2c == [] && Quiet(s) && PoisedEp(c, k, s.ep)
  }

  predicate PoisedEp(c: Config, k: nat, ep: Ep) {
    && k < |c.reqs|
    && var d := c.reqs[k].data;
       if d == [] then ep == Rest(c, k) && k > 0
       else
         && (ep.state.MetaRecved? || ep.state.HeaderRecved?)
         && ep == PartlyRead(ep.state, c.reqs[k], c.reqs[..k])
  }

  /** All data but the last byte is in. */
  function PartlyRead(state: State, r: Request, served: seq<Request>): Ep
    requires r.data != []
  {
    Ep(state, Idle, Meta(r), [], r.data[..|r.data| - 1], Some(0), Some(|r.data|), [], false, served)
  }

  /** In the middle of a frame the endpoint is not replying. */
  lemma MidFrameNotReplying(c: Config, s: Sys)
    requires Inv(c, s) && s.i == |s.ep.served| < |c.reqs| && s.off < FrameSize(c.reqs[s.i])
    ensures !s.ep.state.Replying?
  {
    if s.ep.state.Replying? {
      BehindTheReply(c, s);
      FrameAt(c, s.i);
    }
  }

  lemma NextTowards(c: Config, s: Sys) returns (a: Action)
    requires Roomy(c) && Inv(c, s) && Wake(c, s) && s.i == |s.ep.served| < |c.reqs|
    requires META_SIZE <= FrameSize(c.reqs[s.i]) - 1 && s.off <= FrameSize(c.reqs[s.i]) - 1
    requires !(Quiet(s) && s.off == FrameSize(c.reqs[s.i]) - 1)
    ensures EagerEnabled(c, s, a) && Apply(c, s, a) != s
    ensures Apply(c, s, a).i == s.i && Apply(c, s, a).off <= FrameSize(c.reqs[s.i]) - 1
  {
    if Quiet(s) {
      QuietMissesNothing(c, s);
      a := ClientSend(1);
    } else if !s.ep.pc.Idle? {
      a := BusyServerCanAct(c, s);
      BusyStepMoves(c, s, a);
    } else {
      a := if s.todoRecv then CallRecv else if s.todoSend then CallSend
           else Fetch(s.c2s != [], s.ep.writable && |s.s2c| < c.outCap);
    }
  }

  /** The client sends all but the last byte, in pieces that fit, and the endpoint reads it. */
  lemma {:induction false} AlmostThrough(c: Config, s: Sys) returns (run: seq<Action>, t: Sys)
    requires Setting(c) && Inv(c, s) && Wake(c, s) && s.i == |s.ep.served| < |c.reqs|
    requires META_SIZE <= FrameSize(c.reqs[s.i]) - 1 && s.off <= FrameSize(c.reqs[s.i]) - 1
    ensures EagerExec(c, s, run) == Some(t) && Inv(c, t) && Wake(c, t) && Quiet(t)
    ensures t.i == s.i == |t.ep.served| && t.off == FrameSize(c.reqs[s.i]) - 1
    decreases (InvIsShape(c, s); Measure(c, s))
  {
    if Quiet(s) && s.off == FrameSize(c.reqs[s.i]) - 1 {
      run, t := [], s;
    } else {
      var a := NextTowards(c, s);
      var u := Apply(c, s, a);
      MidFrameNotReplying(c, s);
      InvIsShape(c, s);
      StepKeeps(c, s, a);
      StaysAtDrop(c, s, a);
      MeasureFalls(c, s, a);
      MeasureIsNat(c, u);
      WakeKeeps(c, s, a);
      var rest;
      rest, t := AlmostThrough(c, u);
      run := [a] + rest;
      assert run[1..] == rest;
    }
  }

  /** What the endpoint has then. */
  lemma AlmostRead(c: Config, s: Sys)
    requires NonDecreasing(c.reqs) && Inv(c, s) && Wake(c, s) && Quiet(s) && 1 <= s.i == |s.ep.served| < |c.reqs|
    requires s.off == FrameSize(c.reqs[s.i]) - 1 && c.reqs[s.i].header == [] && c.reqs[s.i].data != []
    ensures Poised(c, s.i, s)
  {
    var k, e := s.i, s.ep;
    var f, r := Frame(c.reqs[k]), c.reqs[k];
    assert Limit(c.reqs) == |c.reqs|;
    QuietMissesNothing(c, s);
    QuietPositions(c, s);
    MidFrameNotReplying(c, s);
    OwnersAreLast(c.reqs, k + 1);
    FrameAt(c, k);
    SubSlice(Up(c), UpPos(c, k), UpPos(c, k + 1), 0, |f| - 1);
    assert Received(e) == f[0..|f| - 1];
    PartsOf(e, r);
  }

  lemma PartsOf(e: Ep, r: Request)
    requires |e.meta| == META_SIZE && e.header == [] == r.header && r.data != []
    requires Received(e) == Frame(r)[0..FrameSize(r) - 1]
    ensures e.meta == Meta(r) && e.data == r.data[..|r.data| - 1]
  {
    assert e.meta == Received(e)[..META_SIZE] && e.data == Received(e)[META_SIZE..];
    assert Frame(r)[0..FrameSize(r) - 1][..META_SIZE] == Meta(r);
    assert Frame(r)[0..FrameSize(r) - 1][META_SIZE..] == r.data[..|r.data| - 1];
  }

  /** Every request with an empty header after the first can come to that point, through the smallest channel. */
  lemma Poises(c: Config, k: nat) returns (run: seq<Action>, t: Sys)
    requires AllFit(c) && NonDecreasing(c.reqs) && Roomy(c) && 1 <= k < |c.reqs| && c.reqs[k].header == []
    ensures EagerRun(c, run, t) && Poised(c, k, t) && LocalInv(t.ep)
  {
    assert Limit(c.reqs) == |c.reqs|;
    run, t := Serves(c, k);
    if c.reqs[k].data != [] {
      var s, q := t, [];
      q, t := AlmostThrough(c, s);
      Then(c, START, run, s, q);
      run := run + q;
      AlmostRead(c, t);
    }
  }

  /** The end of the frame, which the client can send at once. */
  function EndOf(r: Request): seq<Byte> {
    Frame(r)[FrameSize(r) - Last(r)..]
  }

  lemma SendsEnd(c: Config, k: nat, s: Sys) returns (run: seq<Action>, t: Sys)
    requires LocalInv(s.ep) && Poised(c, k, s) && c.reqs[k].header == [] && c.inCap >= Last(c.reqs[k])
    ensures EagerExec(c, s, run) == Some(t)
    ensures t == s.(i := k + 1, off := 0, acks := s.acks + [[]], c2s := EndOf(c.reqs[k]), armed := true)
  {
    var u, q;
    var r := c.reqs[k];
    assert [] + Frame(r)[s.off..s.off + Last(r)] == EndOf(r);
    run, u := Step(c, s, ClientSend(Last(r)));
    q, t := Step(c, u, ClientReturn);
    Then(c, s, run, u, q);
    run := run + q;
  }

  /** The endpoint is woken and enters its read of the data. */
  lemma WakesForData(c: Config, s: Sys, r: Request) returns (run: seq<Action>, t: Sys)
    requires r.data != [] && s.ep == PartlyRead(s.ep.state, r, s.ep.served) && LocalInv(s.ep)
    requires s.ep.state.MetaRecved? || s.ep.state.HeaderRecved?
    requires s.armed && !s.todoRecv && !s.todoSend && s.c2s != []
    ensures EagerExec(c, s, run) == Some(t)
    ensures t == s.(armed := false, ep := PartlyRead(HeaderRecved, r, s.ep.served).(pc := InData))
  {
    var u, q;
    run, u := Step(c, s, Fetch(true, false));
    q, t := Step(c, u, CallRecv);
    Then(c, s, run, u, q);
    run := run + q;
    if s.ep.state.MetaRecved? {
      var v := t;
      q, t := Step(c, v, ServerRecv(0));
      Then(c, s, run, v, q);
      run := run + q;
    }
  }

  /** The last byte completes the request. */
  lemma ReadsLast(c: Config, s: Sys, ep: Ep, r: Request, rest: seq<Byte>) returns (run: seq<Action>, t: Sys)
    requires r.header == [] && r.data != [] && s.ep == PartlyRead(HeaderRecved, r, ep.served).(pc := InData)
    requires LocalInv(s.ep) && s.c2s == [r.data[|r.data| - 1]] + rest && !ep.writable
    ensures EagerExec(c, s, run) == Some(t)
    ensures t == s.(c2s := rest, ep := Reading(ep, Meta(r), [], r.data))
  {
    var b := r.data[|r.data| - 1];
    assert s.c2s[..1] == [b] && s.c2s[1..] == rest;
    assert r.data[..|r.data| - 1] + [b] == r.data;
    run, t := Step(c, s, ServerRecv(1));
  }

  lemma EndOfData(r: Request)
    requires r.header == []
    ensures r.data == [] ==> EndOf(r) == Meta(r)
    ensures r.data != [] ==> EndOf(r) == [r.data[|r.data| - 1]]
  {}

  /** It answers an empty header, and nothing is re-armed: what follows in the channel stays unread. */
  lemma Sleeps(c: Config, k: nat, s: Sys, rest: seq<Byte>) returns (run: seq<Action>, t: Sys)
    requires k < |c.reqs| && PoisedEp(c, k, s.ep) && LocalInv(s.ep) && c.reqs[k].header == []
    requires Lengths(Rest(c, k), Meta(c.reqs[k]), [], c.reqs[k].data)
    requires s.armed && !s.todoRecv && !s.todoSend && s.c2s == EndOf(c.reqs[k]) + rest && |s.s2c| <= c.outCap
    ensures EagerExec(c, s, run) == Some(t) && LocalInv(t.ep) && Fresh(t.ep)
    ensures t == s.(armed := false, c2s := rest, ep := t.ep) && t.ep.served == c.reqs[..k] + [c.reqs[k]]
  {
    var u, v, q;
    var r, e := c.reqs[k], Rest(c, k).(writable := false);
    EndOfData(r);
    ReadingIsSound(e, Meta(r), [], r.data);
    if r.data == [] {
      assert EndOf(r) + rest == Meta(r) + ([] + ([] + rest));
      run, v := Reads(c, s, Meta(r), [], [], rest);
    } else {
      run, u := WakesForData(c, s, r);
      q, v := ReadsLast(c, u, e, r, rest);
      Then(c, s, run, u, q);
      run := run + q;
    }
    q, t := RepliesNothing(c, v, e, Meta(r), r.data);
    Then(c, s, run, v, q);
    run := run + q;
    FreshIsSound(t.ep);
  }

  /** The request at hand has an empty header and sizes that the owners already have. */
  lemma IsFitting(c: Config, k: nat)
    requires AllFit(c) && NonDecreasing(c.reqs) && k < |c.reqs| && c.reqs[k].header == []
    ensures Lengths(Rest(c, k), Meta(c.reqs[k]), [], c.reqs[k].data)
  {
    assert Limit(c.reqs) == |c.reqs|;
    OwnersAreLast(c.reqs, k + 1);
    MetaRoundTrip(c.reqs[k]);
  }

  /** The client has sent the end of frame k and is between the two requests. */
  lemma Ends(c: Config, k: nat) returns (run: seq<Action>, t: Sys)
    requires AllFit(c) && NonDecreasing(c.reqs) && Roomy(c) && 1 <= k < |c.reqs| && c.reqs[k].header == []
    requires c.inCap >= Last(c.reqs[k])
    ensures EagerRun(c, run, t) && PoisedEp(c, k, t.ep) && LocalInv(t.ep)
    ensures t.i == k + 1 && t.off == 0 && t.got == [] && t.s2c == [] && t.c2s == EndOf(c.reqs[k])
    ensures t.armed && !t.todoRecv && !t.todoSend
  {
    var s, q;
    run, s := Poises(c, k);
    q, t := SendsEnd(c, k, s);
    Then(c, START, run, s, q);
    run := run + q;
  }

  lemma FinalIsBehind(c: Config)
    requires NonDecreasing(c.reqs) && |c.reqs| >= 3 && c.reqs[1].header == []
    ensures 2 <= Final(c.reqs) < |c.reqs| && c.reqs[Final(c.reqs) - 1].header == []
    ensures FrameSize(c.reqs[Final(c.reqs) - 1]) <= FrameSize(c.reqs[Final(c.reqs)])
    ensures c.reqs[Final(c.reqs)].header == [] <==> c.reqs[|c.reqs| - 1].header == []
    ensures c.reqs[Final(c.reqs)].header == [] ==> Final(c.reqs) == |c.reqs| - 1
  {
    assert Grows(c.reqs, Final(c.reqs));
    HeadersGrow(c.reqs, Final(c.reqs), |c.reqs| - 1);
  }

  /** A quiet endpoint between requests and a client that waits for an ack, or has none to wait for. */
  lemma StuckAhead(c: Config, s: Sys)
    requires LocalInv(s.ep) && Fresh(s.ep) && Quiet(s) && s.got == [] && s.s2c == []
    requires s.i < |c.reqs| ==> s.off == FrameSize(c.reqs[s.i]) && c.reqs[s.i].header != []
    ensures Stuck(c, s)
  {}

  /** With room for frame k + 1 behind the end of frame k, the endpoint falls asleep on it. */
  lemma PilesUp(c: Config, k: nat) returns (run: seq<Action>, t: Sys)
    requires AllFit(c) && NonDecreasing(c.reqs) && Roomy(c) && 1 <= k && k + 1 < |c.reqs| && c.reqs[k].header == []
    requires c.inCap >= FrameSize(c.reqs[k + 1]) + Last(c.reqs[k])
    ensures EagerRun(c, run, t) && LocalInv(t.ep) && Fresh(t.ep) && t.ep.served == c.reqs[..k] + [c.reqs[k]]
    ensures Quiet(t) && t.got == [] && t.s2c == [] && t.c2s == Frame(c.reqs[k + 1])
    ensures if c.reqs[k + 1].header == [] then t.i == k + 2 else t.i == k + 1 && t.off == FrameSize(c.reqs[k + 1])
  {
    var s, u, q;
    run, s := Ends(c, k);
    q, u := Pushes(c, s);
    Then(c, START, run, s, q);
    run := run + q;
    IsFitting(c, k);
    q, t := Sleeps(c, k, u, Frame(c.reqs[k + 1]));
    Then(c, START, run, u, q);
    run := run + q;
  }

  /** With room for it, the last frame before the client has to wait or is through is never read: the run is stuck with
      it in the channel. If a header is nonempty, the client waits for its ack for ever. */
  lemma PiledUpFramesAreLost(c: Config) returns (run: seq<Action>, t: Sys)
    requires AllFit(c) && NonDecreasing(c.reqs) && Roomy(c) && |c.reqs| >= 3 && c.reqs[1].header == []
    requires c.inCap >= NapRoom(c.reqs)
    ensures EagerRun(c, run, t) && Stuck(c, t) && t.c2s == Frame(c.reqs[Final(c.reqs)])
    ensures t.ep.served == c.reqs[..Final(c.reqs)]
    ensures Done(c, t) <==> c.reqs[|c.reqs| - 1].header == []
  {
    FinalIsBehind(c);
    var k: nat := Final(c.reqs) - 1;
    run, t := PilesUp(c, k);
    assert c.reqs[..k] + [c.reqs[k]] == c.reqs[..k + 1];
    StuckAhead(c, t);
  }

  /** With room for one byte more, the first byte of that frame already goes unnoticed. */
  lemma ByteGoesUnread(c: Config) returns (run: seq<Action>, t: Sys)
    requires AllFit(c) && NonDecreasing(c.reqs) && Roomy(c) && |c.reqs| >= 3 && c.reqs[1].header == []
    requires c.inCap > Last(c.reqs[Final(c.reqs) - 1])
    ensures EagerRun(c, run, t) && Quiet(t) && t.c2s != []
  {
    var s, u, q;
    FinalIsBehind(c);
    var k: nat := Final(c.reqs) - 1;
    run, s := Ends(c, k);
    var b := Frame(c.reqs[k + 1])[0..1];
    assert |EndOf(c.reqs[k]) + b| == Last(c.reqs[k]) + 1;
    q, u := Step(c, s, ClientSend(1));
    Then(c, START, run, s, q);
    run := run + q;
    IsFitting(c, k);
    q, t := Sleeps(c, k, u, b);
    Then(c, START, run, u, q);
    run := run + q;
  }

  /** Every eager run that cannot go on has served and returned every RPC. */
  ghost predicate AlwaysCompletes(c: Config) {
    forall run, s | EagerRun(c, run, s) && Stuck(c, s) :: Complete(c, s)
  }

  /** Exactly when every run that cannot go on is complete, for non-decreasing sizes: when there are at most two
      requests, or the second header, and so every later one, is nonempty, or the channel has no room for the last frame
      the client sends without an answer together with the end of the one before. */
  lemma AlwaysCompletesIff(c: Config)
    requires AllFit(c) && NonDecreasing(c.reqs) && Roomy(c)
    ensures AlwaysCompletes(c) <==> |c.reqs| <= 2 || c.reqs[1].header != [] || c.inCap < NapRoom(c.reqs)
  {
    PatientIff(c);
    assert Limit(c.reqs) == |c.reqs|;
    if Patient(c) {
      forall run, s | EagerRun(c, run, s) && Stuck(c, s) ensures Complete(c, s) { EveryRunCompletes(c, run, s); }
    } else if c.inCap < NapRoom(c.reqs) {
      forall run, s | EagerRun(c, run, s) && Stuck(c, s) ensures Complete(c, s) { NoRoomForNaps(c, run, s); }
    } else {
      var run, s := PiledUpFramesAreLost(c);
      FrameAt(c, Final(c.reqs));
      assert EagerRun(c, run, s) && Stuck(c, s) && !Complete(c, s);
    }
  }

  /** Then every run of steps that change the state is bounded, and complete as soon as it cannot go on. */
  lemma CompletesInBound(c: Config, run: seq<Action>, s: Sys)
    requires AllFit(c) && NonDecreasing(c.reqs) && Roomy(c)
    requires |c.reqs| <= 2 || c.reqs[1].header != [] || c.inCap < NapRoom(c.reqs)
    requires EagerRun(c, run, s) && Productive(c, START, run)
    ensures |run| <= 32 * (6 * |Up(c)| + |c.reqs|) + 7
    ensures Stuck(c, s) ==> Complete(c, s)
  {
    AlwaysCompletesIff(c);
    EveryRunIsBounded(c, run);
  }

  /** A quiet endpoint never has anything unread. */
  ghost predicate NothingUnread(c: Config) {
    forall run, s | EagerRun(c, run, s) && Quiet(s) :: s.c2s == []
  }

  /** Exactly when no wake-up is lost, for non-decreasing sizes: when there are at most two requests, or the second
      header is nonempty, or the channel has no room for one byte behind the end of such a frame. */
  lemma NoLostWakeupIff(c: Config)
    requires AllFit(c) && NonDecreasing(c.reqs) && Roomy(c)
    ensures NothingUnread(c) <==>
            |c.reqs| <= 2 || c.reqs[1].header != [] || c.inCap <= Last(c.reqs[Final(c.reqs) - 1])
  {
    PatientIff(c);
    assert Limit(c.reqs) == |c.reqs|;
    if Patient(c) {
      forall run, s | EagerRun(c, run, s) && Quiet(s) ensures s.c2s == [] { NoLostWakeup(c, run, s); }
    } else if c.inCap <= Last(c.reqs[Final(c.reqs) - 1]) {
      forall run, s | EagerRun(c, run, s) && Quiet(s) ensures s.c2s == [] { NoRoomUnread(c, run, s); }
    } else {
      var run, s := ByteGoesUnread(c);
      assert EagerRun(c, run, s) && Quiet(s) && s.c2s != [];
    }
  }

  function Hanging(inCap: nat): Config {
    Config([Request([], [7]), Request([], [7]), Request([5], [7])], inCap, 64)
  }

  lemma HangingLimits(c: Config)
    requires c == Hanging(c.inCap)
    ensures AllFit(c) && NonDecreasing(c.reqs) && Final(c.reqs) == 2 && NapRoom(c.reqs) == 11
  {
    assert Grows(c.reqs, 0) && Grows(c.reqs, 1) && Grows(c.reqs, 2);
    FirstNonempty(c.reqs, 1, 2);
  }

  /** A client with two empty headers, whose sizes never decrease, can hang from a channel of eleven bytes on, and does
      not below. */
  lemma NonDecreasingClientHangsIff(c: Config)
    requires c == Hanging(c.inCap) && c.inCap >= 1
    ensures NonDecreasing(c.reqs)
    ensures (exists run, s :: EagerRun(c, run, s) && Stuck(c, s) && !Done(c, s)) <==> c.inCap >= 11
  {
    HangingLimits(c);
    AlwaysCompletesIff(c);
    if c.inCap >= 11 {
      var run, s := PiledUpFramesAreLost(c);
      assert EagerRun(c, run, s) && Stuck(c, s) && !Done(c, s);
    } else {
      forall run, s | EagerRun(c, run, s) && Stuck(c, s) ensures Done(c, s) { assert Complete(c, s); }
    }
  }
}
