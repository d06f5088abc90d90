/** The main results about whole runs of the client and the endpoint. */
module EchoRuns {
  import opened Wire
  import opened EndpointSpec
  import opened EchoSystem
  import opened EchoCorrect

  /** s is the state after the run from the start. */
  predicate Reaches(c: Config, run: seq<Action>, s: Sys) {
    Exec(c, START, run) == Some(s)
  }

  lemma {:induction false} ExecKeeps(c: Config, s: Sys, run: seq<Action>)
    requires Admissible(c) && Inv(c, s) && Exec(c, s, run).Some?
    ensures Inv(c, Exec(c, s, run).value)
    decreases |run|
  {
    if run == [] {
    } else {
      StepKeeps(c, s, run[0]);
      ExecKeeps(c, Apply(c, s, run[0]), run[1..]);
    }
  }

  /** Every reachable state satisfies the stream invariant. */
  lemma RunKeeps(c: Config, run: seq<Action>, s: Sys)
    requires Admissible(c) && Reaches(c, run, s)
    ensures Inv(c, s)
  {
    InitHolds(c);
    ExecKeeps(c, START, run);
  }

  lemma {:induction false} ExecKeepsOrSwallows(c: Config, s: Sys, run: seq<Action>)
    requires AllFit(c) && (Inv(c, s) || Swallowed(c, s.ep)) && Exec(c, s, run).Some?
    ensures Inv(c, Exec(c, s, run).value) || Swallowed(c, Exec(c, s, run).value.ep)
    decreases |run|
  {
    if run == [] {
    } else {
      if Inv(c, s) { StepKeepsOrSwallows(c, s, run[0]); } else { SwallowedStays(c, s, run[0]); }
      ExecKeepsOrSwallows(c, Apply(c, s, run[0]), run[1..]);
    }
  }

  /** Whatever the sizes: every reachable state satisfies the stream invariant, or the endpoint has answered the first
      drop with bytes of later frames. */
  lemma RunKeepsOrSwallows(c: Config, run: seq<Action>, s: Sys)
    requires AllFit(c) && Reaches(c, run, s)
    ensures Inv(c, s) || Swallowed(c, s.ep)
  {
    InitHolds(c);
    ExecKeepsOrSwallows(c, START, run);
  }

  // ---- positions decide who is ahead ----

  /** What has gone back ends within the header of the request being served, and before its end if it is nonempty. */
  lemma ReplyingBelow(c: Config, ep: Ep)
    requires ServerInv(c, ep) && |ep.served| < |c.reqs|
    ensures DownPos(c, |ep.served|) + Replied(ep) <= DownPos(c, |ep.served| + 1)
    ensures c.reqs[|ep.served|].header != [] ==>
              DownPos(c, |ep.served|) + Replied(ep) < DownPos(c, |ep.served| + 1)
  {
    var j := |ep.served|;
    HeaderAt(c, j);
    if ep.state.Replying? { OwnersAreLast(c.reqs, j + 1); }
  }

  /** The reply under way is not complete, so an ack received in full was served in full. */
  lemma AckedIsServed(c: Config, s: Sys)
    requires Inv(c, s) && 0 < s.i && c.reqs[s.i - 1].header != []
    ensures s.i <= |s.ep.served|
  {
    var j := |s.ep.served|;
    if j < s.i {
      HeaderAt(c, s.i - 1);
      ReplyingBelow(c, s.ep);
      if j < s.i - 1 { DownMonotone(c, j + 1, s.i - 1); }
    }
  }

  /** Frames are never empty, so the endpoint is never ahead of the client. */
  lemma ServedIsSent(c: Config, s: Sys)
    requires Inv(c, s)
    ensures |s.ep.served| <= s.i + 1
    ensures s.i < |s.ep.served| ==>
              && s.i < |c.reqs| && s.off == FrameSize(c.reqs[s.i])
              && s.c2s == [] && Received(s.ep) == []
    ensures s.i == |s.ep.served| && s.off == 0 ==> Received(s.ep) == [] && s.c2s == []
  {
    var j := |s.ep.served|;
    if s.i < j {
      FrameAt(c, s.i);
      UpMonotone(c, s.i + 1, j);
      if s.i + 1 < j {
        FrameAt(c, s.i + 1);
        UpMonotone(c, s.i + 2, j);
      }
    }
  }

  lemma AcksAreHeaders(c: Config, s: Sys)
    requires Inv(c, s)
    ensures |s.acks| == s.i <= |c.reqs|
    ensures forall n | 0 <= n < s.i :: s.acks[n] == c.reqs[n].header
    ensures s.i < |c.reqs| ==> s.got <= c.reqs[s.i].header
  {
    if s.i < |c.reqs| {
      HeaderAt(c, s.i);
      SubSlice(Down(c), DownPos(c, s.i), DownPos(c, s.i + 1), 0, |s.got|);
    }
    assert forall n | 0 <= n < s.i :: s.acks[n] == Headers(c.reqs)[n];
  }

  lemma ReplyIsNext(c: Config, s: Sys)
    requires Inv(c, s) && s.ep.state.Replying?
    ensures s.ep.served + [Request(s.ep.header, s.ep.data)] <= c.reqs
  {
    HoldsTheFrame(c, s);
  }

  /** What the echo promises of a state: the acks are the headers of the requests in order, the ack under way is
      a prefix of its header, and the endpoint has extracted exactly the frames in order. */
  predicate Echoes(c: Config, s: Sys) {
    && |s.acks| == s.i <= |c.reqs|
    && (forall n | 0 <= n < s.i :: s.acks[n] == c.reqs[n].header)
    && (s.i < |c.reqs| ==> s.got <= c.reqs[s.i].header)
    && s.ep.served <= c.reqs
    && (s.ep.state.Replying? ==> s.ep.served + [Request(s.ep.header, s.ep.data)] <= c.reqs)
  }

  /** Whole-run echo: it holds after every run, however the bytes were split and the parties interleaved. */
  lemma EchoIsCorrect(c: Config, run: seq<Action>, s: Sys)
    requires Admissible(c) && Reaches(c, run, s)
    ensures Echoes(c, s)
  {
    RunKeeps(c, run, s);
    AcksAreHeaders(c, s);
    if s.ep.state.Replying? { ReplyIsNext(c, s); }
  }

  /** Between two RPCs of a client that waited for its ack, nothing is left anywhere: both channels
      are empty and the endpoint has consumed exactly the frames acknowledged. */
  lemma ChannelsEmptyBetweenRpcs(c: Config, run: seq<Action>, s: Sys)
    requires Admissible(c) && Reaches(c, run, s)
    requires s.off == 0 && 0 < s.i <= |c.reqs| && c.reqs[s.i - 1].header != []
    ensures s.c2s == [] && s.s2c == []
    ensures s.ep.state.NewRpc? && Received(s.ep) == []
    ensures s.ep.served == c.reqs[..s.i]
  {
    RunKeeps(c, run, s);
    AckedIsServed(c, s);
    ServedIsSent(c, s);
    assert |s.ep.served| == s.i;
    assert s.got == [];
  }

  /** The lengths the endpoint waits for are the running maxima of the sizes announced so far. */
  lemma WaitsForRunningMaxima(c: Config, run: seq<Action>, s: Sys)
    requires Admissible(c) && Reaches(c, run, s) && 0 < Announced(s.ep)
    ensures var n := Announced(s.ep);
      && n <= |c.reqs|
      && (forall k | 0 <= k < n :: |c.reqs[k].header| <= HeaderLen(s.ep) && |c.reqs[k].data| <= DataLen(s.ep))
      && (exists k :: 0 <= k < n && |c.reqs[k].header| == HeaderLen(s.ep))
      && (exists k :: 0 <= k < n && |c.reqs[k].data| == DataLen(s.ep))
  {
    RunKeeps(c, run, s);
    OwnersAreMaxima(c.reqs, Announced(s.ep));
  }

  /** At the first request smaller than its predecessor the endpoint never reaches Reply, and the client gets no
      further than to the next nonempty header, for which it waits for ever. */
  lemma FirstDropHangs(c: Config, run: seq<Action>, s: Sys)
    requires Admissible(c) && !NonDecreasing(c.reqs) && Reaches(c, run, s)
    ensures var d := Limit(c.reqs);
      d < |c.reqs| && |s.ep.served| <= d && (|s.ep.served| == d ==> !s.ep.state.Replying?)
    ensures s.i <= Reach(c.reqs)
    ensures Reach(c.reqs) < |c.reqs| ==> !Done(c, s)
    ensures c.reqs[Limit(c.reqs)].header != [] ==> s.i <= Limit(c.reqs) && !Done(c, s)
  {
    RunKeeps(c, run, s);
  }

  /** A nonempty header at the first drop is enough: the client then waits inside that frame, and the endpoint
      wants more bytes than it has. */
  lemma HeaderAtDropStarves(c: Config)
    requires Limit(c.reqs) < |c.reqs| ==> c.reqs[Limit(c.reqs)].header != []
    ensures Starved(c)
  {
    if Limit(c.reqs) < |c.reqs| {
      assert Reach(c.reqs) == Limit(c.reqs);
      WaitsForMore(c.reqs);
    }
  }

  // ---- a handler of the endpoint, result by result, is a run of the system ----

  /** The kernel gives results that the channels allow: bytes that are there, room that is free, and no
      end of stream while the client is alive. */
  predicate Feasible(c: Config, s: Sys, io: Io) {
    && LocalInv(s.ep) && OkIo(s.ep, io) && !EndOfStream(s.ep, io)
    && (io.Got? ==> io.bytes <= s.c2s)
    && (io.Sent? ==> |s.s2c| + |io.bytes| <= c.outCap)
  }

  function ActionOf(io: Io): Action {
    match io
    case Got(b) => ServerRecv(|b|)
    case Sent(b) => ServerSend(|b|)
    case _ => ServerBlock
  }

  lemma EveryResultIsAnAction(c: Config, s: Sys, io: Io)
    requires Feasible(c, s, io)
    ensures Enabled(c, s, ActionOf(io)) && Apply(c, s, ActionOf(io)) == ServerStep(c, s, io)
    ensures Apply(c, s, ActionOf(io)).ep == OnIo(s.ep, io)
  {
    if io.Got? { assert s.c2s[..|io.bytes|] == io.bytes; }
    if io.Sent? { assert Offered(s.ep)[..|io.bytes|] == io.bytes; }
  }

  predicate AllFeasible(c: Config, s: Sys, ios: seq<Io>)
    decreases |ios|
  {
    ios == [] || (Feasible(c, s, ios[0]) && AllFeasible(c, ServerStep(c, s, ios[0]), ios[1..]))
  }

  lemma RunIoHead(ep: Ep, ios: seq<Io>)
    requires ios != [] && LocalInv(ep) && OkIo(ep, ios[0])
    ensures RunIo(ep, ios) == RunIo(OnIo(ep, ios[0]), ios[1..])
  {
    assert RunIo(ep, []) == Some(ep);
    RunStep(ep, [], ep, ios[0]);
    assert [] + [ios[0]] == [ios[0]] && ios == [ios[0]] + ios[1..];
    RunJoin(ep, [ios[0]], OnIo(ep, ios[0]), ios[1..]);
  }

  /** Whatever results a handler gets, the state it leaves is the endpoint's state after a run of the
      system: what is proved about runs holds of the object whose handlers follow RunIo. */
  lemma {:induction false} HandlerIsARun(c: Config, s: Sys, ios: seq<Io>) returns (run: seq<Action>, t: Sys)
    requires AllFeasible(c, s, ios)
    ensures |run| == |ios| && Exec(c, s, run) == Some(t)
    ensures RunIo(s.ep, ios) == Some(t.ep)
    decreases |ios|
  {
    if ios == [] {
      run, t := [], s;
    } else {
      var a := ActionOf(ios[0]);
      EveryResultIsAnAction(c, s, ios[0]);
      var rest;
      rest, t := HandlerIsARun(c, Apply(c, s, a), ios[1..]);
      run := [a] + rest;
      assert run[1..] == rest;
      RunIoHead(s.ep, ios);
    }
  }
}
