/** The server loop as it runs: Proceed switching on a call's status, and the thread that feeds it from its
    completion queue. Each call of Proceed is proved to be a run of ServerCalls' steps. */
module ServerLoop {
  import opened Wire
  import opened ServerCalls

  lemma {:induction false} RunSnoc(s: State, steps: seq<Step>, m: State, a: Step)
    requires Run(s, steps) == Reached(m) && Enabled(m, a) && TouchIsLive(m, a)
    ensures Run(s, steps + [a]) == Reached(Apply(m, a))
    decreases |steps|
  {
    if steps == [] {
      assert Run(Apply(m, a), []) == Reached(Apply(m, a));
    } else {
      assert (steps + [a])[1..] == steps[1..] + [a];
      RunSnoc(Apply(s, steps[0]), steps[1..], m, a);
    }
  }

  lemma {:induction false} RunCat(s: State, steps: seq<Step>, more: seq<Step>)
    requires Run(s, steps).Reached?
    ensures Run(s, steps + more) == Run(Run(s, steps).state, more)
    decreases |steps|
  {
    if steps == [] {
      assert steps + more == more;
    } else {
      assert (steps + more)[1..] == steps[1..] + more;
      RunCat(Apply(s, steps[0]), steps[1..], more);
    }
  }

  /** steps, all of them thread t's, take s to m. */
  ghost predicate Leads(s: State, t: nat, steps: seq<Step>, m: State) {
    Run(s, steps) == Reached(m) && (forall i | 0 <= i < |steps| :: steps[i].t == t)
  }

  lemma ReachesOn(queues: seq<nat>, m: State, a: Step)
    requires Reachable(queues, m) && Enabled(m, a)
    ensures TouchIsLive(m, a) && Reachable(queues, Apply(m, a))
  {
    ReachableInv(queues, m);
    TouchesLive(m, a);
    var before: seq<Step> :| Run(Initial(queues), before) == Reached(m);
    RunSnoc(Initial(queues), before, m, a);
  }

  lemma LeadsOn(queues: seq<nat>, s: State, t: nat, steps: seq<Step>, m: State, a: Step)
    requires Reachable(queues, m) && Leads(s, t, steps, m) && Enabled(m, a) && a.t == t
    ensures TouchIsLive(m, a) && Leads(s, t, steps + [a], Apply(m, a)) && Reachable(queues, Apply(m, a))
  {
    ReachesOn(queues, m, a);
    RunSnoc(s, steps, m, a);
  }

  lemma LeadsTo(s: State, t: nat, steps: seq<Step>, m: State, more: seq<Step>, n: State)
    requires Leads(s, t, steps, m) && Leads(m, t, more, n)
    ensures Leads(s, t, steps + more, n)
  {
    RunCat(s, steps, more);
  }

  /** The program's fields are the machine's state without its history. */
  ghost predicate Shows(status: map<nat, Status>, queue: map<nat, nat>, ops: set<Op>, s: State) {
    && status.Keys == s.objs.Keys && queue.Keys == s.objs.Keys && ops == s.ops
    && (forall a | a in s.objs :: status[a] == s.objs[a].status && queue[a] == s.objs[a].queue)
  }

  lemma ShowsBirth(status: map<nat, Status>, queue: map<nat, nat>, ops: set<Op>, s: State, a: Step, address: nat,
      cq: nat)
    requires Shows(status, queue, ops, s) && Enabled(s, a) && TouchIsLive(s, a)
    requires a == Boot(a.t, address) || a == Replace(a.t, address)
    requires cq == if a.Boot? then s.queues[a.t] else s.objs[s.threads[a.t].tag].queue
    ensures Shows(status[address := Status.Create], queue[address := cq], ops, Apply(s, a))
    ensures Apply(s, a).accepted == s.accepted
    ensures Apply(s, a).threads ==
            s.threads[a.t := Constructing(address, if a.Boot? then None else Some(s.threads[a.t].tag))]
  {}

  lemma ShowsWrite(status: map<nat, Status>, queue: map<nat, nat>, ops: set<Op>, s: State, t: nat, tag: nat, a: Step)
    requires Shows(status, queue, ops, s) && Enabled(s, a) && TouchIsLive(s, a) && Touched(s, a) == Some(tag)
    requires a == SetProcess(t) || a == SetFinish(t)
    ensures Shows(status[tag := if a.SetProcess? then Process else Finish], queue, ops, Apply(s, a))
    ensures Apply(s, a).accepted == s.accepted
    ensures Apply(s, a).threads ==
            s.threads[t := if a.SetProcess? then Arming(tag, s.threads[t].caller) else Responding(tag)]
  {}

  lemma ShowsStart(status: map<nat, Status>, queue: map<nat, nat>, ops: set<Op>, s: State, t: nat, tag: nat, a: Step)
    requires Shows(status, queue, ops, s) && Enabled(s, a) && TouchIsLive(s, a) && Touched(s, a) == Some(tag)
    requires a == Arm(t) || a == Answer(t)
    ensures Shows(status, queue, ops + {Op(if a.Arm? then Accept else Respond, tag, queue[tag])}, Apply(s, a))
    ensures Apply(s, a).accepted == s.accepted
    ensures Apply(s, a).threads ==
            s.threads[t := if a.Arm? && s.threads[t].caller.Some? then Finishing(s.threads[t].caller.value) else AtNext]
  {}

  lemma ShowsDelete(status: map<nat, Status>, queue: map<nat, nat>, ops: set<Op>, s: State, t: nat, tag: nat)
    requires Shows(status, queue, ops, s) && Enabled(s, Delete(t)) && TouchIsLive(s, Delete(t))
    requires s.threads[t] == Dispatch(tag)
    ensures Shows(status - {tag}, queue - {tag}, ops, Apply(s, Delete(t)))
    ensures Apply(s, Delete(t)).accepted == s.accepted
    ensures Apply(s, Delete(t)).threads == s.threads[t := AtNext]
  {}

  /** Where a thread is once the call it is building is armed, or its own call is dealt with. */
  function Back(pc: Pc): Pc {
    if pc.Constructing? && pc.caller.Some? then Finishing(pc.caller.value) else AtNext
  }

  /** Where a thread is once the call it was building is armed. */
  function Onwards(pc: Pc): Pc {
    if pc.Arming? && pc.caller.Some? then Finishing(pc.caller.value) else AtNext
  }

  lemma MovesTwice(a: seq<Pc>, b: seq<Pc>, c: seq<Pc>, t: nat, p: Pc, q: Pc)
    requires t < |a| && b == a[t := p] && c == b[t := q]
    ensures c == a[t := q]
  {}

  /** The thread's own position decides the status of the call in its hands. */
  lemma StatusByPosition(queues: seq<nat>, s: State, t: nat)
    requires Reachable(queues, s) && t < |s.threads|
    ensures |s.queues| == |s.threads|
    ensures s.threads[t].Constructing? ==> StatusIs(s, s.threads[t].obj, Status.Create)
    ensures s.threads[t].Dispatch? ==> StatusIs(s, s.threads[t].tag, Process) || StatusIs(s, s.threads[t].tag, Finish)
    ensures s.threads[t].Finishing? ==> StatusIs(s, s.threads[t].tag, Process)
  {
    ReachableInv(queues, s);
    assert PcOk(s, t);
  }

  lemma ShowsDelivery(status: map<nat, Status>, queue: map<nat, nat>, ops: set<Op>, s: State, op: Op)
    requires Shows(status, queue, ops, s) && Enabled(s, Deliver(0, op)) && TouchIsLive(s, Deliver(0, op))
    ensures Shows(status, queue, ops - {op}, Apply(s, Deliver(0, op)))
    ensures Apply(s, Deliver(0, op)).threads == s.threads[0 := Dispatch(op.tag)]
    ensures |Apply(s, Deliver(0, op)).accepted| == |s.accepted| + if op.kind.Accept? then 1 else 0
  {}

  lemma WaitingOps(cq: nat, s: State)
    requires Reachable([cq], s) && s.queues == [cq]
    ensures forall op | op in s.ops :: op.queue == cq
    ensures forall op | op in s.ops :: StatusIs(s, op.tag, if op.kind.Accept? then Process else Finish)
  {
    ReachableInv([cq], s);
    forall op | op in s.ops
      ensures op.queue == cq && StatusIs(s, op.tag, if op.kind.Accept? then Process else Finish)
    {
      OpIsQueued(s, op);
    }
  }

  lemma WaitingCalls(cq: nat, s: State)
    requires Reachable([cq], s) && s.threads == [AtNext]
    ensures s.objs.Keys == set op | op in s.ops :: op.tag
  {
    ReachableInv([cq], s);
    forall op | op in s.ops ensures op.tag in s.objs { OpIsQueued(s, op); }
    forall a | a in s.objs ensures exists op :: op in s.ops && op.tag == a {
      OneOutstandingOperation([cq], s, a);
    }
  }

  /** The only thread of the only queue is waiting. */
  lemma Waiting(cq: nat, s: State)
    requires Reachable([cq], s) && s.threads == [AtNext]
    ensures s.queues == [cq] && s.ops != {} && (forall op | op in s.ops :: op.queue == cq)
    ensures exists op :: Accepts(s, cq) == {op}
    ensures forall op | op in s.ops :: StatusIs(s, op.tag, if op.kind.Accept? then Process else Finish)
    ensures s.objs.Keys == set op | op in s.ops :: op.tag
    ensures |s.accepted| == |s.finished|
  {
    var steps: seq<Step> :| Run(Initial([cq]), steps) == Reached(s);
    QueuesFixed(Initial([cq]), steps);
    OneArmedCall([cq], s, 0);
    WaitingOps(cq, s);
    WaitingCalls(cq, s);
    OneFinishPerRequest([cq], s);
    SameMembers(s.accepted, s.finished);
  }

  lemma OpIsQueued(s: State, op: Op)
    requires Inv(s) && op in s.ops
    ensures StatusIs(s, op.tag, if op.kind.Accept? then Process else Finish)
    ensures op.queue in s.queues
  {
    assert OpOk(s, op) && CallOk(s, op.tag);
  }

  lemma SameMembers(a: seq<nat>, b: seq<nat>)
    requires Distinct(a) && Distinct(b) && (forall n :: n in a <==> n in b)
    ensures |a| == |b|
  {
    Counted(a);
    Counted(b);
    assert Members(a) == Members(b);
  }

  function Members(a: seq<nat>): set<nat> {
    set n | n in a
  }

  lemma {:induction false} Counted(a: seq<nat>)
    requires Distinct(a)
    ensures |Members(a)| == |a|
  {
    if a == [] {
      assert Members(a) == {};
    } else {
      var k := |a| - 1;
      Counted(a[..k]);
      assert a[k] !in Members(a[..k]);
      assert a == a[..k] + [a[k]];
      assert Members(a) == Members(a[..k]) + {a[k]};
    }
  }

  class CallServer {
    var status: map<nat, Status>
    var queue: map<nat, nat>
    var ops: set<Op>

    ghost predicate Matches(s: State)
      reads this
    {
      Shows(status, queue, ops, s)
    }

    constructor ()
      ensures status == map[] && queue == map[] && ops == {}
    {
      status, queue, ops := map[], map[], {};
    }

    /** new AsyncServerCall: the constructor ends in the first Proceed. */
    method Create(cq: nat, ghost queues: seq<nat>, ghost s: State, ghost t: nat)
      returns (address: nat, ghost steps: seq<Step>, ghost s': State)
      requires Reachable(queues, s) && Matches(s) && t < |s.threads|
      requires s.threads[t].Start? || (s.threads[t].Dispatch? && StatusIs(s, s.threads[t].tag, Process))
      requires t < |s.queues| && cq == if s.threads[t].Start? then s.queues[t] else s.objs[s.threads[t].tag].queue
      modifies this
      ensures Matches(s') && Leads(s, t, steps, s') && Reachable(queues, s')
      ensures s'.accepted == s.accepted
      ensures |ops| == |old(ops)| + 1
      ensures s'.threads == s.threads[t := if s.threads[t].Start? then AtNext else Finishing(s.threads[t].tag)]
      decreases 1
    {
      StatusByPosition(queues, s, t);
      ghost var bound := FreshAddress(status.Keys);
      assert bound !in status;
      address :| address !in status;
      ghost var a := if s.threads[t].Start? then Boot(t, address) else Replace(t, address);
      LeadsOn(queues, s, t, [], s, a);
      ShowsBirth(status, queue, ops, s, a, address, cq);
      ghost var m := Apply(s, a);
      status, queue := status[address := Status.Create], queue[address := cq];
      ghost var more;
      more, s' := Proceed(address, queues, m, t);
      steps := [] + [a] + more;
      LeadsTo(s, t, [] + [a], m, more, s');
    }

    /** What a tag's call does when an event names it, by its status. */
    method Proceed(tag: nat, ghost queues: seq<nat>, ghost s: State, ghost t: nat)
      returns (ghost steps: seq<Step>, ghost s': State)
      requires Reachable(queues, s) && Matches(s) && t < |s.threads|
      requires s.threads[t] == Dispatch(tag) || (s.threads[t].Constructing? && s.threads[t].obj == tag)
      modifies this
      ensures Matches(s') && Leads(s, t, steps, s') && Reachable(queues, s')
      ensures s'.accepted == s.accepted
      ensures |ops| == |old(ops)| + if s.threads[t].Constructing? then 1 else if StatusIs(s, tag, Process) then 2 else 0
      ensures s'.threads == s.threads[t := Back(s.threads[t])]
      decreases if s.threads[t].Dispatch? then 2 else 0
    {
      StatusByPosition(queues, s, t);
      match status[tag] {
        case Create =>
          steps, s' := ToProcess(tag, queues, s, t);
        case Process =>
          var address;
          ghost var first, m, more;
          address, first, m := Create(queue[tag], queues, s, t);
          more, s' := ToFinish(tag, queues, m, t);
          steps := first + more;
          LeadsTo(s, t, first, m, more, s');
        case Finish =>
          steps, s' := Destroy(tag, queues, s, t);
      }
    }

    /** delete this, in the FINISH case. */
    method Destroy(tag: nat, ghost queues: seq<nat>, ghost s: State, ghost t: nat)
      returns (ghost steps: seq<Step>, ghost s': State)
      requires Reachable(queues, s) && Matches(s) && t < |s.threads| && s.threads[t] == Dispatch(tag)
      requires StatusIs(s, tag, Finish)
      modifies this
      ensures Matches(s') && Leads(s, t, steps, s') && Reachable(queues, s')
      ensures s'.accepted == s.accepted && tag !in s'.objs
      ensures ops == old(ops)
      ensures s'.threads == s.threads[t := AtNext]
      decreases 0
    {
      StatusByPosition(queues, s, t);
      LeadsOn(queues, s, t, [], s, Delete(t));
      ShowsDelete(status, queue, ops, s, t, tag);
      status, queue := status - {tag}, queue - {tag};
      steps, s' := [] + [Delete(t)], Apply(s, Delete(t));
    }

    /** An assignment to status_. */
    method WriteStatus(tag: nat, value: Status, ghost a: Step, ghost queues: seq<nat>, ghost s: State, ghost t: nat)
      returns (ghost steps: seq<Step>, ghost s': State)
      requires Reachable(queues, s) && Matches(s) && Enabled(s, a) && Touched(s, a) == Some(tag)
      requires (a == SetProcess(t) && value == Process) || (a == SetFinish(t) && value == Finish)
      modifies this`status
      ensures Matches(s') && Leads(s, t, steps, s') && Reachable(queues, s') && s'.accepted == s.accepted
      ensures s'.threads == s.threads[t := if a.SetProcess? then Arming(tag, s.threads[t].caller) else Responding(tag)]
    {
      LeadsOn(queues, s, t, [], s, a);
      ShowsWrite(status, queue, ops, s, t, tag, a);
      status := status[tag := value];
      steps, s' := [] + [a], Apply(s, a);
    }

    /** The call into the library with the call's address as the tag. */
    method StartOp(tag: nat, kind: Kind, ghost a: Step, ghost queues: seq<nat>, ghost s: State, ghost t: nat)
      returns (ghost steps: seq<Step>, ghost s': State)
      requires Reachable(queues, s) && Matches(s) && Enabled(s, a) && Touched(s, a) == Some(tag)
      requires (a == Arm(t) && kind == Accept) || (a == Answer(t) && kind == Respond)
      modifies this`ops
      ensures Matches(s') && Leads(s, t, steps, s') && Reachable(queues, s') && s'.accepted == s.accepted
      ensures |ops| == |old(ops)| + 1
      ensures s'.threads == s.threads[t := if a.Arm? then Onwards(s.threads[t]) else AtNext]
    {
      LeadsOn(queues, s, t, [], s, a);
      ShowsStart(status, queue, ops, s, t, tag, a);
      if Op(kind, tag, queue[tag]) in ops { StartsAreFresh(queues, s, a, Op(kind, tag, queue[tag])); }
      ops := ops + {Op(kind, tag, queue[tag])};
      steps, s' := [] + [a], Apply(s, a);
    }

    /** The CREATE case. */
    method ToProcess(tag: nat, ghost queues: seq<nat>, ghost s: State, ghost t: nat)
      returns (ghost steps: seq<Step>, ghost s': State)
      requires Reachable(queues, s) && Matches(s) && t < |s.threads| && s.threads[t].Constructing?
      requires s.threads[t].obj == tag
      modifies this
      ensures Matches(s') && Leads(s, t, steps, s') && Reachable(queues, s')
      ensures s'.accepted == s.accepted
      ensures |ops| == |old(ops)| + 1
      ensures s'.threads == s.threads[t := Back(s.threads[t])]
      decreases 0, 0
    {
      StatusByPosition(queues, s, t);
      ghost var p, m, q;
      p, m := WriteStatus(tag, Process, SetProcess(t), queues, s, t);
      StatusByPosition(queues, m, t);
      q, s' := StartOp(tag, Accept, Arm(t), queues, m, t);
      steps := p + q;
      LeadsTo(s, t, p, m, q, s');
      MovesTwice(s.threads, m.threads, s'.threads, t, m.threads[t], Back(s.threads[t]));
    }

    /** The PROCESS case, after its successor has been created. */
    method ToFinish(tag: nat, ghost queues: seq<nat>, ghost s: State, ghost t: nat)
      returns (ghost steps: seq<Step>, ghost s': State)
      requires Reachable(queues, s) && Matches(s) && t < |s.threads| && s.threads[t] == Finishing(tag)
      modifies this
      ensures Matches(s') && Leads(s, t, steps, s') && Reachable(queues, s')
      ensures s'.accepted == s.accepted
      ensures |ops| == |old(ops)| + 1
      ensures s'.threads == s.threads[t := AtNext]
    {
      StatusByPosition(queues, s, t);
      ghost var p, m, q;
      p, m := WriteStatus(tag, Finish, SetFinish(t), queues, s, t);
      StatusByPosition(queues, m, t);
      q, s' := StartOp(tag, Respond, Answer(t), queues, m, t);
      steps := p + q;
      LeadsTo(s, t, p, m, q, s');
      MovesTwice(s.threads, m.threads, s'.threads, t, m.threads[t], AtNext);
    }

    /** Takes some finished operation off the queue. */
    method Next(cq: nat, ghost s: State) returns (op: Op, ghost s': State)
      requires Reachable([cq], s) && Matches(s) && s.threads == [AtNext]
      modifies this
      ensures op in old(ops) && Reachable([cq], s') && Matches(s') && s'.threads == [Dispatch(op.tag)]
      ensures |s'.accepted| == |s.accepted| + if op.kind.Accept? then 1 else 0
      ensures |ops| == |old(ops)| - 1 && StatusIs(s', op.tag, if op.kind.Accept? then Process else Finish)
    {
      Waiting(cq, s);
      op :| op in ops;
      LeadsOn([cq], s, 0, [], s, Deliver(0, op));
      ShowsDelivery(status, queue, ops, s, op);
      s' := Apply(s, Deliver(0, op));
      ops := ops - {op};
    }

    /** The loop of a server with one queue and one thread, for its first n events. Next never waits in
        vain; afterwards one call is armed for accept, every other call is waiting for its answer to
        go out, and each request served has been answered once. The n events are the accepts and the answers that are
        out: all but those still among the operations. */
    method HandleRpcs(cq: nat, n: nat) returns (served: nat, ghost s: State)
      requires status == map[] && queue == map[] && ops == {}
      modifies this
      ensures Reachable([cq], s) && Matches(s)
      ensures exists op :: Accepts(s, cq) == {op}
      ensures forall op | op in ops :: op.tag in status && status[op.tag] == if op.kind.Accept? then Process else Finish
      ensures status.Keys == set op | op in ops :: op.tag
      ensures served == |s.accepted| == |s.finished| <= n
      ensures n == served + (served - (|ops| - 1))
    {
      s, served := Initial([cq]), 0;
      assert Run(s, []) == Reached(s);
      ghost var steps;
      var address;
      address, steps, s := Create(cq, [cq], s, 0);
      for i := 0 to n
        invariant Reachable([cq], s) && Matches(s) && s.threads == [AtNext]
        invariant served == |s.accepted| <= i == served + (served - (|ops| - 1))
      {
        var op;
        op, s := Next(cq, s);
        served := if op.kind.Accept? then served + 1 else served;
        steps, s := Proceed(op.tag, [cq], s, 0);
      }
      Waiting(cq, s);
    }
  }
}
