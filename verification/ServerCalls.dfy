/** The asynchronous server calls: objects whose address is their completion tag, driven by any number
    of threads over any assignment of threads to completion queues, one memory step at a time. */
module ServerCalls {
  import opened Wire

  datatype Status = Create | Process | Finish

  /** Where a call is in its life; only status exists in the program. */
  datatype Stage = Building | Armed | Taken | Replaced | Answered | Closing

  datatype Call = Call(status: Status, queue: nat, stage: Stage, holder: nat, slot: nat, serial: nat)

  /** Accept completes when a request arrives, Respond when the reply has gone out. */
  datatype Kind = Accept | Respond

  datatype Op = Op(kind: Kind, tag: nat, queue: nat)

  /** What a thread does next. caller is the call whose PROCESS step is creating obj. */
  datatype Pc =
    | Start
    | Constructing(obj: nat, caller: Option<nat>)
    | Arming(obj: nat, caller: Option<nat>)
    | AtNext
    | Dispatch(tag: nat)
    | Finishing(tag: nat)
    | Responding(tag: nat)

  datatype State = State(
    objs: map<nat, Call>, ops: set<Op>, threads: seq<Pc>, queues: seq<nat>,
    slots: map<nat, nat>, home: map<nat, nat>, next: nat, accepted: seq<nat>, finished: seq<nat>)

  datatype Step =
    | Boot(t: nat, address: nat)
    | SetProcess(t: nat)
    | Arm(t: nat)
    | Deliver(t: nat, op: Op)
    | Replace(t: nat, address: nat)
    | Delete(t: nat)
    | SetFinish(t: nat)
    | Answer(t: nat)

  /** The allocator hands out any address that is not in use, perhaps one that was freed before. */
  predicate Enabled(s: State, a: Step) {
    && a.t < |s.threads| == |s.queues|
    && match a
       case Boot(t, address) => s.threads[t].Start? && address !in s.objs
       case SetProcess(t) => s.threads[t].Constructing?
       case Arm(t) => s.threads[t].Arming?
       case Deliver(t, op) => s.threads[t].AtNext? && op in s.ops && op.queue == s.queues[t]
       case Replace(t, address) =>
         s.threads[t].Dispatch? && StatusIs(s, s.threads[t].tag, Process) && address !in s.objs
       case Delete(t) => s.threads[t].Dispatch? && StatusIs(s, s.threads[t].tag, Finish)
       case SetFinish(t) => s.threads[t].Finishing?
       case Answer(t) => s.threads[t].Responding?
  }

  predicate StatusIs(s: State, a: nat, status: Status) {
    a in s.objs && s.objs[a].status == status
  }

  /** The object a step reads or writes. */
  function Touched(s: State, a: Step): Option<nat>
    requires Enabled(s, a)
  {
    match a
    case Boot(_, _) => None
    case SetProcess(t) => Some(s.threads[t].obj)
    case Arm(t) => Some(s.threads[t].obj)
    case Deliver(_, op) => Some(op.tag)
    case Replace(t, _) => Some(s.threads[t].tag)
    case Delete(t) => Some(s.threads[t].tag)
    case SetFinish(t) => Some(s.threads[t].tag)
    case Answer(t) => Some(s.threads[t].tag)
  }

  predicate TouchIsLive(s: State, a: Step)
    requires Enabled(s, a)
  {
    Touched(s, a).Some? ==> Touched(s, a).value in s.objs
  }

  function Born(s: State, t: nat, address: nat, queue: nat, slot: nat): State {
    s.(objs := s.objs[address := Call(Create, queue, Building, t, slot, s.next)],
       slots := s.slots[slot := address], home := s.home[s.next := address], next := s.next + 1)
  }

  function Apply(s: State, a: Step): State
    requires Enabled(s, a) && TouchIsLive(s, a)
  {
    match a
    case Boot(t, address) =>
      Born(s, t, address, s.queues[t], t).(threads := s.threads[t := Constructing(address, None)])
    case SetProcess(t) =>
      var o := s.threads[t].obj;
      s.(objs := s.objs[o := s.objs[o].(status := Process)], threads := s.threads[t := Arming(o, s.threads[t].caller)])
    case Arm(t) =>
      var o := s.threads[t].obj;
      s.(objs := s.objs[o := s.objs[o].(stage := Armed)],
         ops := s.ops + {Op(Accept, o, s.objs[o].queue)},
         threads := s.threads[t := if s.threads[t].caller.Some? then Finishing(s.threads[t].caller.value) else AtNext])
    case Deliver(t, op) =>
      var c := s.objs[op.tag];
      s.(objs := s.objs[op.tag := c.(stage := if op.kind.Accept? then Taken else Closing, holder := t)],
         ops := s.ops - {op},
         threads := s.threads[t := Dispatch(op.tag)],
         accepted := if op.kind.Accept? then s.accepted + [c.serial] else s.accepted)
    case Replace(t, address) =>
      var o := s.threads[t].tag;
      Born(s.(objs := s.objs[o := s.objs[o].(stage := Replaced)]), t, address, s.objs[o].queue, s.objs[o].slot)
        .(threads := s.threads[t := Constructing(address, Some(o))])
    case Delete(t) =>
      var o := s.threads[t].tag;
      s.(objs := s.objs - {o}, home := s.home - {s.objs[o].serial}, threads := s.threads[t := AtNext])
    case SetFinish(t) =>
      var o := s.threads[t].tag;
      s.(objs := s.objs[o := s.objs[o].(status := Finish)], threads := s.threads[t := Responding(o)])
    case Answer(t) =>
      var o := s.threads[t].tag;
      s.(objs := s.objs[o := s.objs[o].(stage := Answered)],
         ops := s.ops + {Op(Respond, o, s.objs[o].queue)},
         threads := s.threads[t := AtNext],
         finished := s.finished + [s.objs[o].serial])
  }

  function Initial(queues: seq<nat>): State {
    State(map[], {}, seq(|queues|, _ => Start), queues, map[], map[], 0, [], [])
  }

  // ---- the invariant ----

  predicate Holds(s: State, a: nat, t: nat, stage: Stage, status: Status) {
    a in s.objs && s.objs[a].stage == stage && s.objs[a].status == status && s.objs[a].holder == t && OnQueueOf(s, a, t)
  }

  predicate OnQueueOf(s: State, a: nat, t: nat)
    requires a in s.objs
  {
    t < |s.queues| && s.objs[a].queue == s.queues[t]
  }

  /** A thread holds the calls it mentions, of its own queue and in the right stage. */
  predicate PcOk(s: State, t: nat)
    requires t < |s.threads|
  {
    match s.threads[t]
    case Start => true
    case AtNext => true
    case Constructing(o, k) => Holds(s, o, t, Building, Create) && (k.Some? ==> Holds(s, k.value, t, Replaced, Process))
    case Arming(o, k) => Holds(s, o, t, Building, Process) && (k.Some? ==> Holds(s, k.value, t, Replaced, Process))
    case Dispatch(o) => Holds(s, o, t, Taken, Process) || Holds(s, o, t, Closing, Finish)
    case Finishing(o) => Holds(s, o, t, Replaced, Process)
    case Responding(o) => Holds(s, o, t, Replaced, Finish)
  }

  predicate Mentions(pc: Pc, a: nat) {
    match pc
    case Start => false
    case AtNext => false
    case Constructing(o, k) => a == o || k == Some(a)
    case Arming(o, k) => a == o || k == Some(a)
    case Dispatch(o) => a == o
    case Finishing(o) => a == o
    case Responding(o) => a == o
  }

  /** A call in a queue has exactly the operation its status calls for; any other call is in the hands
      of exactly one thread. */
  predicate CallOk(s: State, a: nat)
    requires a in s.objs
  {
    var c := s.objs[a];
    match c.stage
    case Armed => c.status == Process && Op(Accept, a, c.queue) in s.ops
    case Answered => c.status == Finish && Op(Respond, a, c.queue) in s.ops
    case _ => c.holder < |s.threads| && Mentions(s.threads[c.holder], a)
  }

  predicate OpOk(s: State, op: Op) {
    && op.tag in s.objs && op.queue in s.queues && op.queue == s.objs[op.tag].queue
    && s.objs[op.tag].stage == if op.kind.Accept? then Armed else Answered
  }

  predicate Unreplaced(c: Call) {
    c.stage.Building? || c.stage.Armed? || c.stage.Taken?
  }

  ghost predicate Machine(s: State) {
    && |s.threads| == |s.queues|
    && (forall t: nat | t < |s.threads| :: PcOk(s, t))
    && (forall a | a in s.objs :: CallOk(s, a))
    && (forall op | op in s.ops :: OpOk(s, op))
  }

  /** Each started thread has exactly one call that is not yet replaced, on its own queue. */
  ghost predicate Slots(s: State) {
    && |s.threads| == |s.queues|
    && (forall t: nat :: t in s.slots <==> (t < |s.threads| && !s.threads[t].Start?))
    && (forall t | t in s.slots ::
          && s.slots[t] in s.objs && s.objs[s.slots[t]].slot == t && Unreplaced(s.objs[s.slots[t]])
          && t < |s.queues| && s.objs[s.slots[t]].queue == s.queues[t])
    && (forall a | a in s.objs && Unreplaced(s.objs[a]) :: s.objs[a].slot in s.slots && s.slots[s.objs[a].slot] == a)
  }

  predicate WasAccepted(c: Call) {
    !c.stage.Building? && !c.stage.Armed?
  }

  predicate WasFinished(c: Call) {
    c.stage.Answered? || c.stage.Closing?
  }

  predicate Distinct(s: seq<nat>) {
    forall i, j | 0 <= i < j < |s| :: s[i] != s[j]
  }

  /** Serial numbers name the live calls one to one. */
  ghost predicate Homes(s: State) {
    && (forall a | a in s.objs :: s.objs[a].serial in s.home && s.home[s.objs[a].serial] == a)
    && (forall n | n in s.home :: n < s.next && s.home[n] in s.objs && s.objs[s.home[n]].serial == n)
  }

  predicate LogOk(s: State, a: nat)
    requires a in s.objs
  {
    && (s.objs[a].serial in s.accepted <==> WasAccepted(s.objs[a]))
    && (s.objs[a].serial in s.finished <==> WasFinished(s.objs[a]))
  }

  /** Requests are accepted once and finished once, and a call is deleted only when finished. */
  ghost predicate History(s: State) {
    && Homes(s)
    && Distinct(s.accepted) && Distinct(s.finished)
    && (forall a | a in s.objs :: LogOk(s, a))
    && (forall n | n in s.finished :: n in s.accepted)
    && (forall n | n in s.accepted :: n < s.next)
    && (forall n: nat | n < s.next :: n in s.home || n in s.finished)
  }

  lemma InitialOk(queues: seq<nat>)
    ensures Machine(Initial(queues)) && Slots(Initial(queues)) && History(Initial(queues))
  {}

  /** No use after delete: what a step touches is live. */
  lemma TouchesLive(s: State, a: Step)
    requires Machine(s) && Enabled(s, a)
    ensures TouchIsLive(s, a)
  {
    assert PcOk(s, a.t);
    if a.Deliver? { assert OpOk(s, a.op); }
  }

  /** What another thread holds, no step of this thread changes. */
  lemma OthersKept(s: State, a: Step, t: nat, x: nat)
    requires Machine(s) && Enabled(s, a) && t < |s.threads| && t != a.t && Mentions(s.threads[t], x)
    requires TouchIsLive(s, a)
    ensures x in s.objs && x in Apply(s, a).objs && Apply(s, a).objs[x] == s.objs[x]
  {
    assert PcOk(s, a.t) && PcOk(s, t);
    if a.Deliver? { assert OpOk(s, a.op) && CallOk(s, a.op.tag); }
  }

  lemma PcFramed(s: State, s': State, t: nat)
    requires t < |s.threads| == |s'.threads| && s.threads[t] == s'.threads[t] && PcOk(s, t) && s.queues == s'.queues
    requires forall x | Mentions(s.threads[t], x) :: x in s.objs && x in s'.objs && s'.objs[x] == s.objs[x]
    ensures PcOk(s', t)
  {}

  lemma PcKeeps(s: State, a: Step, t: nat)
    requires Machine(s) && Enabled(s, a) && t < |s.threads|
    requires TouchIsLive(s, a)
    ensures |Apply(s, a).threads| == |s.threads| && PcOk(Apply(s, a), t)
  {
    var s' := Apply(s, a);
    if t != a.t {
      assert s'.threads[t] == s.threads[t] && PcOk(s, t);
      forall x | Mentions(s.threads[t], x) ensures x in s.objs && x in s'.objs && s'.objs[x] == s.objs[x] {
        OthersKept(s, a, t, x);
      }
      PcFramed(s, s', t);
    } else {
      assert PcOk(s, t);
      if a.Deliver? { assert OpOk(s, a.op) && CallOk(s, a.op.tag); }
    }
  }

  lemma CallKeeps(s: State, a: Step, x: nat)
    requires Machine(s) && Enabled(s, a)
    requires TouchIsLive(s, a)
    requires x in Apply(s, a).objs
    ensures CallOk(Apply(s, a), x)
  {
    assert PcOk(s, a.t);
    if x in s.objs { assert CallOk(s, x); }
    if a.Deliver? { assert OpOk(s, a.op); }
  }

  lemma OpKeeps(s: State, a: Step, op: Op)
    requires Machine(s) && Enabled(s, a)
    requires TouchIsLive(s, a)
    requires op in Apply(s, a).ops
    ensures OpOk(Apply(s, a), op)
  {
    assert PcOk(s, a.t);
    if op in s.ops { assert OpOk(s, op); }
    if a.Deliver? { assert OpOk(s, a.op); }
  }

  lemma MachineKeeps(s: State, a: Step)
    requires Machine(s) && Enabled(s, a)
    ensures TouchIsLive(s, a)
    ensures Machine(Apply(s, a))
  {
    TouchesLive(s, a);
    var s' := Apply(s, a);
    assert |s'.threads| == |s.threads| == |s'.queues|;
    forall t: nat | t < |s'.threads| ensures PcOk(s', t) { PcKeeps(s, a, t); }
    forall x | x in s'.objs ensures CallOk(s', x) { CallKeeps(s, a, x); }
    forall op | op in s'.ops ensures OpOk(s', op) { OpKeeps(s, a, op); }
  }

  /** Replacing is the only step that ends a call's turn as its thread's open call. */
  lemma SameOpenCalls(s: State, a: Step, x: nat)
    requires Machine(s) && Enabled(s, a) && !a.Boot? && !a.Replace?
    requires TouchIsLive(s, a)
    ensures IsOpen(s, x) <==> IsOpen(Apply(s, a), x)
    ensures IsOpen(s, x) ==> SameHome(s.objs[x], Apply(s, a).objs[x])
  {
    assert PcOk(s, a.t);
    if a.Deliver? { assert OpOk(s, a.op); }
  }

  predicate IsOpen(s: State, x: nat) {
    x in s.objs && Unreplaced(s.objs[x])
  }

  predicate SameHome(c: Call, d: Call) {
    c.slot == d.slot && c.queue == d.queue
  }

  lemma SlotsFramed(s: State, s': State)
    requires Slots(s) && s'.slots == s.slots && s'.queues == s.queues && |s'.threads| == |s.threads|
    requires forall t: nat | t < |s.threads| :: s.threads[t].Start? <==> s'.threads[t].Start?
    requires forall x: nat :: IsOpen(s, x) <==> IsOpen(s', x)
    requires forall x: nat :: IsOpen(s, x) && IsOpen(s', x) ==> SameHome(s.objs[x], s'.objs[x])
    ensures Slots(s')
  {
    forall t | t in s'.slots
      ensures IsOpen(s', s'.slots[t]) && s'.objs[s'.slots[t]].slot == t
      ensures t < |s'.queues| && s'.objs[s'.slots[t]].queue == s'.queues[t]
    {
      assert IsOpen(s, s.slots[t]);
    }
    forall a | a in s'.objs && Unreplaced(s'.objs[a])
      ensures s'.objs[a].slot in s'.slots && s'.slots[s'.objs[a].slot] == a
    {
      assert IsOpen(s', a);
      assert IsOpen(s, a);
    }
  }

  /** A new call takes over slot k from the call prev, if there is one. */
  lemma SlotTaken(s: State, s': State, k: nat, address: nat, prev: Option<nat>)
    requires Slots(s) && k < |s.threads| == |s'.threads| && s'.queues == s.queues && s'.slots == s.slots[k := address]
    requires address !in s.objs && IsOpen(s', address) && s'.objs[address].slot == k
    requires s'.objs[address].queue == s.queues[k]
    requires !s'.threads[k].Start?
    requires forall t: nat | t < |s.threads| && t != k :: s.threads[t].Start? <==> s'.threads[t].Start?
    requires forall x: nat | x != address :: IsOpen(s', x) <==> (IsOpen(s, x) && prev != Some(x))
    requires forall x: nat | x != address && IsOpen(s', x) && IsOpen(s, x) :: SameHome(s.objs[x], s'.objs[x])
    requires if prev.Some? then k in s.slots && s.slots[k] == prev.value else k !in s.slots
    ensures Slots(s')
  {
    forall t | t in s'.slots
      ensures IsOpen(s', s'.slots[t]) && s'.objs[s'.slots[t]].slot == t
      ensures t < |s'.queues| && s'.objs[s'.slots[t]].queue == s'.queues[t]
    {
      if t != k {
        assert IsOpen(s, s.slots[t]);
        assert s.objs[s.slots[t]].slot == t;
        assert prev.Some? ==> s.objs[prev.value].slot == k;
      }
    }
    forall a | a in s'.objs && Unreplaced(s'.objs[a])
      ensures s'.objs[a].slot in s'.slots && s'.slots[s'.objs[a].slot] == a
    {
      assert IsOpen(s', a);
      if a != address { assert IsOpen(s, a); }
    }
  }

  lemma SlotsBoot(s: State, a: Step)
    requires Machine(s) && Slots(s) && Enabled(s, a) && a.Boot?
    ensures Slots(Apply(s, a))
  {
    SlotTaken(s, Apply(s, a), a.t, a.address, None);
  }

  /** Replacing opens the new call, closes the old one, and changes no other. */
  lemma ReplaceOpens(s: State, a: Step, x: nat)
    requires Machine(s) && Enabled(s, a) && a.Replace? && TouchIsLive(s, a) && x != a.address
    ensures IsOpen(Apply(s, a), x) <==> IsOpen(s, x) && Some(s.threads[a.t].tag) != Some(x)
    ensures IsOpen(Apply(s, a), x) && IsOpen(s, x) ==> SameHome(s.objs[x], Apply(s, a).objs[x])
  {
    assert PcOk(s, a.t);
  }

  lemma SlotsReplace(s: State, a: Step)
    requires Machine(s) && Slots(s) && Enabled(s, a) && a.Replace?
    ensures Slots(Apply(s, a))
  {
    var o := s.threads[a.t].tag;
    TouchesLive(s, a);
    assert PcOk(s, a.t) && IsOpen(s, o);
    forall x: nat | x != a.address
      ensures IsOpen(Apply(s, a), x) <==> IsOpen(s, x) && Some(o) != Some(x)
      ensures IsOpen(Apply(s, a), x) && IsOpen(s, x) ==> SameHome(s.objs[x], Apply(s, a).objs[x])
    {
      ReplaceOpens(s, a, x);
    }
    SlotTaken(s, Apply(s, a), s.objs[o].slot, a.address, Some(o));
  }

  lemma SlotsKeep(s: State, a: Step)
    requires Machine(s) && Slots(s) && Enabled(s, a)
    ensures TouchIsLive(s, a)
    ensures Slots(Apply(s, a))
  {
    TouchesLive(s, a);
    if a.Boot? {
      SlotsBoot(s, a);
    } else if a.Replace? {
      SlotsReplace(s, a);
    } else {
      forall x: nat ensures IsOpen(s, x) <==> IsOpen(Apply(s, a), x)
                    ensures IsOpen(s, x) ==> SameHome(s.objs[x], Apply(s, a).objs[x]) {
        SameOpenCalls(s, a, x);
      }
      StartsKept(s, a);
      SlotsFramed(s, Apply(s, a));
    }
  }

  lemma StartsKept(s: State, a: Step)
    requires Machine(s) && Enabled(s, a) && !a.Boot? && !a.Replace?
    requires TouchIsLive(s, a)
    ensures Apply(s, a).slots == s.slots && Apply(s, a).queues == s.queues && |Apply(s, a).threads| == |s.threads|
    ensures forall t: nat | t < |s.threads| :: s.threads[t].Start? <==> Apply(s, a).threads[t].Start?
  {}

  lemma HomesKeep(s: State, a: Step)
    requires Machine(s) && Homes(s) && Enabled(s, a)
    requires TouchIsLive(s, a)
    ensures Homes(Apply(s, a))
  {
    assert PcOk(s, a.t);
    var s' := Apply(s, a);
    forall x | x in s'.objs ensures s'.objs[x].serial in s'.home && s'.home[s'.objs[x].serial] == x {
      if x in s.objs { assert s.home[s.objs[x].serial] == x; }
    }
    forall n | n in s'.home ensures n < s'.next && s'.home[n] in s'.objs && s'.objs[s'.home[n]].serial == n {
      if n in s.home { assert s.objs[s.home[n]].serial == n; }
    }
  }

  lemma Appended(s: seq<nat>, n: nat)
    requires Distinct(s) && n !in s
    ensures Distinct(s + [n])
  {}

  /** Only a delivered accept extends the one log, and only an answer the other, each with a new entry. */
  lemma LogsGrow(s: State, a: Step)
    requires Machine(s) && History(s) && Enabled(s, a)
    requires TouchIsLive(s, a)
    ensures Distinct(Apply(s, a).accepted) && Distinct(Apply(s, a).finished)
  {
    assert PcOk(s, a.t);
    if a.Deliver? && a.op.kind.Accept? {
      assert OpOk(s, a.op) && LogOk(s, a.op.tag);
      Appended(s.accepted, s.objs[a.op.tag].serial);
    } else if a.Answer? {
      var o := s.threads[a.t].tag;
      assert LogOk(s, o);
      Appended(s.finished, s.objs[o].serial);
    }
  }

  lemma LogOfDelivery(s: State, a: Step, x: nat)
    requires Machine(s) && History(s) && Enabled(s, a) && TouchIsLive(s, a) && a.Deliver? && x in s.objs
    ensures LogOk(Apply(s, a), x)
  {
    assert OpOk(s, a.op) && LogOk(s, x);
    SerialsDiffer(s, x, a.op.tag);
  }

  lemma LogOfAnswer(s: State, a: Step, x: nat)
    requires Machine(s) && History(s) && Enabled(s, a) && TouchIsLive(s, a) && a.Answer? && x in s.objs
    ensures LogOk(Apply(s, a), x)
  {
    assert PcOk(s, a.t) && LogOk(s, x);
    SerialsDiffer(s, x, s.threads[a.t].tag);
  }

  lemma LogOfBirth(s: State, a: Step, x: nat)
    requires Machine(s) && History(s) && Enabled(s, a) && TouchIsLive(s, a) && (a.Boot? || a.Replace?)
    requires x in Apply(s, a).objs
    ensures LogOk(Apply(s, a), x)
  {
    assert PcOk(s, a.t);
    if x in s.objs { assert LogOk(s, x); }
  }

  lemma LogKeeps(s: State, a: Step, x: nat)
    requires Machine(s) && History(s) && Enabled(s, a) && TouchIsLive(s, a)
    requires x in Apply(s, a).objs
    ensures LogOk(Apply(s, a), x)
  {
    match a
    case Deliver(_, _) => LogOfDelivery(s, a, x);
    case Answer(_) => LogOfAnswer(s, a, x);
    case Boot(_, _) => LogOfBirth(s, a, x);
    case Replace(_, _) => LogOfBirth(s, a, x);
    case _ => assert PcOk(s, a.t) && LogOk(s, x);
  }

  lemma SerialsDiffer(s: State, x: nat, y: nat)
    requires Homes(s) && x in s.objs && y in s.objs
    ensures s.objs[x].serial == s.objs[y].serial <==> x == y
  {
    assert s.home[s.objs[x].serial] == x;
  }

  lemma SerialsKeep(s: State, a: Step, n: nat)
    requires Machine(s) && History(s) && Enabled(s, a)
    requires TouchIsLive(s, a)
    ensures n in Apply(s, a).finished ==> n in Apply(s, a).accepted
    ensures n in Apply(s, a).accepted ==> n < Apply(s, a).next
    ensures n < Apply(s, a).next ==> n in Apply(s, a).home || n in Apply(s, a).finished
  {
    assert PcOk(s, a.t);
    if a.Deliver? { assert OpOk(s, a.op) && s.home[s.objs[a.op.tag].serial] == a.op.tag; }
    if a.Answer? || a.Delete? { assert LogOk(s, s.threads[a.t].tag); }
  }

  lemma HistoryKeeps(s: State, a: Step)
    requires Machine(s) && History(s) && Enabled(s, a)
    ensures TouchIsLive(s, a)
    ensures History(Apply(s, a))
  {
    TouchesLive(s, a);
    HomesKeep(s, a);
    LogsGrow(s, a);
    var s' := Apply(s, a);
    forall x | x in s'.objs ensures LogOk(s', x) { LogKeeps(s, a, x); }
    forall n: nat ensures n in s'.finished ==> n in s'.accepted
                  ensures n in s'.accepted ==> n < s'.next
                  ensures n < s'.next ==> n in s'.home || n in s'.finished {
      SerialsKeep(s, a, n);
    }
  }

  // ---- whole runs ----

  datatype Outcome = Reached(state: State) | UseAfterDelete | NotEnabled

  /** Any interleaving of the threads; it stops where a step would touch a call that was deleted. */
  function Run(s: State, steps: seq<Step>): Outcome
    decreases |steps|
  {
    if steps == [] then Reached(s)
    else if !Enabled(s, steps[0]) then NotEnabled
    else if !TouchIsLive(s, steps[0]) then UseAfterDelete
    else Run(Apply(s, steps[0]), steps[1..])
  }

  ghost predicate Inv(s: State) {
    Machine(s) && Slots(s) && History(s)
  }

  lemma {:induction false} RunKeeps(s: State, steps: seq<Step>)
    requires Inv(s)
    ensures !Run(s, steps).UseAfterDelete?
    ensures Run(s, steps).Reached? ==> Inv(Run(s, steps).state)
    decreases |steps|
  {
    if steps != [] && Enabled(s, steps[0]) {
      TouchesLive(s, steps[0]);
      MachineKeeps(s, steps[0]);
      SlotsKeep(s, steps[0]);
      HistoryKeeps(s, steps[0]);
      RunKeeps(Apply(s, steps[0]), steps[1..]);
    }
  }

  /** No interleaving delivers the tag of a deleted call or touches one. */
  lemma NoUseAfterDelete(queues: seq<nat>, steps: seq<Step>)
    ensures !Run(Initial(queues), steps).UseAfterDelete?
  {
    InitialOk(queues);
    RunKeeps(Initial(queues), steps);
  }

  ghost predicate Reachable(queues: seq<nat>, s: State) {
    exists steps: seq<Step> :: Run(Initial(queues), steps) == Reached(s)
  }

  lemma ReachableInv(queues: seq<nat>, s: State)
    requires Reachable(queues, s)
    ensures Inv(s)
  {
    InitialOk(queues);
    var steps: seq<Step> :| Run(Initial(queues), steps) == Reached(s);
    RunKeeps(Initial(queues), steps);
  }

  /** A live call is either in its queue, under the one operation its status calls for, or in the hands
      of exactly one thread with no operation outstanding. */
  lemma OneOutstandingOperation(queues: seq<nat>, s: State, a: nat)
    requires Reachable(queues, s) && a in s.objs
    ensures forall p, q | p in s.ops && q in s.ops && p.tag == a && q.tag == a :: p == q
    ensures forall op | op in s.ops && op.tag == a ::
              op.queue == s.objs[a].queue && s.objs[a].status == (if op.kind.Accept? then Process else Finish)
    ensures (exists op :: op in s.ops && op.tag == a) <==>
            !(exists t: nat :: t < |s.threads| && Mentions(s.threads[t], a))
    ensures forall t: nat, u: nat | t < |s.threads| && u < |s.threads| ::
              Mentions(s.threads[t], a) && Mentions(s.threads[u], a) ==> t == u
  {
    ReachableInv(queues, s);
    forall t: nat | t < |s.threads| && Mentions(s.threads[t], a)
      ensures s.objs[a].holder == t && !InQueue(s.objs[a]) {
      HolderIsHeld(s, a, t);
    }
    forall op | op in s.ops && op.tag == a
      ensures op == OpOf(s, a) && InQueue(s.objs[a]) {
      OpIsOf(s, op);
    }
    assert CallOk(s, a);
  }

  predicate InQueue(c: Call) {
    c.stage.Armed? || c.stage.Answered?
  }

  /** The operation a queued call is waiting for. */
  function OpOf(s: State, a: nat): Op
    requires a in s.objs
  {
    Op(if s.objs[a].status == Process then Accept else Respond, a, s.objs[a].queue)
  }

  lemma HolderIsHeld(s: State, a: nat, t: nat)
    requires Inv(s) && a in s.objs && t < |s.threads| && Mentions(s.threads[t], a)
    ensures s.objs[a].holder == t && !InQueue(s.objs[a])
  {
    assert PcOk(s, t);
  }

  lemma OpIsOf(s: State, op: Op)
    requires Inv(s) && op in s.ops
    ensures op.tag in s.objs && op == OpOf(s, op.tag) && InQueue(s.objs[op.tag])
    ensures s.objs[op.tag].status == (if op.kind.Accept? then Process else Finish)
  {
    assert OpOk(s, op) && CallOk(s, op.tag);
  }

  /** An operation is started only on a call that has none, so none is ever lost in the set. */
  lemma StartsAreFresh(queues: seq<nat>, s: State, step: Step, op: Op)
    requires Reachable(queues, s) && Enabled(s, step) && (step.Arm? || step.Answer?)
    requires op in s.ops
    ensures Touched(s, step) != Some(op.tag)
  {
    ReachableInv(queues, s);
    assert OpOk(s, op) && PcOk(s, step.t);
  }

  /** Every request is accepted at most once and answered at most once, never answered before it is
      accepted, and between events nothing accepted is left without its answer. */
  lemma OneFinishPerRequest(queues: seq<nat>, s: State)
    requires Reachable(queues, s)
    ensures Distinct(s.accepted) && Distinct(s.finished)
    ensures forall n | n in s.finished :: n in s.accepted
    ensures (forall t: nat | t < |s.threads| :: s.threads[t].AtNext?) ==> forall n | n in s.accepted :: n in s.finished
  {
    ReachableInv(queues, s);
    if forall t: nat | t < |s.threads| :: s.threads[t].AtNext? {
      forall n | n in s.accepted ensures n in s.finished {
        if n in s.home { assert CallOk(s, s.home[n]) && LogOk(s, s.home[n]); }
      }
    }
  }

  lemma {:induction false} FreshAddress(used: set<nat>) returns (bound: nat)
    ensures forall x | x in used :: x < bound
    decreases used
  {
    if used == {} {
      bound := 0;
    } else {
      var x :| x in used;
      bound := FreshAddress(used - {x});
      bound := if bound <= x then x + 1 else bound;
      assert forall y | y in used :: y == x || y in used - {x};
    }
  }

  /** What thread t does next; the address matters only where it creates a call. */
  function Onward(s: State, t: nat, address: nat): Step
    requires t < |s.threads| && !s.threads[t].AtNext?
  {
    match s.threads[t]
    case Start => Boot(t, address)
    case Constructing(_, _) => SetProcess(t)
    case Arming(_, _) => Arm(t)
    case Dispatch(a) => if StatusIs(s, a, Process) then Replace(t, address) else Delete(t)
    case Finishing(_) => SetFinish(t)
    case Responding(_) => Answer(t)
  }

  lemma OnwardIsEnabled(s: State, t: nat, address: nat)
    requires t < |s.threads| == |s.queues| && !s.threads[t].AtNext? && PcOk(s, t) && address !in s.objs
    ensures Enabled(s, Onward(s, t, address))
  {}

  lemma OnwardFalls(s: State, t: nat, address: nat)
    requires t < |s.threads| && !s.threads[t].AtNext? && Enabled(s, Onward(s, t, address))
    requires TouchIsLive(s, Onward(s, t, address))
    ensures Remaining(Apply(s, Onward(s, t, address)).threads[t]) < Remaining(s.threads[t])
  {}

  /** A thread in the middle of Proceed is never stuck: some step of its own is enabled, and at most five
      of them bring it back to Next. */
  lemma ProceedReturns(queues: seq<nat>, s: State, t: nat) returns (step: Step)
    requires Reachable(queues, s) && t < |s.threads| && !s.threads[t].AtNext?
    ensures Enabled(s, step) && step.t == t && TouchIsLive(s, step)
    ensures Remaining(Apply(s, step).threads[t]) < Remaining(s.threads[t]) <= 5
  {
    ReachableInv(queues, s);
    assert PcOk(s, t);
    var address := FreshAddress(s.objs.Keys);
    step := Onward(s, t, address);
    OnwardIsEnabled(s, t, address);
    TouchesLive(s, step);
    OnwardFalls(s, t, address);
  }

  /** Steps left before the thread waits again. */
  function Remaining(pc: Pc): nat {
    match pc
    case Start => 3
    case Dispatch(_) => 5
    case Constructing(_, caller) => if caller.Some? then 4 else 2
    case Arming(_, caller) => if caller.Some? then 3 else 1
    case Finishing(_) => 2
    case Responding(_) => 1
    case AtNext => 0
  }

  function Accepts(s: State, q: nat): set<Op> {
    set op | op in s.ops && op.kind.Accept? && op.queue == q
  }

  function ThreadsOn(queues: seq<nat>, q: nat): set<nat> {
    set t: nat | t < |queues| && queues[t] == q
  }

  lemma {:induction false} SameSize(ts: set<nat>, ops: set<Op>, f: map<nat, Op>)
    requires f.Keys == ts && (forall t | t in ts :: f[t] in ops)
    requires forall op | op in ops :: exists t :: t in ts && f[t] == op
    requires forall t, u | t in ts && u in ts && f[t] == f[u] :: t == u
    ensures |ts| == |ops|
    decreases ts
  {
    if ts == {} {
      assert forall op :: op !in ops;
    } else {
      var t :| t in ts;
      forall op | op in ops - {f[t]} ensures exists u :: u in ts - {t} && (f - {t})[u] == op {
        var u :| u in ts && f[u] == op;
        assert u in ts - {t} && (f - {t})[u] == op;
      }
      SameSize(ts - {t}, ops - {f[t]}, f - {t});
    }
  }

  lemma HolderIsBusy(s: State, a: nat)
    requires Inv(s) && a in s.objs
    ensures s.objs[a].stage.Armed? || s.objs[a].stage.Answered? || BusyOn(s, s.objs[a].holder, s.objs[a].queue)
  {
    assert CallOk(s, a);
    if s.objs[a].holder < |s.threads| { assert PcOk(s, s.objs[a].holder); }
  }

  predicate BusyOn(s: State, t: nat, q: nat) {
    t < |s.threads| && t < |s.queues| && s.queues[t] == q && !s.threads[t].AtNext?
  }

  /** A thread that is waiting has its open call in its queue. */
  lemma OpenCallIsArmed(s: State, q: nat, t: nat)
    requires Inv(s) && t < |s.threads| && s.queues[t] == q
    requires forall u: nat :: !BusyOn(s, u, q)
    ensures t in s.slots && Op(Accept, s.slots[t], q) in s.ops
  {
    assert !BusyOn(s, t, q);
    assert CallOk(s, s.slots[t]);
    HolderIsBusy(s, s.slots[t]);
  }

  /** Whatever the other threads are doing, while all threads of a queue are between events the queue has
      exactly as many calls armed for accept as it has threads: one, where each thread has its own. */
  lemma ArmedCallsMatchThreads(queues: seq<nat>, s: State, q: nat)
    requires Reachable(queues, s)
    requires forall t: nat :: !BusyOn(s, t, q)
    ensures |Accepts(s, q)| == |ThreadsOn(s.queues, q)|
  {
    ReachableInv(queues, s);
    var ts := ThreadsOn(s.queues, q);
    forall t | t in ts ensures t in s.slots && Op(Accept, s.slots[t], q) in s.ops { OpenCallIsArmed(s, q, t); }
    var f := map t | t in ts :: Op(Accept, s.slots[t], q);
    forall op | op in Accepts(s, q) ensures exists t :: t in ts && f[t] == op {
      assert OpOk(s, op);
      var t := s.objs[op.tag].slot;
      assert t in ts && f[t] == op;
    }
    SameSize(ts, Accepts(s, q), f);
  }

  lemma {:induction false} QueuesFixed(s: State, steps: seq<Step>)
    requires Run(s, steps).Reached?
    ensures Run(s, steps).state.queues == s.queues
    decreases |steps|
  {
    if steps == [] {
    } else {
      QueuesFixed(Apply(s, steps[0]), steps[1..]);
    }
  }

  /** One queue per thread: at each of its own event boundaries a thread has one armed call. */
  lemma OneArmedCall(queues: seq<nat>, s: State, t: nat)
    requires Reachable(queues, s) && t < |s.threads| == |queues| && s.threads[t].AtNext?
    requires forall u: nat | u < |queues| && u != t :: queues[u] != queues[t]
    ensures exists op :: Accepts(s, queues[t]) == {op}
  {
    var steps: seq<Step> :| Run(Initial(queues), steps) == Reached(s);
    QueuesFixed(Initial(queues), steps);
    ArmedCallsMatchThreads(queues, s, queues[t]);
    assert ThreadsOn(s.queues, queues[t]) == {t};
    var ops := Accepts(s, queues[t]);
    var op :| op in ops;
    assert |ops - {op}| == 0;
    assert ops == {op};
  }
}
