/** Which way a result goes: what a poll makes of the slot, what giving up decides for good, the schedules that use
    the slot and the one that goes round it, and which posts of a stream are batched. */
module CompletionPaths {
  import opened CompletionBatch
  import opened Seqs

  /** The state after `steps` more. */
  function Onward(s: State, steps: seq<Step>): State
    decreases |steps|
  {
    if |steps| == 0 then s else Onward(Apply(s, steps[0]), steps[1..])
  }

  lemma {:induction false} RunOnward(before: seq<Step>, after: seq<Step>)
    ensures Run(before + after) == Onward(Run(before), after)
    decreases |after|
  {
    hide Apply;
    if |after| == 0 {
      NilRight(before);
    } else {
      RunThen(before, after[0]);
      RunOnward(before + [after[0]], after[1..]);
      Assoc(before, [after[0]], after[1..]);
      assert [after[0]] + after[1..] == after;
    }
  }

  /** Everything but the job of `id` and the slot. */
  ghost predicate SameAround(s: State, t: State, id: nat) {
    && t.nextId == s.nextId && t.bound == s.bound && t.coalesced == s.coalesced && t.ports == s.ports && t.direct == s.direct
    && t.jobs.Keys == s.jobs.Keys && forall k | k in s.jobs && k != id :: t.jobs[k] == s.jobs[k]
  }

  /** One poll of a spinning isolate. A result in the slot is taken; a parked slot is waited for no longer; an
      empty one is left alone, or parked when the isolate gives up, which it then does. */
  lemma PollSettles(s: State, id: nat, giveUp: bool)
    requires id in s.jobs && s.jobs[id].reader.Spinning?
    ensures var t := Apply(s, Poll(id, giveUp));
      && SameAround(s, t, id) && t.jobs[id] == s.jobs[id].(reader := t.jobs[id].reader)
      && t.slot.owner == s.slot.owner && t.slot.payload == s.slot.payload
      && (s.slot.flag == Done ==> t.jobs[id].reader == Copying && t.slot == s.slot)
      && (s.slot.flag == Parked ==> t.jobs[id].reader == Waiting && t.slot == s.slot)
      && (s.slot.flag == Pending && !giveUp ==> t == s)
      && (s.slot.flag == Pending && giveUp ==> t.jobs[id].reader == Waiting && t.slot.flag == Parked)
  {
    assert s.jobs[id := s.jobs[id]] == s.jobs;
  }

  // ----- Giving up decides -----

  lemma WaitsOn(s: State, id: nat, step: Step)
    requires id in s.jobs && id <= s.nextId && s.jobs[id].reader.Waiting?
    ensures var t := Apply(s, step); id in t.jobs && id <= t.nextId && t.jobs[id].reader.Waiting?
  {
  }

  lemma {:induction false} WaitsForGood(s: State, id: nat, steps: seq<Step>)
    requires id in s.jobs && id <= s.nextId && s.jobs[id].reader.Waiting?
    ensures var t := Onward(s, steps); id in t.jobs && t.jobs[id].reader.Waiting?
    decreases |steps|
  {
    if |steps| > 0 {
      WaitsOn(s, id, steps[0]);
      hide Apply;
      WaitsForGood(Apply(s, steps[0]), id, steps[1..]);
    }
  }

  /** Over every schedule: once an isolate has given up on an empty slot, whatever its worker posts afterwards, and
      whoever acts in between, never ends in the slot; if it has ended, it is in the port the id was bound to, once. */
  lemma GivenUpGoesByPort(before: seq<Step>, id: nat, after: seq<Step>)
    requires ScalarResults(before + [Poll(id, true)] + after)
    requires var s := Run(before); id in s.jobs && s.jobs[id].reader.Spinning? && s.slot.flag == Pending
    ensures var t := Run(before + [Poll(id, true)] + after);
      && id in t.jobs && t.jobs[id].reader == Waiting
      && !t.jobs[id].worker.ViaSlot? && !t.jobs[id].worker.Erasing?
      && PortDelivery(t, id)
  {
    var polled := before + [Poll(id, true)];
    assert forall i | 0 <= i < |before| :: (polled + after)[i] == before[i];
    RunKeepsInv(before);
    RunThen(before, Poll(id, true));
    RunOnward(polled, after);
    PollSettles(Run(before), id, true);
    hide Run, Apply, SlotDelivery, PortDelivery, LogInv, BoundInv, PortsInv, JobOk;
    WaitsForGood(Run(polled), id, after);
    ExactlyOnce(polled + after, id);
  }

  // ----- The two ways -----

  /** One action of the isolate or of the worker, up to the point where the worker settles the id. */
  lemma Acts(s: State, id: nat, step: Step)
    requires id in s.jobs
    requires match step
      case Arm(k) => k == id
      case DoNotSpin(k) => k == id
      case Wipe(k) => k == id
      case Publish(k) => k == id
      case Disarm(k) => k == id
      case Dispatch(k, _) => k == id
      case Poll(k, _) => k == id
      case Copy(k) => k == id
      case Free(k) => k == id
      case Work(k) => k == id && !s.jobs[id].worker.Erasing? && !s.jobs[id].worker.Routing?
      case _ => false
    ensures var t, v := Apply(s, step), ViewStep(View(s.jobs[id], s.slot), id, step);
      id in t.jobs && View(t.jobs[id], t.slot) == v && SameAround(s, t, id)
  {
    hide ViewStep;
  }

  lemma OneThen(s: State, step: Step, rest: seq<Step>)
    ensures Onward(s, [step] + rest) == Onward(Apply(s, step), rest)
  {
    hide Apply;
    assert ([step] + rest)[1..] == rest;
  }

  /** An isolate that finds the slot free claims it, wipes it and opens it, and its call is made. */
  lemma SlotOpened(s: State, id: nat, value: Value)
    requires id in s.jobs && s.jobs[id].reader.Bound? && s.jobs[id].worker.Idle? && s.slot.owner == 0
    ensures var t := Onward(s, [Arm(id), Wipe(id), Publish(id), Dispatch(id, value)]);
      && SameAround(s, t, id) && t.jobs[id] == Job(s.jobs[id].port, value, Spinning, Loading)
      && t.slot == Slot(id, Pending, CLEARED)
  {
    hide Apply;
    var a, b := Apply(s, Arm(id)), Apply(Apply(s, Arm(id)), Wipe(id));
    var c := Apply(b, Publish(id));
    Acts(s, id, Arm(id));
    Acts(a, id, Wipe(id));
    Acts(b, id, Publish(id));
    Acts(c, id, Dispatch(id, value));
    OneThen(s, Arm(id), [Wipe(id), Publish(id), Dispatch(id, value)]);
    OneThen(a, Wipe(id), [Publish(id), Dispatch(id, value)]);
    OneThen(b, Publish(id), [Dispatch(id, value)]);
    OneThen(c, Dispatch(id, value), []);
    assert [Arm(id)] + [Wipe(id), Publish(id), Dispatch(id, value)] == [Arm(id), Wipe(id), Publish(id), Dispatch(id, value)];
    assert [Wipe(id)] + [Publish(id), Dispatch(id, value)] == [Wipe(id), Publish(id), Dispatch(id, value)];
    assert [Publish(id)] + [Dispatch(id, value)] == [Publish(id), Dispatch(id, value)];
    assert [Dispatch(id, value)] + [] == [Dispatch(id, value)];
  }

  /** A claimed slot sends the next isolate to wait for its port, and stays as it is. */
  lemma SlotTaken(s: State, id: nat)
    requires id in s.jobs && s.jobs[id].reader.Bound? && s.slot.owner != 0
    ensures var t := Apply(s, Arm(id));
      SameAround(s, t, id) && t.slot == s.slot && t.jobs[id] == s.jobs[id].(reader := Waiting)
  {
  }

  /** The worker finds its isolate spinning and leaves the result in the slot. */
  lemma ResultLeft(s: State, id: nat)
    requires id in s.jobs && s.jobs[id].reader.Spinning? && s.jobs[id].worker.Loading?
    requires Scalar(s.jobs[id].value) && s.slot.owner == id && s.slot.flag == Pending
    ensures var t := Onward(s, [Work(id), Work(id), Work(id)]);
      && SameAround(s, t, id) && t.jobs[id] == s.jobs[id].(worker := Erasing)
      && t.slot == Slot(id, Done, Extract(s.jobs[id].value))
  {
    hide Apply, Extract;
    var a, b := Apply(s, Work(id)), Apply(Apply(s, Work(id)), Work(id));
    Acts(s, id, Work(id));
    Acts(a, id, Work(id));
    Acts(b, id, Work(id));
    ThreeMore(s, id);
  }

  lemma ThreeMore(s: State, id: nat)
    ensures Onward(s, [Work(id), Work(id), Work(id)]) == Apply(Apply(Apply(s, Work(id)), Work(id)), Work(id))
  {
    hide Apply;
    var a, b := Apply(s, Work(id)), Apply(Apply(s, Work(id)), Work(id));
    OneThen(s, Work(id), [Work(id), Work(id)]);
    OneThen(a, Work(id), [Work(id)]);
    OneThen(b, Work(id), []);
    assert [Work(id)] + [Work(id), Work(id)] == [Work(id), Work(id), Work(id)];
    assert [Work(id)] + [Work(id)] == [Work(id), Work(id)];
    assert [Work(id)] + [] == [Work(id)];
  }

  /** It forgets the binding, and the isolate's next poll, giving up or not, takes the result and frees the slot. */
  lemma ResultTaken(s: State, id: nat, giveUp: bool)
    requires id in s.jobs && s.jobs[id].reader.Spinning? && s.jobs[id].worker.Erasing? && s.slot.flag == Done
    ensures var t := Onward(s, [Work(id), Poll(id, giveUp), Copy(id), Free(id)]);
      && id in t.jobs && t.jobs[id] == s.jobs[id].(worker := ViaSlot, reader := Got(s.slot.payload))
      && t.slot == s.slot.(owner := 0) && t.ports == s.ports && id !in t.bound
  {
    var a, b := Apply(s, Work(id)), Apply(Apply(s, Work(id)), Poll(id, giveUp));
    assert a == EraseBound(s, id);
    hide Apply;
    var c := Apply(b, Copy(id));
    Acts(a, id, Poll(id, giveUp));
    Acts(b, id, Copy(id));
    Acts(c, id, Free(id));
    OneThen(s, Work(id), [Poll(id, giveUp), Copy(id), Free(id)]);
    OneThen(a, Poll(id, giveUp), [Copy(id), Free(id)]);
    OneThen(b, Copy(id), [Free(id)]);
    OneThen(c, Free(id), []);
    assert [Work(id)] + [Poll(id, giveUp), Copy(id), Free(id)] == [Work(id), Poll(id, giveUp), Copy(id), Free(id)];
    assert [Poll(id, giveUp)] + [Copy(id), Free(id)] == [Poll(id, giveUp), Copy(id), Free(id)];
    assert [Copy(id)] + [Free(id)] == [Copy(id), Free(id)];
    assert [Free(id)] + [] == [Free(id)];
  }

  /** The worker finds the slot parked, or its isolate no longer spinning: it frees the slot and posts to the port. */
  lemma ResultPosted(s: State, id: nat)
    requires id in s.jobs && s.jobs[id].worker.Loading? && id in s.bound && s.bound[id] == s.jobs[id].port
    requires Scalar(s.jobs[id].value) && s.slot.owner == id && s.slot.flag == Parked
    ensures var job := s.jobs[id];
      var t := Onward(s, [Work(id), Work(id), Work(id)] + [Work(id), Work(id)]);
      && id in t.jobs && t.jobs[id] == job.(worker := ViaPort(|PortAt(s, job.port).log|)) && t.slot.owner == 0
      && PortAt(t, job.port).log == PortAt(s, job.port).log + [Completion(id, job.value)]
  {
    hide Extract;
    var a, b := Apply(s, Work(id)), Apply(Apply(s, Work(id)), Work(id));
    var c := Apply(b, Work(id));
    Acts(s, id, Work(id));
    Acts(a, id, Work(id));
    Acts(b, id, Work(id));
    ThreeMore(s, id);
    Acts(c, id, Work(id));
    var d := Apply(c, Work(id));
    assert d.jobs[id].worker.Routing? && Apply(d, Work(id)) == Route(d, id);
    OnwardTwice(s, [Work(id), Work(id), Work(id)], [Work(id), Work(id)]);
    OneThen(c, Work(id), [Work(id)]);
    OneThen(d, Work(id), []);
    assert [Work(id)] + [Work(id)] == [Work(id), Work(id)];
    assert [Work(id)] + [] == [Work(id)];
    hide Apply;
  }

  lemma {:induction false} OnwardTwice(s: State, a: seq<Step>, b: seq<Step>)
    ensures Onward(s, a + b) == Onward(Onward(s, a), b)
    decreases |a|
  {
    hide Apply;
    if |a| == 0 {
      NilLeft(b);
    } else {
      OnwardTwice(Apply(s, a[0]), a[1..], b);
      assert (a + b)[1..] == a[1..] + b;
    }
  }

  function Opening(id: nat, value: Value): seq<Step> {
    [Arm(id), Wipe(id), Publish(id), Dispatch(id, value)]
  }

  function Leaving(id: nat): seq<Step> {
    [Work(id), Work(id), Work(id)]
  }

  function Taking(id: nat, giveUp: bool): seq<Step> {
    [Work(id), Poll(id, giveUp), Copy(id), Free(id)]
  }

  /** From every reachable state in which the slot is free: an isolate that polls after its worker has posted has
      the value posted, no port has carried it, and the slot is free again. */
  lemma ThroughTheSlot(before: seq<Step>, id: nat, value: Value, giveUp: bool)
    requires var s := Run(before);
      && id in s.jobs && s.jobs[id].reader.Bound? && s.jobs[id].worker.Idle? && s.slot.owner == 0
    requires Scalar(value)
    ensures var s, t := Run(before), Run(before + (Opening(id, value) + (Leaving(id) + Taking(id, giveUp))));
      && id in t.jobs && t.jobs[id].reader.Got? && Decode(t.jobs[id].reader.payload) == value
      && t.jobs[id].worker == ViaSlot && id !in t.bound && t.slot.owner == 0 && t.ports == s.ports
  {
    var s := Run(before);
    RunOnward(before, Opening(id, value) + (Leaving(id) + Taking(id, giveUp)));
    OnwardTwice(s, Opening(id, value), Leaving(id) + Taking(id, giveUp));
    SlotOpened(s, id, value);
    var a := Onward(s, Opening(id, value));
    OnwardTwice(a, Leaving(id), Taking(id, giveUp));
    ResultLeft(a, id);
    ResultTaken(Onward(a, Leaving(id)), id, giveUp);
    DecodeOfExtract(value);
    hide Apply, Onward, Run, Extract, Decode;
  }

  /** The same, but the isolate gives up before its worker posts: the value joins its port and the slot is free. */
  lemma RoundTheSlot(before: seq<Step>, id: nat, value: Value)
    requires var s := Run(before);
      && id in s.jobs && s.jobs[id].reader.Bound? && s.jobs[id].worker.Idle? && s.slot.owner == 0
    requires ScalarResults(before) && Scalar(value)
    ensures var s := Run(before);
      var port, t := s.jobs[id].port, Run(before + (Opening(id, value) + ([Poll(id, true)] + (Leaving(id) + [Work(id), Work(id)]))));
      && id in t.jobs && t.jobs[id].reader == Waiting && t.jobs[id].worker.ViaPort? && t.slot.owner == 0
      && PortAt(t, port).log == PortAt(s, port).log + [Completion(id, value)]
  {
    var s, rest := Run(before), Leaving(id) + [Work(id), Work(id)];
    RunKeepsInv(before);
    assert id in s.bound && s.bound[id] == s.jobs[id].port;
    hide Inv;
    RunOnward(before, Opening(id, value) + ([Poll(id, true)] + rest));
    OnwardTwice(s, Opening(id, value), [Poll(id, true)] + rest);
    SlotOpened(s, id, value);
    var a := Onward(s, Opening(id, value));
    OneThen(a, Poll(id, true), rest);
    PollSettles(a, id, true);
    ResultPosted(Apply(a, Poll(id, true)), id);
    hide Apply, Onward, Run;
  }

  /** A worker whose slot is not its own goes to its port. */
  lemma PostsToPort(s: State, id: nat)
    requires id in s.jobs && s.jobs[id].worker.Routing? && id in s.bound && s.bound[id] == s.jobs[id].port
    ensures var job, t := s.jobs[id], Onward(s, [Work(id)]);
      && id in t.jobs && t.jobs[id] == job.(worker := ViaPort(|PortAt(s, job.port).log|)) && t.slot == s.slot
      && PortAt(t, job.port).log == PortAt(s, job.port).log + [Completion(id, job.value)]
  {
    OneThen(s, Work(id), []);
    assert [Work(id)] + [] == [Work(id)];
    assert Apply(s, Work(id)) == Route(s, id);
  }

  /** An isolate that finds the slot taken, or does not spin at all, waits, and its worker's result joins its port. */
  lemma WithoutTheSlot(before: seq<Step>, id: nat, first: Step, value: Value)
    requires var s := Run(before);
      && id in s.jobs && s.jobs[id].reader.Bound? && s.jobs[id].worker.Idle? && id in s.bound && s.slot.owner != id
    requires first == DoNotSpin(id) || (first == Arm(id) && Run(before).slot.owner != 0)
    ensures var s, t := Run(before), Run(before + ([first] + ([Dispatch(id, value)] + ([Work(id)] + [Work(id)]))));
      && id in t.jobs && t.jobs[id].reader == Waiting && t.jobs[id].worker.ViaPort? && t.slot == s.slot
      && PortAt(t, s.jobs[id].port).log == PortAt(s, s.jobs[id].port).log + [Completion(id, value)]
  {
    var s := Run(before);
    RunKeepsPorts(before);
    assert s.bound[id] == s.jobs[id].port;
    RunOnward(before, [first] + ([Dispatch(id, value)] + ([Work(id)] + [Work(id)])));
    hide Apply, Run;
    OneThen(s, first, [Dispatch(id, value)] + ([Work(id)] + [Work(id)]));
    Acts(s, id, first);
    var a := Apply(s, first);
    OneThen(a, Dispatch(id, value), [Work(id)] + [Work(id)]);
    Acts(a, id, Dispatch(id, value));
    var b := Apply(a, Dispatch(id, value));
    OneThen(b, Work(id), [Work(id)]);
    Acts(b, id, Work(id));
    hide Onward;
    PostsToPort(Apply(b, Work(id)), id);
  }

  /** A result that does not fit the slot parks the isolate that spins, frees the slot and joins its port. */
  lemma OtherResultsPark(before: seq<Step>, id: nat, value: Value, giveUp: bool)
    requires var s := Run(before);
      && id in s.jobs && s.jobs[id].reader.Bound? && s.jobs[id].worker.Idle? && s.slot.owner == 0 && id in s.bound
    requires !Scalar(value)
    ensures var s := Run(before);
      var t := Run(before + (Opening(id, value) + (Leaving(id) + ([Poll(id, giveUp)] + [Work(id)]))));
      && id in t.jobs && t.jobs[id].reader == Waiting && t.jobs[id].worker.ViaPort? && t.slot.owner == 0
      && PortAt(t, s.jobs[id].port).log == PortAt(s, s.jobs[id].port).log + [Completion(id, value)]
  {
    var s := Run(before);
    RunKeepsPorts(before);
    assert s.bound[id] == s.jobs[id].port;
    RunOnward(before, Opening(id, value) + (Leaving(id) + ([Poll(id, giveUp)] + [Work(id)])));
    OnwardTwice(s, Opening(id, value), Leaving(id) + ([Poll(id, giveUp)] + [Work(id)]));
    SlotOpened(s, id, value);
    var a := Onward(s, Opening(id, value));
    OnwardTwice(a, Leaving(id), [Poll(id, giveUp)] + [Work(id)]);
    ResultParks(a, id);
    var b := Onward(a, Leaving(id));
    OneThen(b, Poll(id, giveUp), [Work(id)]);
    PollSettles(b, id, giveUp);
    PostsToPort(Apply(b, Poll(id, giveUp)), id);
    hide Apply, Onward, Run, Extract;
  }

  lemma ResultParks(s: State, id: nat)
    requires id in s.jobs && s.jobs[id].reader.Spinning? && s.jobs[id].worker.Loading?
    requires !Scalar(s.jobs[id].value) && s.slot.owner == id && s.slot.flag == Pending
    ensures var t := Onward(s, [Work(id), Work(id), Work(id)]);
      && SameAround(s, t, id) && t.jobs[id] == s.jobs[id].(worker := Routing)
      && t.slot == s.slot.(owner := 0, flag := Parked)
  {
    hide Apply, Extract;
    var a, b := Apply(s, Work(id)), Apply(Apply(s, Work(id)), Work(id));
    Acts(s, id, Work(id));
    Acts(a, id, Work(id));
    Acts(b, id, Work(id));
    ThreeMore(s, id);
  }

  /** A call that throws before its worker exists gives its claim back, and its isolate is done with the id. */
  lemma DisarmAborts(s: State, id: nat, value: Value)
    requires id in s.jobs && s.jobs[id].reader.Spinning? && s.jobs[id].worker.Idle? && s.slot.owner == id
    ensures var t := Apply(s, Disarm(id));
      && SameAround(s, t, id) && t.slot == s.slot.(owner := 0) && t.jobs[id].worker.Idle?
      && Apply(t, Dispatch(id, value)) == t
  {
    Acts(s, id, Disarm(id));
    var t := Apply(s, Disarm(id));
    assert t.jobs[id := t.jobs[id]] == t.jobs;
  }

  // ----- Streams -----

  function OfStream(item: Item): seq<Item> {
    if item.StreamItem? then [item] else []
  }

  /** The stream items among a port's log or among what was posted directly. */
  function StreamPart(items: seq<Item>): seq<Item> {
    FlatMap(OfStream, items)
  }

  /** Whether the last word on `port` was that it batches its own items. */
  predicate Coalescing(steps: seq<Step>, port: nat) {
    if |steps| == 0 then false else
    match steps[|steps| - 1]
    case Coalesce(p) => p == port || Coalescing(steps[..|steps| - 1], port)
    case Uncoalesce(p) => p != port && Coalescing(steps[..|steps| - 1], port)
    case _ => Coalescing(steps[..|steps| - 1], port)
  }

  /** The items posted to `port` while it did. */
  function Batched(steps: seq<Step>, port: nat): seq<Item> {
    if |steps| == 0 then [] else
    var before, last := steps[..|steps| - 1], steps[|steps| - 1];
    Batched(before, port)
      + if last.PostItem? && last.port == port && Coalescing(before, port) then [StreamItem(last.value)] else []
  }

  /** The items posted to any port while it did not. */
  function Unbatched(steps: seq<Step>): seq<Item> {
    if |steps| == 0 then [] else
    var before, last := steps[..|steps| - 1], steps[|steps| - 1];
    Unbatched(before) + if last.PostItem? && !Coalescing(before, last.port) then [StreamItem(last.value)] else []
  }

  /** What a step adds to the log of `port`, and what it posts directly. */
  function LoggedBy(s: State, step: Step, port: nat): seq<Item> {
    match step
    case PostItem(p, value) => if p == port && port in s.coalesced then [StreamItem(value)] else []
    case Work(id) =>
      if id in s.jobs && s.jobs[id].worker.Routing? && id in s.bound && s.bound[id] == port
      then [Completion(id, s.jobs[id].value)] else []
    case _ => []
  }

  function DirectBy(s: State, step: Step): seq<Item> {
    match step
    case PostItem(p, value) => if p in s.coalesced then [] else [StreamItem(value)]
    case Work(id) =>
      if id in s.jobs && s.jobs[id].worker.Routing? && id !in s.bound then [Completion(id, s.jobs[id].value)] else []
    case _ => []
  }

  lemma StepLogs(s: State, step: Step, port: nat)
    ensures var t := Apply(s, step);
      && PortAt(t, port).log == PortAt(s, port).log + LoggedBy(s, step, port)
      && t.direct == s.direct + DirectBy(s, step)
  {
    hide ViewStep;
    NilRight(PortAt(s, port).log);
    NilRight(s.direct);
    match step {
      case Work(_) =>
      case PostItem(_, _) =>
      case _ =>
    }
  }

  lemma StepCoalesces(s: State, step: Step, port: nat)
    ensures port in Apply(s, step).coalesced
      <==> step == CompletionBatch.Coalesce(port) || (port in s.coalesced && step != Uncoalesce(port))
  {
    hide ViewStep;
  }

  /** The stream items a step adds. */
  lemma StepStreams(s: State, step: Step, port: nat)
    ensures StreamPart(LoggedBy(s, step, port))
      == if step.PostItem? && step.port == port && port in s.coalesced then [StreamItem(step.value)] else []
    ensures StreamPart(DirectBy(s, step)) == if step.PostItem? && step.port !in s.coalesced then [StreamItem(step.value)] else []
  {
    hide FlatMap;
    if step.PostItem? {
      StreamPartOfOne(StreamItem(step.value));
    } else if step.Work? && step.id in s.jobs {
      StreamPartOfOne(Completion(step.id, s.jobs[step.id].value));
    } else {
      StreamPartOfOne(StreamItem(Null));
    }
  }

  lemma StreamPartOfOne(item: Item)
    ensures StreamPart([item]) == OfStream(item) && StreamPart([]) == []
  {
    FlatMapOne(OfStream, item);
  }

  /** Over every schedule, and whatever is posted: the stream items a port has carried are those posted to it since
      it began to batch and until it was released, in the order posted; every other item was posted directly. */
  lemma {:induction false} StreamsGoTheirWay(steps: seq<Step>, port: nat)
    ensures var s := Run(steps);
      && (port in s.coalesced <==> Coalescing(steps, port))
      && StreamPart(PortAt(s, port).log) == Batched(steps, port)
      && StreamPart(s.direct) == Unbatched(steps)
  {
    if |steps| > 0 {
      var before, last := steps[..|steps| - 1], steps[|steps| - 1];
      var s := Run(before);
      StreamsGoTheirWay(before, port);
      if last.PostItem? {
        StreamsGoTheirWay(before, last.port);
      }
      StepLogs(s, last, port);
      FlatMapAppend(OfStream, PortAt(s, port).log, LoggedBy(s, last, port));
      FlatMapAppend(OfStream, s.direct, DirectBy(s, last));
      StepCoalesces(s, last, port);
      StepStreams(s, last, port);
      hide Apply, FlatMap, LoggedBy, DirectBy, PortAt;
    }
  }

  /** A port that was released starts afresh: the next item, once it batches again, goes out at once and alone. */
  lemma ReleasedStartsAfresh(steps: seq<Step>, port: nat, value: Value)
    ensures var s := PortAt(Run(steps), port);
      var t := PortAt(Run(steps + [Uncoalesce(port)] + [CompletionBatch.Coalesce(port)] + [CompletionBatch.PostItem(port, value)]), port);
      t.outbound == s.outbound + [[StreamItem(value)]] && t.pending == [] && t.freed == s.freed + s.pending && t.inFlight
  {
    RunThen(steps, Uncoalesce(port));
    RunThen(steps + [Uncoalesce(port)], CompletionBatch.Coalesce(port));
    RunThen(steps + [Uncoalesce(port)] + [CompletionBatch.Coalesce(port)], CompletionBatch.PostItem(port, value));
    hide Run;
  }
}
