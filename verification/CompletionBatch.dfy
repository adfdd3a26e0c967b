/** Completion batching: a result reaches Dart through one shared spin slot or through a batch message,
    never both and never neither. Isolates and workers, any number of them, take atomic steps in any
    order; each mutex-held region is one step, and so is the give-up of a poll with its reload. */
module CompletionBatch {
  import opened Seqs

  /** A posted object. `Other` is everything that is not a scalar. */
  datatype Value = Null | Int(i: int) | Double(bits: int) | Bool(b: bool) | Other(copyable: bool, what: nat)

  predicate Scalar(v: Value) {
    !v.Other?
  }

  predicate Copyable(v: Value) {
    v.Other? ==> v.copyable
  }

  const TAG_NULL := 0
  const TAG_INT := 1
  const TAG_DOUBLE := 2
  const TAG_BOOL := 3

  /** The slot's plain fields. */
  datatype Payload = Payload(tag: int, i: int, d: int)

  const CLEARED := Payload(TAG_NULL, 0, 0)

  function Extract(v: Value): Payload {
    match v
    case Null => CLEARED
    case Int(i) => Payload(TAG_INT, i, 0)
    case Double(bits) => Payload(TAG_DOUBLE, 0, bits)
    case Bool(b) => Payload(TAG_BOOL, if b then 1 else 0, 0)
    case Other(_, _) => CLEARED
  }

  /** What Dart makes of a slot it has copied, by its own reading of the tags. */
  function Decode(p: Payload): Value {
    if p.tag == 1 then Int(p.i)
    else if p.tag == 2 then Double(p.d)
    else if p.tag == 3 then Bool(p.i != 0)
    else Null
  }

  /** What goes into the slot comes out of it, and the fields that are not used are zero. */
  lemma DecodeOfExtract(v: Value)
    requires Scalar(v)
    ensures Decode(Extract(v)) == v
    ensures var p := Extract(v); (v.Null? || v.Double? ==> p.i == 0) && (v.Bool? ==> 0 <= p.i <= 1) && (!v.Double? ==> p.d == 0)
  {
  }

  datatype Flag = Pending | Done | Parked

  /** Owner 0 means the slot is free. */
  datatype Slot = Slot(owner: nat, flag: Flag, payload: Payload)

  /** Where the awaiting isolate is with one id. */
  datatype Reader =
    | Bound
    | Claimed
    | Wiped
    | Spinning
    | Copying
    | Copied(payload: Payload)
    | Got(payload: Payload)
    | Waiting
    | Aborted

  /** Where the worker is with its one `post` for an id. `ViaPort` remembers the place in the port's log. */
  datatype Worker =
    | Idle
    | Loading
    | Writing
    | Swapping
    | Parking
    | Erasing
    | Releasing
    | Routing
    | ViaSlot
    | ViaPort(at: nat)

  datatype Job = Job(port: nat, value: Value, reader: Reader, worker: Worker)

  datatype Item = Completion(id: nat, value: Value) | StreamItem(value: Value)

  /** One batch port. `outbound` holds messages decided under the lock and not yet posted; `log` is every
      item in lock order; `exact` falls once an object that cannot be copied has entered behind a message in
      flight, or a release has come by. `toAck`, `delivered`, `freed`, `log` and `exact` only record. */
  datatype Port = Port(
    inFlight: bool,
    pending: seq<Item>,
    outbound: seq<seq<Item>>,
    mailbox: seq<seq<Item>>,
    toAck: nat,
    delivered: seq<Item>,
    freed: seq<Item>,
    log: seq<Item>,
    exact: bool)

  const FRESH := Port(false, [], [], [], 0, [], [], [], true)

  datatype State = State(
    slot: Slot,
    nextId: nat,
    jobs: map<nat, Job>,
    bound: map<nat, nat>,
    coalesced: set<nat>,
    ports: map<nat, Port>,
    direct: seq<Item>)

  const INITIAL := State(Slot(0, Parked, CLEARED), 0, map[], map[], {}, map[], [])

  datatype Step =
    // An awaiting isolate.
    | Bind(port: nat)
    | Arm(id: nat)
    | DoNotSpin(id: nat)
    | Wipe(id: nat)
    | Publish(id: nat)
    | Disarm(id: nat)
    | Dispatch(id: nat, value: Value)
    | Poll(id: nat, giveUp: bool)
    | Copy(id: nat)
    | Free(id: nat)
    // A worker, one atomic action of `post`.
    | Work(id: nat)
    // Batch ports and streams.
    | Coalesce(port: nat)
    | Uncoalesce(port: nat)
    | PostItem(port: nat, value: Value)
    | Send(port: nat, k: nat)
    | Handle(port: nat)
    | Ack(port: nat)

  // ----- The slot, seen from one job -----

  datatype View = View(job: Job, slot: Slot)

  function PollView(v: View, giveUp: bool): View {
    var flag := if giveUp && v.slot.flag == Pending then Parked else v.slot.flag;
    var reader := match flag case Pending => Spinning case Done => Copying case Parked => Waiting;
    View(v.job.(reader := reader), v.slot.(flag := flag))
  }

  /** The worker's actions up to `Routing`. */
  function WorkView(v: View, id: nat): View {
    var w := v.job.worker;
    if w.Loading? then
      View(v.job.(worker := if v.slot.owner != id then Routing else if Scalar(v.job.value) then Writing else Parking), v.slot)
    else if w.Writing? then View(v.job.(worker := Swapping), v.slot.(payload := Extract(v.job.value)))
    else if w.Swapping? then
      if v.slot.flag == Pending then View(v.job.(worker := Erasing), v.slot.(flag := Done))
      else View(v.job.(worker := Releasing), v.slot)
    else if w.Parking? then
      View(v.job.(worker := Releasing), if v.slot.flag == Pending then v.slot.(flag := Parked) else v.slot)
    else if w.Releasing? then View(v.job.(worker := Routing), v.slot.(owner := 0))
    else v
  }

  function ViewStep(v: View, id: nat, step: Step): View {
    var r := v.job.reader;
    match step
    case Arm(_) =>
      if !r.Bound? then v
      else if v.slot.owner == 0 then View(v.job.(reader := Claimed), v.slot.(owner := id))
      else View(v.job.(reader := Waiting), v.slot)
    case DoNotSpin(_) => if r.Bound? then View(v.job.(reader := Waiting), v.slot) else v
    case Wipe(_) => if r.Claimed? then View(v.job.(reader := Wiped), v.slot.(payload := CLEARED)) else v
    case Publish(_) => if r.Wiped? then View(v.job.(reader := Spinning), v.slot.(flag := Pending)) else v
    case Disarm(_) =>
      if r.Spinning? && v.job.worker.Idle?
      then View(v.job.(reader := Aborted), if v.slot.owner == id then v.slot.(owner := 0) else v.slot)
      else v
    case Dispatch(_, value) =>
      if v.job.worker.Idle? && (r.Spinning? || r.Waiting?)
      then View(v.job.(worker := Loading, value := value), v.slot)
      else v
    case Poll(_, giveUp) => if r.Spinning? then PollView(v, giveUp) else v
    case Copy(_) => if r.Copying? then View(v.job.(reader := Copied(v.slot.payload)), v.slot) else v
    case Free(_) => if r.Copied? then View(v.job.(reader := Got(r.payload)), v.slot.(owner := 0)) else v
    case Work(_) => WorkView(v, id)
    case _ => v
  }

  /** What holds of a job whose result is a scalar; `mine` says that it owns the slot. */
  predicate JobOk(job: Job, mine: bool, flag: Flag, payload: Payload) {
    var w, sent := job.worker, Extract(job.value);
    && Scalar(job.value)
    && match job.reader
       case Bound => !mine && w.Idle?
       case Claimed => mine && w.Idle?
       case Wiped => mine && w.Idle?
       case Spinning =>
         && mine
         && (w.Idle? || w.Loading? || w.Writing? || w.Swapping? || w.Erasing? || w.ViaSlot?)
         && flag == (if w.Erasing? || w.ViaSlot? then Done else Pending)
         && (w.Swapping? || w.Erasing? || w.ViaSlot? ==> payload == sent)
       case Copying => mine && flag == Done && payload == sent && (w.Erasing? || w.ViaSlot?)
       case Copied(p) => mine && p == sent && (w.Erasing? || w.ViaSlot?)
       case Got(p) => !mine && p == sent && (w.Erasing? || w.ViaSlot?)
       case Waiting =>
         if mine then flag == Parked && (w.Idle? || w.Loading? || w.Writing? || w.Swapping? || w.Releasing?)
         else w.Idle? || w.Loading? || w.Routing? || w.ViaPort?
       case Aborted => !mine && w.Idle?
  }

  /** One job's step keeps its own promise, and leaves the slot alone unless the slot is its own or free. */
  lemma ViewStepOk(v: View, id: nat, step: Step)
    requires id > 0 && JobOk(v.job, v.slot.owner == id, v.slot.flag, v.slot.payload)
    requires step.Dispatch? ==> Scalar(step.value)
    ensures var t := ViewStep(v, id, step);
      && JobOk(t.job, t.slot.owner == id, t.slot.flag, t.slot.payload)
      && (t.slot != v.slot ==> v.slot.owner == id || (v.slot.owner == 0 && t.slot.owner == id))
      && (t.slot.owner == v.slot.owner || t.slot.owner == 0 || t.slot.owner == id)
      && t.job.port == v.job.port
  {
  }

  // ----- One port -----

  function Flat(messages: seq<seq<Item>>): seq<Item> {
    FlatMap((m: seq<Item>) => m, messages)
  }

  /** The locked region of `post`: wait behind the message in flight, or be one. */
  function Entered(p: Port, item: Item): Port {
    if p.inFlight && Copyable(item.value) then p.(pending := p.pending + [item], log := p.log + [item])
    else p.(inFlight := true, outbound := p.outbound + [[item]], log := p.log + [item],
            exact := p.exact && !p.inFlight)
  }

  function Sent(p: Port, k: nat): Port {
    if k >= |p.outbound| then p
    else p.(outbound := p.outbound[..k] + p.outbound[k + 1..], mailbox := p.mailbox + [p.outbound[k]])
  }

  function Handled(p: Port): Port {
    if |p.mailbox| == 0 then p
    else p.(delivered := p.delivered + p.mailbox[0], mailbox := p.mailbox[1..], toAck := p.toAck + 1)
  }

  /** Dart acknowledges a message it has handled: what waited goes out as one message. */
  function Acked(p: Port): Port {
    if p.toAck == 0 then p
    else if |p.pending| == 0 then p.(inFlight := false, toAck := p.toAck - 1)
    else p.(outbound := p.outbound + [p.pending], pending := [], toAck := p.toAck - 1)
  }

  function Released(p: Port): Port {
    p.(inFlight := false, pending := [], freed := p.freed + p.pending, exact := false)
  }

  /** At most one message unacknowledged, and strict order. */
  predicate InOrder(p: Port) {
    && |p.outbound| + |p.mailbox| + p.toAck == (if p.inFlight then 1 else 0)
    && |p.freed| == 0
    && p.delivered + Flat(p.mailbox) + Flat(p.outbound) + p.pending == p.log
  }

  function Everywhere(p: Port): multiset<Item> {
    multiset(p.delivered) + multiset(Flat(p.mailbox)) + multiset(Flat(p.outbound)) + multiset(p.pending)
      + multiset(p.freed)
  }

  predicate PortOk(p: Port) {
    && (|p.pending| > 0 ==> p.inFlight)
    && multiset(p.log) == Everywhere(p)
    && (p.exact ==> InOrder(p))
  }

  lemma FlatSnoc(messages: seq<seq<Item>>, m: seq<Item>)
    ensures Flat(messages + [m]) == Flat(messages) + m
  {
    FlatMapSnoc((m: seq<Item>) => m, messages, m);
  }

  lemma FlatAppend(a: seq<seq<Item>>, b: seq<seq<Item>>)
    ensures Flat(a + b) == Flat(a) + Flat(b)
  {
    FlatMapAppend((m: seq<Item>) => m, a, b);
  }

  lemma EnteredOk(p: Port, item: Item)
    requires PortOk(p)
    ensures PortOk(Entered(p, item))
    ensures Entered(p, item).log == p.log + [item]
  {
    hide FlatMap;
    if p.inFlight && Copyable(item.value) {
      Assoc(p.delivered + Flat(p.mailbox) + Flat(p.outbound), p.pending, [item]);
    } else {
      LaunchedCounts(p, item);
      if p.exact && !p.inFlight {
        LaunchedInOrder(p, item);
      }
    }
  }

  lemma LaunchedCounts(p: Port, item: Item)
    requires multiset(p.log) == Everywhere(p)
    ensures var t := p.(outbound := p.outbound + [[item]], log := p.log + [item]); multiset(t.log) == Everywhere(t)
  {
    FlatSnoc(p.outbound, [item]);
  }

  lemma LaunchedInOrder(p: Port, item: Item)
    requires InOrder(p) && !p.inFlight && |p.pending| == 0
    ensures InOrder(p.(inFlight := true, outbound := p.outbound + [[item]], log := p.log + [item]))
  {
    assert p.outbound == [] && p.mailbox == [] && p.pending == [];
    FlatSnoc([], [item]);
    NilLeft([item]);
    NilLeft([[item]]);
    NilRight(p.delivered);
    NilRight(p.delivered + [item]);
  }

  lemma SentOk(p: Port, k: nat)
    requires PortOk(p)
    ensures PortOk(Sent(p, k))
    ensures Sent(p, k).log == p.log
  {
    if k < |p.outbound| {
      TakenOut(p.outbound, k);
      FlatSnoc(p.mailbox, p.outbound[k]);
      if p.exact {
        SentInOrder(p);
      }
    }
  }

  lemma TakenOut(messages: seq<seq<Item>>, k: nat)
    requires k < |messages|
    ensures multiset(Flat(messages)) == multiset(messages[k]) + multiset(Flat(messages[..k] + messages[k + 1..]))
  {
    FlatAppend(messages[..k], messages[k + 1..]);
    FlatSnoc(messages[..k], messages[k]);
    FlatAppend(messages[..k + 1], messages[k + 1..]);
    assert messages[..k + 1] == messages[..k] + [messages[k]];
    assert messages == messages[..k + 1] + messages[k + 1..];
  }

  lemma SentInOrder(p: Port)
    requires InOrder(p) && |p.outbound| > 0
    ensures InOrder(Sent(p, 0))
  {
    var m := p.outbound[0];
    assert p.outbound == [m] && p.mailbox == [] && Sent(p, 0).outbound == [];
    FlatSnoc([], m);
    NilLeft(m);
    NilLeft([m]);
    NilRight(p.delivered);
    NilRight(p.delivered + m);
  }

  lemma HandledOk(p: Port)
    requires PortOk(p)
    ensures PortOk(Handled(p))
    ensures Handled(p).log == p.log
  {
    if |p.mailbox| > 0 {
      var m := p.mailbox[0];
      assert p.mailbox == [m] + p.mailbox[1..];
      FlatAppend([m], p.mailbox[1..]);
      FlatSnoc([], m);
      NilLeft(m);
      NilLeft([m]);
      if p.exact {
        assert p.mailbox[1..] == [];
        NilRight(m);
        NilRight(p.delivered + m);
      }
    }
  }

  lemma AckedOk(p: Port)
    requires PortOk(p)
    ensures PortOk(Acked(p))
    ensures Acked(p).log == p.log
  {
    FlatSnoc(p.outbound, p.pending);
    if p.exact && p.toAck > 0 {
      NilRight(p.delivered + Flat(p.mailbox) + Flat(p.outbound));
      Assoc(p.delivered + Flat(p.mailbox), Flat(p.outbound), p.pending);
      NilRight(p.delivered + Flat(p.mailbox) + (Flat(p.outbound) + p.pending));
    }
  }

  lemma ReleasedOk(p: Port)
    requires PortOk(p)
    ensures PortOk(Released(p))
    ensures Released(p).log == p.log
  {
  }

  // ----- The whole machine -----

  function PortAt(s: State, port: nat): Port {
    if port in s.ports then s.ports[port] else FRESH
  }

  function SetPort(s: State, port: nat, p: Port): State {
    s.(ports := s.ports[port := p])
  }

  function Without(m: map<nat, nat>, id: nat): map<nat, nat> {
    m - {id}
  }

  function JobStep(s: State, id: nat, step: Step): State {
    if id !in s.jobs then s else
    var v := ViewStep(View(s.jobs[id], s.slot), id, step);
    s.(jobs := s.jobs[id := v.job], slot := v.slot)
  }

  function BindTo(s: State, port: nat): State {
    var id := s.nextId + 1;
    s.(nextId := id, jobs := s.jobs[id := Job(port, Null, Bound, Idle)], bound := s.bound[id := port])
  }

  /** The worker won the slot. */
  function EraseBound(s: State, id: nat): State
    requires id in s.jobs
  {
    s.(bound := Without(s.bound, id), jobs := s.jobs[id := s.jobs[id].(worker := ViaSlot)])
  }

  /** The worker goes through the port its id is bound to; an id bound nowhere would be posted as a port. */
  function Route(s: State, id: nat): State
    requires id in s.jobs
  {
    var item := Completion(id, s.jobs[id].value);
    if id !in s.bound then s.(direct := s.direct + [item]) else
    var p := PortAt(s, s.bound[id]);
    SetPort(s, s.bound[id], Entered(p, item))
      .(bound := Without(s.bound, id), jobs := s.jobs[id := s.jobs[id].(worker := ViaPort(|p.log|))])
  }

  function WorkStep(s: State, id: nat): State {
    if id !in s.jobs then s
    else if s.jobs[id].worker.Erasing? then EraseBound(s, id)
    else if s.jobs[id].worker.Routing? then Route(s, id)
    else JobStep(s, id, Work(id))
  }

  function PortStep(s: State, step: Step): State
    requires !step.Bind? && (step.Coalesce? || step.Uncoalesce? || step.PostItem? || step.Send? || step.Handle? || step.Ack?)
  {
    var p := PortAt(s, step.port);
    match step
    case Coalesce(port) => s.(coalesced := s.coalesced + {port})
    case Uncoalesce(port) => SetPort(s, port, Released(p)).(coalesced := s.coalesced - {port})
    case PostItem(port, value) =>
      if port in s.coalesced then SetPort(s, port, Entered(p, StreamItem(value)))
      else s.(direct := s.direct + [StreamItem(value)])
    case Send(port, k) => SetPort(s, port, Sent(p, k))
    case Handle(port) => SetPort(s, port, Handled(p))
    case Ack(port) => SetPort(s, port, Acked(p))
  }

  function Apply(s: State, step: Step): State {
    match step
    case Bind(port) => BindTo(s, port)
    case Work(id) => WorkStep(s, id)
    case Arm(id) => JobStep(s, id, step)
    case DoNotSpin(id) => JobStep(s, id, step)
    case Wipe(id) => JobStep(s, id, step)
    case Publish(id) => JobStep(s, id, step)
    case Disarm(id) => JobStep(s, id, step)
    case Dispatch(id, _) => JobStep(s, id, step)
    case Poll(id, _) => JobStep(s, id, step)
    case Copy(id) => JobStep(s, id, step)
    case Free(id) => JobStep(s, id, step)
    case _ => PortStep(s, step)
  }

  function Run(steps: seq<Step>): State {
    if |steps| == 0 then INITIAL else Apply(Run(steps[..|steps| - 1]), steps[|steps| - 1])
  }

  // ----- What every run keeps -----

  predicate SlotInv(jobs: map<nat, Job>, slot: Slot, nextId: nat) {
    && (slot.owner != 0 ==> slot.owner in jobs)
    && forall id | id in jobs :: 0 < id <= nextId && JobOk(jobs[id], slot.owner == id, slot.flag, slot.payload)
  }

  predicate Unsettled(w: Worker) {
    !w.ViaSlot? && !w.ViaPort?
  }

  predicate BoundInv(jobs: map<nat, Job>, bound: map<nat, nat>) {
    && (forall id | id in bound :: id in jobs)
    && forall id | id in jobs ::
         (id in bound <==> Unsettled(jobs[id].worker)) && (id in bound ==> bound[id] == jobs[id].port)
  }

  function LogAt(ports: map<nat, Port>, port: nat): seq<Item> {
    if port in ports then ports[port].log else []
  }

  /** An entry of a port's log is where its job says it is. */
  predicate EntryOk(jobs: map<nat, Job>, port: nat, i: nat, e: Item) {
    e.Completion? ==>
      e.id in jobs && jobs[e.id].worker == ViaPort(i) && jobs[e.id].port == port && jobs[e.id].value == e.value
  }

  predicate Logged(job: Job, id: nat, ports: map<nat, Port>) {
    job.worker.ViaPort? ==>
      var log := LogAt(ports, job.port);
      job.worker.at < |log| && log[job.worker.at] == Completion(id, job.value)
  }

  predicate LogInv(jobs: map<nat, Job>, ports: map<nat, Port>) {
    && (forall id | id in jobs :: Logged(jobs[id], id, ports))
    && (forall port, i | port in ports && 0 <= i < |ports[port].log| :: EntryOk(jobs, port, i, ports[port].log[i]))
  }

  /** No completion was ever posted as if its id were a port. */
  predicate NoStray(direct: seq<Item>) {
    forall i | 0 <= i < |direct| :: direct[i].StreamItem?
  }

  predicate PortsInv(ports: map<nat, Port>) {
    forall port | port in ports :: PortOk(ports[port])
  }

  predicate Inv(s: State) {
    && SlotInv(s.jobs, s.slot, s.nextId) && BoundInv(s.jobs, s.bound) && LogInv(s.jobs, s.ports)
    && PortsInv(s.ports) && NoStray(s.direct)
  }

  /** The same jobs have gone through ports. */
  ghost predicate SameLogged(jobs: map<nat, Job>, jobs': map<nat, Job>) {
    forall id :: (id in jobs && jobs[id].worker.ViaPort?) || (id in jobs' && jobs'[id].worker.ViaPort?) ==>
      && id in jobs && id in jobs' && jobs'[id].worker == jobs[id].worker
      && jobs'[id].port == jobs[id].port && jobs'[id].value == jobs[id].value
  }

  lemma SameLoggedKeeps(jobs: map<nat, Job>, jobs': map<nat, Job>, ports: map<nat, Port>)
    requires LogInv(jobs, ports) && SameLogged(jobs, jobs')
    ensures LogInv(jobs', ports)
  {
    forall port, i | port in ports && 0 <= i < |ports[port].log|
      ensures EntryOk(jobs', port, i, ports[port].log[i])
    {
      assert EntryOk(jobs, port, i, ports[port].log[i]);
    }
    forall id | id in jobs'
      ensures Logged(jobs'[id], id, ports)
    {
      if jobs'[id].worker.ViaPort? {
        assert Logged(jobs[id], id, ports);
      }
    }
  }

  /** A log that gains nothing but stream items. */
  predicate Grew(before: seq<Item>, after: seq<Item>) {
    before <= after && forall i | |before| <= i < |after| :: after[i].StreamItem?
  }

  lemma GrewKeeps(jobs: map<nat, Job>, ports: map<nat, Port>, port: nat, p: Port)
    requires LogInv(jobs, ports) && Grew(LogAt(ports, port), p.log)
    ensures LogInv(jobs, ports[port := p])
  {
    var ports' := ports[port := p];
    forall k, i | k in ports' && 0 <= i < |ports'[k].log|
      ensures EntryOk(jobs, k, i, ports'[k].log[i])
    {
      if i < |LogAt(ports, k)| {
        assert EntryOk(jobs, k, i, ports[k].log[i]);
      }
    }
    forall id | id in jobs
      ensures Logged(jobs[id], id, ports')
    {
      assert Logged(jobs[id], id, ports);
    }
  }

  lemma JobStepKeepsInv(s: State, id: nat, step: Step)
    requires Inv(s) && (step.Dispatch? ==> Scalar(step.value))
    requires id in s.jobs && step.Work? ==> !s.jobs[id].worker.Erasing? && !s.jobs[id].worker.Routing?
    ensures Inv(JobStep(s, id, step))
  {
    hide PortsInv, NoStray, LogInv;
    if id in s.jobs {
      var v := View(s.jobs[id], s.slot);
      ViewStepOk(v, id, step);
      ViewStepSettles(v, id, step);
      hide ViewStep, JobOk;
      var t := JobStep(s, id, step);
      OthersUntouched(s.jobs, s.slot, t.slot, s.nextId, id, t.jobs[id]);
      SameLoggedKeeps(s.jobs, t.jobs, s.ports);
    }
  }

  lemma ViewStepSettles(v: View, id: nat, step: Step)
    requires step.Work? ==> !v.job.worker.Erasing? && !v.job.worker.Routing?
    ensures var t := ViewStep(v, id, step);
      && (t.job.worker == v.job.worker || (Unsettled(t.job.worker) && Unsettled(v.job.worker)))
      && (!Unsettled(v.job.worker) ==> t.job.value == v.job.value)
      && t.job.port == v.job.port
  {
  }

  lemma OthersUntouched(jobs: map<nat, Job>, slot: Slot, slot': Slot, nextId: nat, id: nat, job: Job)
    requires SlotInv(jobs, slot, nextId) && id in jobs
    requires JobOk(job, slot'.owner == id, slot'.flag, slot'.payload)
    requires slot' != slot ==> slot.owner == id || (slot.owner == 0 && slot'.owner == id)
    requires slot'.owner == slot.owner || slot'.owner == 0 || slot'.owner == id
    ensures SlotInv(jobs[id := job], slot', nextId)
  {
    forall k | k in jobs && k != id
      ensures 0 < k <= nextId && JobOk(jobs[k], slot'.owner == k, slot'.flag, slot'.payload)
    {
      assert JobOk(jobs[k], slot.owner == k, slot.flag, slot.payload);
    }
  }

  lemma BindKeepsInv(s: State, port: nat)
    requires Inv(s)
    ensures Inv(BindTo(s, port))
  {
    hide PortsInv, NoStray, LogInv;
    SameLoggedKeeps(s.jobs, BindTo(s, port).jobs, s.ports);
  }

  lemma EraseKeepsInv(s: State, id: nat)
    requires Inv(s) && id in s.jobs && s.jobs[id].worker.Erasing?
    ensures Inv(EraseBound(s, id))
  {
    hide PortsInv, NoStray, LogInv;
    var t := EraseBound(s, id);
    OthersUntouched(s.jobs, s.slot, s.slot, s.nextId, id, t.jobs[id]);
    hide SlotInv;
    SameLoggedKeeps(s.jobs, t.jobs, s.ports);
  }

  /** A step that only moves one port. */
  lemma PortMoveKeepsInv(s: State, port: nat, p: Port, coalesced: set<nat>)
    requires Inv(s) && PortOk(p) && Grew(PortAt(s, port).log, p.log)
    ensures Inv(SetPort(s, port, p)) && Inv(SetPort(s, port, p).(coalesced := coalesced))
  {
    hide SlotInv, BoundInv, LogInv, NoStray, PortOk, Grew;
    PortAtOk(s, port);
    GrewKeeps(s.jobs, s.ports, port, p);
  }

  lemma PortAtOk(s: State, port: nat)
    requires Inv(s)
    ensures PortOk(PortAt(s, port)) && LogAt(s.ports, port) == PortAt(s, port).log
  {
    hide SlotInv, BoundInv, LogInv, NoStray;
  }

  lemma PortStepKeepsInv(s: State, step: Step)
    requires Inv(s) && (step.Coalesce? || step.Uncoalesce? || step.PostItem? || step.Send? || step.Handle? || step.Ack?)
    ensures Inv(PortStep(s, step))
  {
    hide Inv, PortOk, Released, Sent, Handled, Acked, Entered, SetPort, PortAt;
    var p := PortAt(s, step.port);
    PortAtOk(s, step.port);
    match step {
      case Coalesce(port) => CoalescedIsFree(s, s.coalesced + {port});
      case Uncoalesce(port) =>
        ReleasedOk(p);
        PortMoveKeepsInv(s, port, Released(p), s.coalesced - {port});
      case PostItem(port, value) => PostItemKeepsInv(s, port, value);
      case Send(port, k) =>
        SentOk(p, k);
        PortMoveKeepsInv(s, port, Sent(p, k), {});
      case Handle(port) =>
        HandledOk(p);
        PortMoveKeepsInv(s, port, Handled(p), {});
      case Ack(port) =>
        AckedOk(p);
        PortMoveKeepsInv(s, port, Acked(p), {});
    }
  }

  lemma CoalescedIsFree(s: State, coalesced: set<nat>)
    requires Inv(s)
    ensures Inv(s.(coalesced := coalesced))
  {
    hide SlotInv, BoundInv, LogInv, PortsInv, NoStray;
  }

  lemma DirectItemKeepsInv(s: State, value: Value)
    requires Inv(s)
    ensures Inv(s.(direct := s.direct + [StreamItem(value)]))
  {
    hide SlotInv, BoundInv, LogInv, PortsInv;
  }

  lemma PostItemKeepsInv(s: State, port: nat, value: Value)
    requires Inv(s)
    ensures Inv(PortStep(s, PostItem(port, value)))
  {
    hide Inv, PortOk, Entered, SetPort, PortAt;
    var p := PortAt(s, port);
    PortAtOk(s, port);
    EnteredOk(p, StreamItem(value));
    if port in s.coalesced {
      PortMoveKeepsInv(s, port, Entered(p, StreamItem(value)), {});
    } else {
      DirectItemKeepsInv(s, value);
    }
  }

  lemma RouteKeepsInv(s: State, id: nat)
    requires Inv(s) && id in s.jobs && s.jobs[id].worker.Routing?
    ensures Inv(Route(s, id))
  {
    var port, item := s.jobs[id].port, Completion(id, s.jobs[id].value);
    assert id in s.bound && s.bound[id] == port;
    PortAtOk(s, port);
    EnteredOk(PortAt(s, port), item);
    RouteKeepsJobs(s, id);
    RouteLogged(s, id);
    hide SlotInv, BoundInv, LogInv, NoStray, PortOk, Entered;
  }

  lemma RouteKeepsJobs(s: State, id: nat)
    requires SlotInv(s.jobs, s.slot, s.nextId) && BoundInv(s.jobs, s.bound)
    requires id in s.jobs && s.jobs[id].worker.Routing? && id in s.bound
    ensures SlotInv(Route(s, id).jobs, s.slot, s.nextId) && BoundInv(Route(s, id).jobs, Route(s, id).bound)
  {
    hide Entered;
    OthersUntouched(s.jobs, s.slot, s.slot, s.nextId, id, Route(s, id).jobs[id]);
  }

  lemma RouteLogged(s: State, id: nat)
    requires LogInv(s.jobs, s.ports) && BoundInv(s.jobs, s.bound)
    requires id in s.jobs && s.jobs[id].worker.Routing? && id in s.bound
    ensures LogInv(Route(s, id).jobs, Route(s, id).ports)
  {
    var t := Route(s, id);
    forall port, i | port in t.ports && 0 <= i < |t.ports[port].log|
      ensures EntryOk(t.jobs, port, i, t.ports[port].log[i])
    {
      if i < |LogAt(s.ports, port)| {
        assert EntryOk(s.jobs, port, i, s.ports[port].log[i]);
      }
    }
    forall k | k in t.jobs
      ensures Logged(t.jobs[k], k, t.ports)
    {
      assert Logged(s.jobs[k], k, s.ports);
    }
  }

  /** Only results that fit the slot are ever handed to `post`. */
  predicate ScalarResults(steps: seq<Step>) {
    forall i | 0 <= i < |steps| && steps[i].Dispatch? :: Scalar(steps[i].value)
  }

  lemma StepKeepsInv(s: State, step: Step)
    requires Inv(s) && (step.Dispatch? ==> Scalar(step.value))
    ensures Inv(Apply(s, step))
  {
    hide Inv, BindTo, EraseBound, Route, JobStep, PortStep;
    match step {
      case Bind(port) => BindKeepsInv(s, port);
      case Work(id) =>
        if id in s.jobs && s.jobs[id].worker.Erasing? {
          EraseKeepsInv(s, id);
        } else if id in s.jobs && s.jobs[id].worker.Routing? {
          RouteKeepsInv(s, id);
        } else if id in s.jobs {
          JobStepKeepsInv(s, id, step);
        }
      case Arm(id) => JobStepKeepsInv(s, id, step);
      case DoNotSpin(id) => JobStepKeepsInv(s, id, step);
      case Wipe(id) => JobStepKeepsInv(s, id, step);
      case Publish(id) => JobStepKeepsInv(s, id, step);
      case Disarm(id) => JobStepKeepsInv(s, id, step);
      case Dispatch(id, _) => JobStepKeepsInv(s, id, step);
      case Poll(id, _) => JobStepKeepsInv(s, id, step);
      case Copy(id) => JobStepKeepsInv(s, id, step);
      case Free(id) => JobStepKeepsInv(s, id, step);
      case _ => PortStepKeepsInv(s, step);
    }
  }

  lemma {:induction false} RunKeepsInv(steps: seq<Step>)
    requires ScalarResults(steps)
    ensures Inv(Run(steps))
  {
    if |steps| > 0 {
      var before := steps[..|steps| - 1];
      assert ScalarResults(before);
      RunKeepsInv(before);
      StepKeepsInv(Run(before), steps[|steps| - 1]);
    }
  }

  // ----- The main results -----

  lemma {:induction false} OnlyOnce(log: seq<Item>, at: nat)
    requires at < |log| && forall i | 0 <= i < |log| && log[i] == log[at] :: i == at
    ensures multiset(log)[log[at]] == 1
  {
    assert log == log[..at] + [log[at]] + log[at + 1..];
    assert log[at] !in log[..at] && log[at] !in log[at + 1..];
  }

  /** A result delivered through the slot: it is the value posted for the id that armed, and no port ever
      carries that id. */
  ghost predicate SlotDelivery(s: State, id: nat)
    requires id in s.jobs
  {
    var job := s.jobs[id];
    && (job.reader.Copied? || job.reader.Got? ==> Decode(job.reader.payload) == job.value)
    && (job.worker.ViaSlot? ==>
          && (job.reader.Copying? || job.reader.Copied? || job.reader.Got? || (job.reader.Spinning? && s.slot.flag == Done))
          && forall port, v :: Completion(id, v) !in PortAt(s, port).log)
    && (job.reader.Got? ==> job.worker.Erasing? || job.worker.ViaSlot?)
  }

  /** A result that goes through its port: there is one copy of it among what is pending, in transit or
      delivered, on that port alone, and its reader has stopped spinning. */
  ghost predicate PortDelivery(s: State, id: nat)
    requires id in s.jobs
  {
    var job := s.jobs[id];
    && (forall port, v :: Completion(id, v) in PortAt(s, port).log ==> port == job.port && v == job.value && job.worker.ViaPort?)
    && (job.worker.ViaPort? ==> job.reader.Waiting? && Everywhere(PortAt(s, job.port))[Completion(id, job.value)] == 1)
  }

  /** Over every schedule of any number of isolates and workers, each result goes one way, once. */
  lemma ExactlyOnce(steps: seq<Step>, id: nat)
    requires ScalarResults(steps) && id in Run(steps).jobs
    ensures SlotDelivery(Run(steps), id) && PortDelivery(Run(steps), id)
    ensures Run(steps).jobs[id].reader.Waiting? ==>
      !Run(steps).jobs[id].worker.ViaSlot? && !Run(steps).jobs[id].worker.Erasing?
    ensures NoStray(Run(steps).direct)
  {
    var s := Run(steps);
    RunKeepsInv(steps);
    var job := s.jobs[id];
    DecodeOfExtract(job.value);
    forall port, v | Completion(id, v) in PortAt(s, port).log
      ensures port == job.port && v == job.value && job.worker.ViaPort?
    {
      var i :| 0 <= i < |PortAt(s, port).log| && PortAt(s, port).log[i] == Completion(id, v);
      assert EntryOk(s.jobs, port, i, s.ports[port].log[i]);
    }
    if job.worker.ViaPort? {
      var log := PortAt(s, job.port).log;
      assert Logged(job, id, s.ports);
      forall i | 0 <= i < |log| && log[i] == log[job.worker.at]
        ensures i == job.worker.at
      {
        assert EntryOk(s.jobs, job.port, i, log[i]);
      }
      OnlyOnce(log, job.worker.at);
      assert PortOk(PortAt(s, job.port));
    }
  }

  // ----- Ports, whatever is posted -----

  predicate BoundPorts(jobs: map<nat, Job>, bound: map<nat, nat>) {
    forall id | id in bound :: id in jobs && bound[id] == jobs[id].port
  }

  /** What the ports keep does not depend on the slot, nor on what kind of object is posted. */
  predicate PortsPart(s: State) {
    PortsInv(s.ports) && BoundPorts(s.jobs, s.bound)
  }

  lemma JobStepLeavesPorts(s: State, id: nat, step: Step)
    requires PortsPart(s)
    ensures PortsPart(JobStep(s, id, step)) && JobStep(s, id, step).ports == s.ports
  {
    hide PortsInv;
    if id in s.jobs {
      ViewStepKeepsPort(View(s.jobs[id], s.slot), id, step);
      hide ViewStep;
    }
  }

  lemma ViewStepKeepsPort(v: View, id: nat, step: Step)
    ensures ViewStep(v, id, step).job.port == v.job.port
  {
  }

  lemma PortMoveKeepsPorts(s: State, port: nat, p: Port)
    requires PortsPart(s) && PortOk(p)
    ensures PortsPart(SetPort(s, port, p))
  {
    hide PortOk;
  }

  lemma PortFound(s: State, port: nat)
    requires PortsPart(s)
    ensures PortOk(PortAt(s, port))
  {
    hide BoundPorts;
  }

  lemma PortStepKeepsPorts(s: State, step: Step)
    requires PortsPart(s) && (step.Coalesce? || step.Uncoalesce? || step.PostItem? || step.Send? || step.Handle? || step.Ack?)
    ensures PortsPart(PortStep(s, step))
  {
    hide PortOk, Released, Sent, Handled, Acked, Entered, PortAt, PortsInv;
    var p := PortAt(s, step.port);
    PortFound(s, step.port);
    match step {
      case Coalesce(_) =>
      case Uncoalesce(port) =>
        ReleasedOk(p);
        PortMoveKeepsPorts(s, port, Released(p));
      case PostItem(port, value) =>
        EnteredOk(p, StreamItem(value));
        PortMoveKeepsPorts(s, port, Entered(p, StreamItem(value)));
      case Send(port, k) =>
        SentOk(p, k);
        PortMoveKeepsPorts(s, port, Sent(p, k));
      case Handle(port) =>
        HandledOk(p);
        PortMoveKeepsPorts(s, port, Handled(p));
      case Ack(port) =>
        AckedOk(p);
        PortMoveKeepsPorts(s, port, Acked(p));
    }
  }

  lemma RouteKeepsPorts(s: State, id: nat)
    requires PortsPart(s) && id in s.jobs
    ensures PortsPart(Route(s, id))
  {
    hide PortOk, Entered, PortsInv;
    if id in s.bound {
      var item := Completion(id, s.jobs[id].value);
      PortFound(s, s.bound[id]);
      EnteredOk(PortAt(s, s.bound[id]), item);
      PortMoveKeepsPorts(s, s.bound[id], Entered(PortAt(s, s.bound[id]), item));
    }
  }

  lemma BindKeepsPorts(s: State, port: nat)
    requires PortsPart(s)
    ensures PortsPart(BindTo(s, port))
  {
    hide PortsInv;
  }

  lemma EraseKeepsPorts(s: State, id: nat)
    requires PortsPart(s) && id in s.jobs
    ensures PortsPart(EraseBound(s, id))
  {
    hide PortsInv;
  }

  lemma StepKeepsPorts(s: State, step: Step)
    requires PortsPart(s)
    ensures PortsPart(Apply(s, step))
  {
    hide PortsPart, BindTo, EraseBound, Route, JobStep, PortStep;
    match step {
      case Bind(port) => BindKeepsPorts(s, port);
      case Work(id) =>
        if id in s.jobs && s.jobs[id].worker.Erasing? {
          EraseKeepsPorts(s, id);
        } else if id in s.jobs && s.jobs[id].worker.Routing? {
          RouteKeepsPorts(s, id);
        } else {
          JobStepLeavesPorts(s, id, step);
        }
      case Arm(id) => JobStepLeavesPorts(s, id, step);
      case DoNotSpin(id) => JobStepLeavesPorts(s, id, step);
      case Wipe(id) => JobStepLeavesPorts(s, id, step);
      case Publish(id) => JobStepLeavesPorts(s, id, step);
      case Disarm(id) => JobStepLeavesPorts(s, id, step);
      case Dispatch(id, _) => JobStepLeavesPorts(s, id, step);
      case Poll(id, _) => JobStepLeavesPorts(s, id, step);
      case Copy(id) => JobStepLeavesPorts(s, id, step);
      case Free(id) => JobStepLeavesPorts(s, id, step);
      case _ => PortStepKeepsPorts(s, step);
    }
  }

  lemma {:induction false} RunKeepsPorts(steps: seq<Step>)
    ensures PortsPart(Run(steps))
  {
    hide Apply, PortsPart;
    if |steps| == 0 {
      assert PortsPart(INITIAL) by {
        NothingPosted();
      }
    } else {
      RunKeepsPorts(steps[..|steps| - 1]);
      StepKeepsPorts(Run(steps[..|steps| - 1]), steps[|steps| - 1]);
    }
  }

  lemma NothingPosted()
    ensures PortsPart(INITIAL)
  {
  }

  /** Whatever is posted, by any number of isolates and workers, through a port or released from it: each item
      is pending, on its way, delivered or freed as often as it was posted, and something waits only behind a
      message in flight. */
  lemma NothingIsLost(steps: seq<Step>, port: nat)
    ensures var p := PortAt(Run(steps), port);
      multiset(p.log) == Everywhere(p) && (|p.pending| > 0 ==> p.inFlight)
  {
    RunKeepsPorts(steps);
    PortFound(Run(steps), port);
  }

  /** An object that cannot be copied enters `port` while a message is in flight. */
  predicate Intrudes(s: State, step: Step, port: nat) {
    && PortAt(s, port).inFlight
    && (|| (step.Work? && step.id in s.jobs && s.jobs[step.id].worker.Routing?
            && step.id in s.bound && s.bound[step.id] == port && !Copyable(s.jobs[step.id].value))
        || (step.PostItem? && step.port == port && port in s.coalesced && !Copyable(step.value)))
  }

  ghost predicate IntrudedAt(steps: seq<Step>, k: nat, port: nat) {
    k < |steps| && Intrudes(Run(steps[..k]), steps[k], port)
  }

  predicate NeverReleased(steps: seq<Step>, port: nat) {
    forall i | 0 <= i < |steps| :: steps[i] != Uncoalesce(port)
  }

  /** Nothing but an intrusion or a release ends the strict order. */
  lemma ExactStep(s: State, step: Step, port: nat)
    requires step != Uncoalesce(port)
    ensures PortAt(Apply(s, step), port).exact == (PortAt(s, port).exact && !Intrudes(s, step, port))
  {
    hide ViewStep;
  }

  lemma {:induction false} StaysExact(steps: seq<Step>, port: nat)
    requires NeverReleased(steps, port)
    ensures PortAt(Run(steps), port).exact <==> !exists k :: IntrudedAt(steps, k, port)
  {
    if |steps| > 0 {
      var n := |steps| - 1;
      var before := steps[..n];
      assert forall i | 0 <= i < n :: before[..i] == steps[..i] && before[i] == steps[i];
      assert steps[n] != Uncoalesce(port);
      hide Intrudes, Apply;
      StaysExact(before, port);
      ExactStep(Run(before), steps[n], port);
      IntrudedOn(steps, port);
    }
  }

  lemma IntrudedOn(steps: seq<Step>, port: nat)
    requires |steps| > 0
    ensures var n := |steps| - 1;
      (exists k :: IntrudedAt(steps, k, port)) <==>
        (exists k :: IntrudedAt(steps[..n], k, port)) || Intrudes(Run(steps[..n]), steps[n], port)
  {
    hide Intrudes, Run;
    var n := |steps| - 1;
    assert forall i | 0 <= i < n :: steps[..n][..i] == steps[..i];
    if k: nat :| IntrudedAt(steps, k, port) {
      if k < n {
        assert IntrudedAt(steps[..n], k, port);
      }
    }
    if k: nat :| IntrudedAt(steps[..n], k, port) {
      assert IntrudedAt(steps, k, port);
    }
    if Intrudes(Run(steps[..n]), steps[n], port) {
      assert IntrudedAt(steps, n, port);
    }
  }

  function Unacknowledged(p: Port): nat {
    |p.outbound| + |p.mailbox| + p.toAck
  }

  /** Per port, until it is released and as long as nothing that cannot be copied enters it behind a message in
      flight: at most one message is unacknowledged, something waits only behind one, and what was delivered,
      then what is on its way, then what waits is exactly what was posted, in lock order. */
  lemma FirstInFirstOut(steps: seq<Step>, port: nat)
    requires NeverReleased(steps, port) && !exists k :: IntrudedAt(steps, k, port)
    ensures var p := PortAt(Run(steps), port);
      && Unacknowledged(p) <= 1 && (|p.pending| > 0 ==> Unacknowledged(p) == 1)
      && p.log == p.delivered + Flat(p.mailbox) + Flat(p.outbound) + p.pending
  {
    RunKeepsPorts(steps);
    StaysExact(steps, port);
    PortFound(Run(steps), port);
  }

  // ----- Where the promises end -----

  /** An object that cannot be copied is not held back. */
  lemma IntrusionDoubles(s: State, step: Step, port: nat)
    requires PortsPart(s) && PortAt(s, port).exact && Intrudes(s, step, port)
    ensures Unacknowledged(PortAt(Apply(s, step), port)) == 2
  {
    PortFound(s, port);
    hide ViewStep, PortsPart, Everywhere;
  }

  /** If the strict order has ended, some intrusion ended it. */
  lemma {:induction false} FirstIntrusion(steps: seq<Step>, port: nat) returns (k: nat)
    requires NeverReleased(steps, port) && !PortAt(Run(steps), port).exact
    ensures k < |steps| && PortAt(Run(steps[..k]), port).exact && Intrudes(Run(steps[..k]), steps[k], port)
  {
    assert |steps| > 0;
    var n := |steps| - 1;
    var before := steps[..n];
    assert forall i | 0 <= i < n :: before[..i] == steps[..i] && before[i] == steps[i];
    hide Intrudes, Apply;
    assert steps[n] != Uncoalesce(port);
    ExactStep(Run(before), steps[n], port);
    if PortAt(Run(before), port).exact {
      k := n;
    } else {
      k := FirstIntrusion(before, port);
    }
  }

  ghost predicate TwoInFlightAt(steps: seq<Step>, k: nat, port: nat) {
    k <= |steps| && Unacknowledged(PortAt(Run(steps[..k]), port)) >= 2
  }

  /** Over every run in which a port is not released: at some moment two of its messages are unacknowledged if
      and only if an object that cannot be copied has entered it while a message was in flight. */
  lemma NonCopyableIsNotHeld(steps: seq<Step>, port: nat)
    requires NeverReleased(steps, port)
    ensures (exists k :: TwoInFlightAt(steps, k, port)) <==> (exists k :: IntrudedAt(steps, k, port))
  {
    hide Run, Intrudes, Apply, Unacknowledged;
    StaysExact(steps, port);
    if exists k :: IntrudedAt(steps, k, port) {
      var k := FirstIntrusion(steps, port);
      RunKeepsPorts(steps[..k]);
      IntrusionDoubles(Run(steps[..k]), steps[k], port);
      assert steps[..k + 1] == steps[..k] + [steps[k]];
      RunThen(steps[..k], steps[k]);
      assert TwoInFlightAt(steps, k + 1, port);
    }
    if k: nat :| TwoInFlightAt(steps, k, port) {
      if forall i :: !IntrudedAt(steps, i, port) {
        NoneBefore(steps, k, port);
        FirstInFirstOut(steps[..k], port);
      }
    }
  }

  lemma NoneBefore(steps: seq<Step>, k: nat, port: nat)
    requires k <= |steps| && NeverReleased(steps, port) && forall i :: !IntrudedAt(steps, i, port)
    ensures NeverReleased(steps[..k], port) && !exists i :: IntrudedAt(steps[..k], i, port)
  {
    hide Run, Intrudes;
    forall i: nat
      ensures !IntrudedAt(steps[..k], i, port)
    {
      if i < k {
        assert steps[..k][..i] == steps[..i];
        assert !IntrudedAt(steps, i, port);
      }
    }
  }

  /** From the start: a stream's first item, then one that cannot be copied, and two messages are in flight. */
  lemma TwoInFlight(first: Value, second: Value)
    requires !Copyable(second)
    ensures Unacknowledged(PortAt(Run([Coalesce(0), PostItem(0, first), PostItem(0, second)]), 0)) == 2
  {
    var a := [Coalesce(0)];
    var b := a + [PostItem(0, first)];
    var c := b + [PostItem(0, second)];
    assert c == [Coalesce(0), PostItem(0, first), PostItem(0, second)];
    assert [] + [Coalesce(0)] == a;
    assert 0 in Run(a).coalesced && PortAt(Run(a), 0) == FRESH by {
      RunThen([], a[0]);
    }
    RunThen(a, b[1]);
    RunThen(b, c[2]);
    hide Run;
    var one := Entered(FRESH, StreamItem(first));
    ItemEnters(Run(a), 0, first);
    ItemEnters(Run(b), 0, second);
    assert one.inFlight && one.outbound == [[StreamItem(first)]] && one.mailbox == [] && one.toAck == 0;
  }

  lemma ItemEnters(s: State, port: nat, value: Value)
    requires port in s.coalesced
    ensures var t := Apply(s, PostItem(port, value));
      PortAt(t, port) == Entered(PortAt(s, port), StreamItem(value)) && t.coalesced == s.coalesced
  {
    hide Entered;
  }

  lemma RunThen(steps: seq<Step>, step: Step)
    ensures Run(steps + [step]) == Apply(Run(steps), step)
  {
    assert (steps + [step])[..|steps|] == steps;
  }

  predicate Shows(s: State, a: Job, b: Job, slot: Slot) {
    1 in s.jobs && s.jobs[1] == a && 2 in s.jobs && s.jobs[2] == b && s.slot == slot
  }

  /** Two isolates, after one more step of the first or of the second. */
  lemma Move(steps: seq<Step>, step: Step, id: nat, a: Job, b: Job, slot: Slot)
      returns (more: seq<Step>, a': Job, b': Job, slot': Slot)
    requires Shows(Run(steps), a, b, slot) && (id == 1 || id == 2)
    requires match step
      case Arm(k) => k == id
      case Wipe(k) => k == id
      case Publish(k) => k == id
      case Dispatch(k, _) => k == id
      case Poll(k, _) => k == id
      case Copy(k) => k == id
      case Free(k) => k == id
      case Work(k) => k == id && !(if k == 1 then a else b).worker.Erasing? && !(if k == 1 then a else b).worker.Routing?
      case _ => false
    ensures Shows(Run(more), a', b', slot')
    ensures var v := ViewStep(View(if id == 1 then a else b, slot), id, step);
      slot' == v.slot && (if id == 1 then a' == v.job && b' == b else a' == a && b' == v.job)
  {
    hide ViewStep;
    more := steps + [step];
    RunThen(steps, step);
    var t := Run(more);
    a', b', slot' := t.jobs[1], t.jobs[2], t.slot;
  }

  lemma TwoIsolates() returns (steps: seq<Step>)
    ensures Shows(Run(steps), Job(0, Null, Bound, Idle), Job(0, Null, Bound, Idle), INITIAL.slot)
  {
    steps := [Bind(0), Bind(0)];
    RunThen([], Bind(0));
    RunThen([Bind(0)], Bind(0));
    assert [] + [Bind(0)] == [Bind(0)] && [Bind(0)] + [Bind(0)] == steps;
  }

  /** The condition on results is needed. For every result that does not fit the slot there is a schedule of
      two isolates in which the first, still spinning, is handed the second one's result. */
  lemma NonScalarMisleads(v: Value) returns (steps: seq<Step>)
    requires !Scalar(v)
    ensures var s := Run(steps);
      1 in s.jobs && s.jobs[1].value == v && s.jobs[1].reader == Got(Extract(Int(7)))
  {
    hide Run;
    steps := TwoIsolates();
    var a, b, slot := Job(0, Null, Bound, Idle), Job(0, Null, Bound, Idle), INITIAL.slot;
    steps, a, b, slot := Move(steps, Arm(1), 1, a, b, slot);
    steps, a, b, slot := Move(steps, Wipe(1), 1, a, b, slot);
    steps, a, b, slot := Move(steps, Publish(1), 1, a, b, slot);
    steps, a, b, slot := Move(steps, Dispatch(1, v), 1, a, b, slot);
    steps, a, b, slot := Move(steps, Work(1), 1, a, b, slot);
    steps, a, b, slot := Move(steps, Work(1), 1, a, b, slot);
    steps, a, b, slot := Move(steps, Work(1), 1, a, b, slot);
    steps := Misled(steps, a, slot);
  }

  /** The first worker has let go of the slot; the first isolate has not noticed. */
  lemma Misled(before: seq<Step>, first: Job, free: Slot) returns (steps: seq<Step>)
    requires Shows(Run(before), first, Job(0, Null, Bound, Idle), free) && first.reader.Spinning? && free.owner == 0
    ensures 1 in Run(steps).jobs && Run(steps).jobs[1] == first.(reader := Got(Extract(Int(7))))
  {
    hide Run;
    var a, b, slot := first, Job(0, Null, Bound, Idle), free;
    steps := before;
    steps, a, b, slot := Move(steps, Arm(2), 2, a, b, slot);
    steps, a, b, slot := Move(steps, Wipe(2), 2, a, b, slot);
    steps, a, b, slot := Move(steps, Publish(2), 2, a, b, slot);
    steps, a, b, slot := Move(steps, Dispatch(2, Int(7)), 2, a, b, slot);
    steps, a, b, slot := Move(steps, Work(2), 2, a, b, slot);
    steps, a, b, slot := Move(steps, Work(2), 2, a, b, slot);
    steps, a, b, slot := Move(steps, Work(2), 2, a, b, slot);
    steps := TakesWhatIsThere(steps, a, b, slot);
  }

  lemma TakesWhatIsThere(before: seq<Step>, first: Job, second: Job, full: Slot) returns (steps: seq<Step>)
    requires Shows(Run(before), first, second, full) && first.reader.Spinning? && full.flag == Done
    ensures 1 in Run(steps).jobs && Run(steps).jobs[1] == first.(reader := Got(full.payload))
  {
    hide Run;
    var a, b, slot := first, second, full;
    steps, a, b, slot := Move(before, Poll(1, false), 1, a, b, slot);
    steps, a, b, slot := Move(steps, Copy(1), 1, a, b, slot);
    steps, a, b, slot := Move(steps, Free(1), 1, a, b, slot);
  }
}
