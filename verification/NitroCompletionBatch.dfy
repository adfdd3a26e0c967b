/** The batcher object: its fields and methods, proved action by action against the machine of
    `CompletionBatch`, with every other thread free to act between any two atomic actions. */
module NitroCompletionBatch {
  import opened CompletionBatch

  /** A port's entry in the object; what is in transit is not part of it. */
  datatype Entry = Entry(inFlight: bool, pending: seq<Item>)

  function EntryAt(ports: map<nat, Entry>, port: nat): Entry {
    if port in ports then ports[port] else Entry(false, [])
  }

  function Entries(ports: map<nat, Port>): map<nat, Entry> {
    map p | p in ports :: Entry(ports[p].inFlight, ports[p].pending)
  }

  function EntryOf(ports: map<nat, Port>, port: nat): Entry {
    if port in ports then Entry(ports[port].inFlight, ports[port].pending) else Entry(false, [])
  }

  ghost predicate PortsFollow(entries: map<nat, Entry>, ports: map<nat, Port>) {
    forall port :: EntryAt(entries, port) == EntryOf(ports, port)
  }

  lemma PortMoved(entries: map<nat, Entry>, entries': map<nat, Entry>, ports: map<nat, Port>, port: nat, p: Port)
    requires PortsFollow(entries, ports)
    requires forall k | k != port :: EntryAt(entries', k) == EntryAt(entries, k)
    requires EntryAt(entries', port) == Entry(p.inFlight, p.pending)
    ensures PortsFollow(entries', ports[port := p])
  {
  }

  /** Steps that are not the worker's own for `id`. */
  predicate NotWorker(step: Step, id: nat) {
    step != Work(id) && !(step.Dispatch? && step.id == id)
  }

  /** Steps that are not the awaiting isolate's own for `id`. */
  predicate NotReader(step: Step, id: nat) {
    match step
    case Arm(k) => k != id
    case DoNotSpin(k) => k != id
    case Wipe(k) => k != id
    case Publish(k) => k != id
    case Disarm(k) => k != id
    case Poll(k, _) => k != id
    case Copy(k) => k != id
    case Free(k) => k != id
    case _ => true
  }

  /** What the others leave alone. */
  predicate Same(job: Job, job': Job, asWorker: bool) {
    && job'.port == job.port
    && (if asWorker then job'.worker == job.worker && job'.value == job.value else job'.reader == job.reader)
  }

  lemma OthersLeaveJob(s: State, step: Step, id: nat)
    requires id in s.jobs && id <= s.nextId
    ensures var t := Apply(s, step);
      && id in t.jobs && id <= t.nextId
      && (NotWorker(step, id) ==> Same(s.jobs[id], t.jobs[id], true))
      && (NotReader(step, id) ==> Same(s.jobs[id], t.jobs[id], false))
  {
  }

  class Batcher {
    var spinId: nat
    var flag: Flag
    var payload: Payload
    var lastId: nat
    var bound: map<nat, nat>
    var coalesced: set<nat>
    var ports: map<nat, Entry>

    /** The isolates, the workers and the messages around this object. */
    var world: State
    ghost var taken: seq<Step>

    ghost predicate Follows()
      reads this
    {
      && world.slot == Slot(spinId, flag, payload) && world.nextId == lastId
      && world.bound == bound && world.coalesced == coalesced
      && PortsFollow(ports, world.ports) && world == Run(taken)
    }

    constructor ()
      ensures Follows() && world == INITIAL
    {
      spinId, flag, payload, lastId := 0, Parked, CLEARED, 0;
      bound, coalesced, ports := map[], {}, map[];
      world, taken := INITIAL, [];
    }

    /** One atomic action of the machine. */
    method Act(step: Step)
      requires world == Run(taken)
      modifies `world, `taken
      ensures world == Apply(old(world), step) && world == Run(taken) && taken == old(taken) + [step]
    {
      world := Apply(world, step);
      RunThen(taken, step);
      taken := taken + [step];
    }

    /** Whatever the other threads do before this one acts again for `id`. */
    method Others(id: nat, asWorker: bool)
      requires Follows() && id in world.jobs && id <= lastId
      modifies this
      ensures Follows() && id in world.jobs && id <= lastId
      ensures Same(old(world).jobs[id], world.jobs[id], asWorker)
    {
      hide Run;
      var n: nat := *;
      while n > 0
        invariant id in world.jobs && id <= world.nextId && world == Run(taken)
        invariant Same(old(world).jobs[id], world.jobs[id], asWorker)
      {
        var step: Step := *;
        if if asWorker then NotWorker(step, id) else NotReader(step, id) {
          OthersLeaveJob(world, step, id);
          Act(step);
        }
        n := n - 1;
      }
      spinId, flag, payload := world.slot.owner, world.slot.flag, world.slot.payload;
      lastId, bound, coalesced := world.nextId, world.bound, world.coalesced;
      ports := Entries(world.ports);
    }

    method Bind(port: nat) returns (id: nat)
      requires Follows()
      modifies this
      ensures Follows() && world == Apply(old(world), CompletionBatch.Bind(port)) && id == old(lastId) + 1
    {
      hide Run;
      lastId := lastId + 1;
      id := lastId;
      bound := bound[id := port];
      Act(CompletionBatch.Bind(port));
    }

    /** The compare-and-swap that claims the slot. */
    method Claim(id: nat) returns (claimed: bool)
      requires Follows() && id in world.jobs && id <= lastId && world.jobs[id].reader.Bound?
      modifies this
      ensures Follows() && id in world.jobs && id <= lastId
      ensures world.jobs[id].reader == if claimed then Claimed else Waiting
    {
      hide PortsFollow, Run;
      Others(id, false);
      claimed := spinId == 0;
      if claimed {
        spinId := id;
      }
      Act(CompletionBatch.Arm(id));
    }

    method WipeSlot(id: nat)
      requires Follows() && id in world.jobs && id <= lastId && world.jobs[id].reader.Claimed?
      modifies this
      ensures Follows() && id in world.jobs && id <= lastId && world.jobs[id].reader.Wiped?
    {
      hide PortsFollow, Run;
      Others(id, false);
      payload := CLEARED;
      Act(Wipe(id));
    }

    method OpenSlot(id: nat)
      requires Follows() && id in world.jobs && id <= lastId && world.jobs[id].reader.Wiped?
      modifies this
      ensures Follows() && id in world.jobs && id <= lastId && world.jobs[id].reader.Spinning?
    {
      hide PortsFollow, Run;
      Others(id, false);
      flag := Pending;
      Act(Publish(id));
    }

    /** Claim the slot, wipe it, open it. */
    method Arm(id: nat) returns (armed: bool)
      requires Follows() && id in world.jobs && id <= lastId && world.jobs[id].reader.Bound?
      modifies this
      ensures Follows() && id in world.jobs
      ensures world.jobs[id].reader == if armed then Spinning else Waiting
    {
      hide Follows;
      armed := Claim(id);
      if armed {
        WipeSlot(id);
        OpenSlot(id);
      }
    }

    /** The native call threw before any worker was dispatched. */
    method Disarm(id: nat)
      requires Follows() && id in world.jobs && world.jobs[id].reader.Spinning? && world.jobs[id].worker.Idle?
      modifies this
      ensures Follows() && world == Apply(old(world), CompletionBatch.Disarm(id))
    {
      hide Run;
      if spinId == id {
        spinId := 0;
      }
      Act(CompletionBatch.Disarm(id));
    }

    /** One poll; on a hit the payload is copied before the slot is freed, and giving up ends the spinning. */
    method Poll(id: nat, giveUp: bool) returns (status: Flag, out: Payload)
      requires Follows() && id in world.jobs && id <= lastId && world.jobs[id].reader.Spinning?
      modifies this
      ensures Follows() && id in world.jobs
      ensures world.jobs[id].reader == match status case Pending => Spinning case Parked => Waiting case Done => Got(out)
      ensures giveUp ==> status != Pending
    {
      hide PortsFollow, Run;
      out := CLEARED;
      Others(id, false);
      if giveUp && flag == Pending {
        flag := Parked;
      }
      status := flag;
      Act(CompletionBatch.Poll(id, giveUp));
      if status == Done {
        out := TakePayload(id);
      }
    }

    method TakePayload(id: nat) returns (out: Payload)
      requires Follows() && id in world.jobs && id <= lastId && world.jobs[id].reader.Copying?
      modifies this
      ensures Follows() && id in world.jobs && world.jobs[id].reader == Got(out)
    {
      hide PortsFollow, Run;
      Others(id, false);
      out := payload;
      Act(Copy(id));
      Others(id, false);
      spinId := 0;
      Act(Free(id));
    }

    ghost predicate Posting(id: nat, value: Value)
      reads this
    {
      Follows() && id in world.jobs && id <= lastId && world.jobs[id].value == value
    }

    /** A scalar goes into the slot, and the flag decides whether it stays there. */
    method OfferToSlot(id: nat, value: Value) returns (won: bool)
      requires Posting(id, value) && world.jobs[id].worker.Writing?
      modifies this
      ensures Posting(id, value) && world.jobs[id].worker == if won then Erasing else Releasing
    {
      hide PortsFollow, Run;
      Others(id, true);
      payload := Extract(value);
      Act(Work(id));
      Others(id, true);
      won := flag == Pending;
      if won {
        flag := Done;
      }
      Act(Work(id));
    }

    /** Anything else only stops the reader spinning. */
    method ParkReader(id: nat, value: Value)
      requires Posting(id, value) && world.jobs[id].worker.Parking?
      modifies this
      ensures Posting(id, value) && world.jobs[id].worker == Releasing
    {
      hide PortsFollow, Run;
      Others(id, true);
      if flag == Pending {
        flag := Parked;
      }
      Act(Work(id));
    }

    method ForgetBound(id: nat, value: Value)
      requires Posting(id, value) && world.jobs[id].worker.Erasing?
      modifies this
      ensures Posting(id, value) && world.jobs[id].worker == ViaSlot
    {
      hide PortsFollow, Run;
      Others(id, true);
      bound := Without(bound, id);
      Act(Work(id));
    }

    method ReleaseSlot(id: nat, value: Value)
      requires Posting(id, value) && world.jobs[id].worker.Releasing?
      modifies this
      ensures Posting(id, value) && world.jobs[id].worker == Routing
    {
      hide PortsFollow, Run;
      Others(id, true);
      spinId := 0;
      Act(Work(id));
    }

    method LoadSpinId(id: nat, value: Value) returns (armed: bool)
      requires Posting(id, value) && world.jobs[id].worker.Loading?
      modifies this
      ensures Posting(id, value)
      ensures world.jobs[id].worker == if !armed then Routing else if Scalar(value) then Writing else Parking
    {
      hide PortsFollow, Run;
      Others(id, true);
      armed := spinId == id;
      Act(Work(id));
    }

    /** The spin fast path of `post`. */
    method TrySlot(id: nat, value: Value) returns (won: bool)
      requires Posting(id, value) && world.jobs[id].worker.Loading?
      modifies this
      ensures Posting(id, value) && world.jobs[id].worker == if won then ViaSlot else Routing
    {
      hide Follows;
      won := false;
      var armed := LoadSpinId(id, value);
      if armed {
        if Scalar(value) {
          won := OfferToSlot(id, value);
          if won {
            ForgetBound(id, value);
            return;
          }
        } else {
          ParkReader(id, value);
        }
        ReleaseSlot(id, value);
      }
    }

    /** The locked region of `post` for a batch port; `posted` says that the object goes out at once. */
    method Enter(port: nat, item: Item) returns (posted: bool)
      modifies `ports
      ensures var before := EntryAt(old(ports), port);
        && posted == !(before.inFlight && Copyable(item.value))
        && ports == old(ports)[port := if posted then before.(inFlight := true)
                                       else before.(pending := before.pending + [item])]
    {
      var entry := EntryAt(ports, port);
      if entry.inFlight && Copyable(item.value) {
        ports := ports[port := entry.(pending := entry.pending + [item])];
        return false;
      }
      ports := ports[port := entry.(inFlight := true)];
      return true;
    }

    /** The rest of `post`, under the lock. */
    method PostLocked(id: nat, value: Value)
      requires Posting(id, value) && world.jobs[id].worker.Routing?
      modifies this
      ensures Posting(id, value) && world == Apply(old(world), Work(id))
    {
      hide Run;
      if id in bound {
        var port := bound[id];
        ghost var before := ports;
        bound := Without(bound, id);
        var _ := Enter(port, Completion(id, value));
        PortMoved(before, ports, world.ports, port, Entered(PortAt(world, port), Completion(id, value)));
      }
      Act(Work(id));
    }

    /** A worker's one post for an id: it leaves through the slot or through the id's port. */
    method Post(id: nat, value: Value)
      requires Posting(id, value) && world.jobs[id].worker.Loading?
      modifies this
      ensures Posting(id, value)
      ensures var w := world.jobs[id].worker; w.ViaSlot? || w.ViaPort? || (w.Routing? && id !in bound)
    {
      hide PortsFollow, Run;
      var won := TrySlot(id, value);
      if !won {
        Others(id, true);
        PostLocked(id, value);
      }
    }

    /** A post to a stream port. */
    method PostItem(port: nat, value: Value)
      requires Follows()
      modifies this
      ensures Follows() && world == Apply(old(world), CompletionBatch.PostItem(port, value))
    {
      hide Run;
      if port in coalesced {
        ghost var before := ports;
        var _ := Enter(port, StreamItem(value));
        PortMoved(before, ports, world.ports, port, Entered(PortAt(world, port), StreamItem(value)));
      }
      Act(CompletionBatch.PostItem(port, value));
    }

    method Coalesce(port: nat)
      requires Follows()
      modifies this
      ensures Follows() && world == Apply(old(world), CompletionBatch.Coalesce(port))
    {
      hide Run;
      coalesced := coalesced + {port};
      Act(CompletionBatch.Coalesce(port));
    }

    method Uncoalesce(port: nat) returns (dropped: seq<Item>)
      requires Follows()
      modifies this
      ensures Follows() && world == Apply(old(world), CompletionBatch.Uncoalesce(port))
      ensures PortAt(world, port).freed == PortAt(old(world), port).freed + dropped
    {
      hide Run;
      coalesced := coalesced - {port};
      dropped := EntryAt(ports, port).pending;
      ghost var before := ports;
      ports := ports - {port};
      PortMoved(before, ports, world.ports, port, Released(PortAt(world, port)));
      Act(CompletionBatch.Uncoalesce(port));
    }

    /** Dart has handled a message: flush what accumulated, or go idle. */
    method Ack(port: nat) returns (flushed: seq<Item>)
      requires Follows() && PortAt(world, port).toAck > 0
      modifies this
      ensures Follows() && world == Apply(old(world), CompletionBatch.Ack(port))
      ensures PortAt(world, port).outbound == PortAt(old(world), port).outbound + if |flushed| > 0 then [flushed] else []
    {
      hide Run;
      flushed := [];
      ghost var before := ports;
      assert EntryAt(ports, port) == EntryOf(world.ports, port);
      if port in ports {
        if |ports[port].pending| == 0 {
          ports := ports[port := ports[port].(inFlight := false)];
        } else {
          flushed := ports[port].pending;
          ports := ports[port := ports[port].(pending := [])];
        }
      }
      PortMoved(before, ports, world.ports, port, Acked(PortAt(world, port)));
      Act(CompletionBatch.Ack(port));
    }
  }
}
