/** The engine object: its fields, its entry points and its loops, proved against the machine of `Engine`.
    What curl, the cache and a request's own preparation decide is arbitrary. */
module CurlEngine {
  import opened Engine
  import opened EngineAnswers

  lemma TookOneMore(hasMulti: bool, steps: seq<Step>, step: Step)
    ensures Run(hasMulti, steps + [step]) == Apply(Run(hasMulti, steps), step)
  {
    assert (steps + [step])[..|steps|] == steps;
  }

  lemma {:induction false} EndAllSnoc(s: State, ids: seq<int>, id: int, kind: Kind)
    ensures EndAll(s, ids + [id], kind) == End(EndAll(s, ids, kind), id, kind)
    decreases |ids|
  {
    hide End;
    if |ids| == 0 {
      assert ([] + [id])[1..] == [];
    } else {
      assert (ids + [id])[1..] == ids[1..] + [id];
      EndAllSnoc(End(s, ids[0], kind), ids[1..], id, kind);
    }
  }

  function TasksWithout(tasks: map<int, Task>, id: int): map<int, Task> {
    tasks - {id}
  }

  lemma EndLeavesOthers(s: State, id: int, kind: Kind)
    ensures End(s, id, kind).tasks == TasksWithout(s.tasks, id)
  {
  }

  lemma SomeId(ids: set<int>)
    ensures ids == {} || exists id :: id in ids
  {
    if forall id :: id !in ids {
      assert ids == {};
    }
  }

  lemma AllFlagged(before: map<int, Task>, tasks: map<int, Task>)
    requires tasks.Keys == before.Keys && forall id | id in tasks :: tasks[id] == Flagged(before[id])
    ensures tasks == map id | id in before :: Flagged(before[id])
  {
    var flagged := map id | id in before :: Flagged(before[id]);
    assert flagged.Keys == before.Keys;
    assert forall id | id in tasks :: id in tasks.Keys && id in flagged && tasks[id] == flagged[id];
  }

  class Loop {
    ghost const hasMulti: bool
    var inbox: seq<Op>
    var tasks: map<int, Task>
    var preCancelled: seq<int>
    var flagged: set<nat>
    var shutdownDone: bool
    var stopping: bool
    var posted: seq<Answer>
    var requests: nat

    ghost var machine: State
    ghost var taken: seq<Step>

    ghost predicate Follows()
      reads this
    {
      && machine.inbox == inbox && machine.tasks == tasks && machine.preCancelled == preCancelled
      && machine.flagged == flagged && machine.posted == posted && machine.next == requests
      && machine.stopping == stopping && (shutdownDone <==> machine.shutdown != Running)
    }

    ghost predicate Valid()
      reads this
    {
      Follows() && machine == Run(hasMulti, taken)
    }

    constructor (hasMulti: bool)
      ensures Valid() && this.hasMulti == hasMulti
    {
      this.hasMulti := hasMulti;
      inbox, tasks, preCancelled, flagged, posted, requests := [], map[], [], {}, [], 0;
      shutdownDone, stopping := false, !hasMulti;
      machine, taken := Init(hasMulti), [];
    }

    ghost method Stepped(step: Step)
      requires Follows() && machine == Apply(Run(hasMulti, taken), step)
      modifies `taken
      ensures Valid() && taken == old(taken) + [step]
    {
      hide Run, Apply;
      TookOneMore(hasMulti, taken, step);
      taken := taken + [step];
    }

    // ----- Any thread -----

    /** `push`; a refused submit is answered inline. */
    method PushOp(op: Op)
      requires Valid() && !op.Submit? && !op.Stop?
      modifies this
      ensures Valid() && taken == old(taken) + [Push(op)]
    {
      hide Run;
      if !shutdownDone && !stopping {
        inbox := inbox + [op];
      }
      machine := Apply(machine, Push(op));
      Stepped(Push(op));
    }

    method SubmitRequest(id: int, cancelToken: nat)
      requires Valid()
      modifies this
      ensures Valid() && taken == old(taken) + [DoSubmit(id, cancelToken)]
    {
      hide Run;
      var request := requests;
      requests := requests + 1;
      if !shutdownDone && !stopping {
        inbox := inbox + [Submit(request, id, cancelToken)];
      } else {
        posted := posted + [Answer(request, ShutDown)];
      }
      machine := Apply(machine, DoSubmit(id, cancelToken));
      Stepped(DoSubmit(id, cancelToken));
    }

    method CancelRequest(id: int)
      requires Valid()
      modifies this
      ensures Valid() && taken == old(taken) + [FlagCancel(id), Push(Cancel(id))]
    {
      hide Run;
      if id in tasks {
        tasks := tasks[id := Flagged(tasks[id])];
      }
      machine := Apply(machine, FlagCancel(id));
      Stepped(FlagCancel(id));
      PushOp(Cancel(id));
    }

    /** `cancelAll`: every live task's flag, then the op. */
    method CancelAllRequests()
      requires Valid()
      modifies this
      ensures Valid() && taken == old(taken) + [FlagAll, Push(CancelAll)]
    {
      hide Run;
      ghost var before := tasks;
      var left := tasks.Keys;
      while left != {}
        modifies `tasks
        invariant tasks.Keys == before.Keys && left <= tasks.Keys
        invariant forall id | id in tasks :: tasks[id] == if id in left then before[id] else Flagged(before[id])
        decreases |left|
      {
        SomeId(left);
        var id :| id in left;
        tasks := tasks[id := Flagged(tasks[id])];
        left := left - {id};
      }
      AllFlagged(before, tasks);
      machine := Apply(machine, FlagAll);
      Stepped(FlagAll);
      PushOp(CancelAll);
    }

    /** `cancelToken`: the registry's flag first, then the op. */
    method CancelByToken(cancelToken: nat)
      requires Valid()
      modifies this
      ensures Valid()
      ensures taken == if cancelToken == 0 then old(taken) else old(taken) + [FlagToken(cancelToken), Push(CancelToken(cancelToken))]
    {
      hide Run;
      if cancelToken == 0 {
        return;
      }
      flagged := flagged + {cancelToken};
      machine := Apply(machine, FlagToken(cancelToken));
      Stepped(FlagToken(cancelToken));
      PushOp(CancelToken(cancelToken));
    }

    /** `CancelRegistry::release`: a later request with this token finds a fresh flag. */
    method ReleaseCancelToken(cancelToken: nat)
      requires Valid()
      modifies this
      ensures Valid() && taken == old(taken) + [ReleaseToken(cancelToken)]
      ensures flagged == old(flagged) - {cancelToken}
    {
      hide Run;
      flagged := flagged - {cancelToken};
      machine := Apply(machine, ReleaseToken(cancelToken));
      Stepped(ReleaseToken(cancelToken));
    }

    /** `CancelRegistry::clear`, after a hot restart. */
    method ClearCancelTokens()
      requires Valid()
      modifies this
      ensures Valid() && taken == old(taken) + [ClearTokens] && flagged == {}
    {
      hide Run;
      flagged := {};
      machine := Apply(machine, ClearTokens);
      Stepped(ClearTokens);
    }

    method Shutdown()
      requires Valid()
      modifies this
      ensures Valid() && shutdownDone
      ensures taken == if old(shutdownDone) then old(taken) else old(taken) + [BeginShutdown, AppendStop]
    {
      hide Run;
      if shutdownDone {
        return;
      }
      shutdownDone := true;
      machine := Apply(machine, BeginShutdown);
      Stepped(BeginShutdown);
      inbox := inbox + [Stop];
      machine := Apply(machine, AppendStop);
      Stepped(AppendStop);
    }

    // ----- The loop thread -----

    method CompleteTask(id: int, kind: Kind)
      requires Follows()
      modifies `tasks, `posted, `machine
      ensures Follows() && machine == Complete(old(machine), id, kind)
    {
      if id in tasks && !tasks[id].completed {
        posted := posted + [Answer(tasks[id].token, kind)];
        tasks := tasks[id := tasks[id].(completed := true)];
      }
      machine := Complete(machine, id, kind);
    }

    /** `retire`: the map entry goes, and the destructor runs. */
    method RetireTask(id: int)
      requires Follows()
      modifies `tasks, `posted, `machine
      ensures Follows() && machine == Retire(old(machine), id)
    {
      ghost var s := machine;
      CompleteTask(id, Destroyed);
      tasks := tasks - {id};
      machine := Retire(s, id);
    }

    method EndTask(id: int, kind: Kind)
      requires Follows()
      modifies `tasks, `posted, `machine
      ensures Follows() && machine == End(old(machine), id, kind)
    {
      hide Complete, Retire;
      CompleteTask(id, kind);
      RetireTask(id);
    }

    /** Tasks collected under the lock, then ended one by one, in whatever order the map gave them. */
    method EndTasks(ids: set<int>, kind: Kind) returns (ghost order: seq<int>)
      requires Follows()
      modifies `tasks, `posted, `machine
      ensures Follows() && machine == EndAll(old(machine), order, kind)
      ensures forall id :: id in order <==> id in ids
    {
      hide End;
      var left := ids;
      order := [];
      while left != {}
        invariant Follows() && machine == EndAll(old(machine), order, kind)
        invariant left <= ids && forall id :: id in order <==> id in ids - left
        decreases |left|
      {
        SomeId(left);
        var id :| id in left;
        EndAllSnoc(old(machine), order, id, kind);
        EndTask(id, kind);
        left, order := left - {id}, order + [id];
      }
    }

    method FindPreCancelled(id: int) returns (at: nat)
      ensures at == IndexOf(preCancelled, id)
    {
      at := 0;
      while at < |preCancelled| && preCancelled[at] != id
        invariant at <= |preCancelled| && IndexOf(preCancelled, id) == at + IndexOf(preCancelled[at..], id)
      {
        assert preCancelled[at..][1..] == preCancelled[at + 1..];
        at := at + 1;
      }
    }

    method StartTask(op: Op, outcome: Outcome)
      requires Follows() && op.Submit?
      modifies `tasks, `posted, `preCancelled, `machine
      ensures Follows() && machine == Start(old(machine), op, outcome)
    {
      hide IndexOf;
      var at := FindPreCancelled(op.id);
      if op.cancelToken in flagged {
        posted := posted + [Answer(op.token, Cancelled)];
      } else if at < |preCancelled| {
        preCancelled := preCancelled[..at] + preCancelled[at + 1..];
        posted := posted + [Answer(op.token, Cancelled)];
      } else if op.id in tasks {
        posted := posted + [Answer(op.token, Duplicate)];
      } else if outcome.Attached? {
        tasks := tasks[op.id := Task(op.token, op.cancelToken, false, false)];
      } else {
        var kind := match outcome case CacheHit => Response case Throws => Destroyed case _ => Failure;
        posted := posted + [Answer(op.token, kind)];
      }
      machine := Start(machine, op, outcome);
    }

    /** The switch on the op. A cancel by token ends the transfers with that token and no others, a cancel of
        everything ends all, and each is told so unless it had answered. */
    method HandleOp(op: Op, outcome: Outcome) returns (ghost order: seq<int>)
      requires Follows()
      modifies `tasks, `posted, `preCancelled, `stopping, `machine
      ensures Follows() && machine == Handle(old(machine), op, outcome, order) && IsOrder(old(machine), op, order)
      ensures op.CancelToken? ==> TokenCancelled(old(tasks), old(posted), tasks, posted, op.cancelToken)
      ensures op.CancelAll? ==> AllCancelled(old(tasks), old(posted), tasks, posted)
    {
      hide Start, End, EndAll, TokenCancelled, AllCancelled;
      order := [];
      match op {
        case Submit(_, _, _) => StartTask(op, outcome);
        case Cancel(id) =>
          if id in tasks {
            EndTask(id, Cancelled);
          } else {
            RememberCancel(id);
          }
        case CancelToken(cancelToken) =>
          order := EndTasks(Bound(tasks, cancelToken), Cancelled);
          HoldersSwept(old(machine), cancelToken, order);
        case CancelAll =>
          order := EndTasks(tasks.Keys, Cancelled);
          AllSwept(old(machine), order);
        case Other(_) =>
        case Stop =>
          stopping := true;
          machine := machine.(stopping := true);
      }
    }

    method RememberCancel(id: int)
      requires Follows()
      modifies `preCancelled, `machine
      ensures Follows() && machine == old(machine).(preCancelled := Remember(old(preCancelled), id))
    {
      if |preCancelled| >= MAX_PRE_CANCELLED {
        preCancelled := preCancelled[1..];
      }
      preCancelled := preCancelled + [id];
      machine := machine.(preCancelled := preCancelled);
    }

    method DrainInbox() returns (didWork: bool)
      requires Valid() && !machine.loopDone
      modifies this
      ensures Valid() && inbox == [] && machine.loopDone == old(machine).loopDone
      ensures didWork <==> |old(inbox)| > 0
      ensures |taken| == |old(taken)| + |old(inbox)| && old(taken) <= taken
      ensures forall i | |old(taken)| <= i < |taken| :: taken[i].DrainOne?
    {
      hide Run, Handle, IsOrder;
      didWork := false;
      while |inbox| > 0
        invariant Valid() && !machine.loopDone
        invariant |taken| + |inbox| == |old(taken)| + |old(inbox)| && old(taken) <= taken
        invariant forall i | |old(taken)| <= i < |taken| :: taken[i].DrainOne?
        invariant if didWork then |old(inbox)| > 0 else inbox == old(inbox)
        decreases |inbox|
      {
        didWork := true;
        ghost var s := machine;
        var op, outcome: Outcome := inbox[0], *;
        inbox := inbox[1..];
        machine := machine.(inbox := inbox);
        var order := HandleOp(op, outcome);
        HandleGrows(s.(inbox := s.inbox[1..]), op, outcome, order);
        OrderIgnoresInbox(s, inbox, op, order);
        machine := Noted(s, op, machine);
        Stepped(DrainOne(outcome, order));
      }
    }

    /** Curl reports a transfer done: `finish`, then `retire`. */
    method TransferDone(id: int, kind: Kind)
      requires Valid() && !machine.loopDone
      modifies this
      ensures Valid() && taken == old(taken) + [CurlDone(id, kind)]
      ensures tasks == TasksWithout(old(tasks), id) && machine.loopDone == old(machine).loopDone
    {
      hide Run;
      ghost var s := machine;
      EndLeavesOthers(s, id, kind);
      EndTask(id, kind);
      EndGrows(s, id, kind);
      Stepped(CurlDone(id, kind));
    }

    /** The transfers found to have been silent too long, one by one. */
    method EnforceIdleDeadlines(expired: set<int>)
      requires Valid() && !machine.loopDone
      modifies this
      ensures Valid() && !machine.loopDone
      ensures forall id :: id in tasks <==> id in old(tasks) && (id in expired ==> old(tasks)[id].completed)
      ensures forall id | id in tasks :: tasks[id] == old(tasks)[id]
    {
      hide Run, End;
      var left := expired;
      while left != {}
        invariant Valid() && !machine.loopDone && left <= expired
        invariant forall id :: id in tasks <==> id in old(tasks) && (id in expired - left ==> old(tasks)[id].completed)
        invariant forall id | id in tasks :: tasks[id] == old(tasks)[id]
        decreases |left|
      {
        SomeId(left);
        var id :| id in left;
        left := left - {id};
        if id in tasks && !tasks[id].completed {
          ghost var s := machine;
          EndLeavesOthers(s, id, Failure);
          EndTask(id, Failure);
          EndGrows(s, id, Failure);
          Stepped(IdleExpires(id));
        }
      }
    }

    /** `completeAllWith`, then the ops that were left behind. */
    method ExitTheLoop()
      requires Valid() && stopping && !machine.loopDone
      modifies this
      ensures Valid() && machine.loopDone && tasks == map[]
      ensures forall token: nat | token < requests :: IsAnswered(machine, token)
    {
      hide Run, EndAll, AnswerLeftover;
      ghost var s := machine;
      var order := EndTasks(tasks.Keys, ShutDown);
      EndAllGrows(s, order, ShutDown);
      var leftover := inbox;
      inbox := [];
      machine := machine.(inbox := []);
      AnswerOps(leftover);
      machine := machine.(loopDone := true);
      Stepped(ExitLoop(order));
      RunKeepsInv(hasMulti, taken);
      forall token: nat | token < requests
        ensures IsAnswered(machine, token)
      {
        AllAnsweredAfterShutdown(hasMulti, taken, token);
      }
    }

    method AnswerOps(leftover: seq<Op>)
      requires Follows()
      modifies `posted, `machine
      ensures Follows() && machine == AnswerLeftover(old(machine), leftover)
    {
      ghost var s := machine;
      var i := 0;
      assert leftover[0..] == leftover;
      while i < |leftover|
        invariant i <= |leftover| && Follows()
        invariant AnswerLeftover(machine, leftover[i..]) == AnswerLeftover(s, leftover)
      {
        assert leftover[i..][1..] == leftover[i + 1..];
        if leftover[i].Submit? {
          posted := posted + [Answer(leftover[i].token, ShutDown)];
          machine := Post(machine, leftover[i].token, ShutDown);
        }
        i := i + 1;
      }
    }
  }

  lemma OrderIgnoresInbox(s: State, inbox: seq<Op>, op: Op, order: seq<int>)
    ensures IsOrder(s.(inbox := inbox), op, order) == IsOrder(s, op, order)
  {
  }
}
