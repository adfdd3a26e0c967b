/** Who is told what, and why: which transfers a cancel ends, what each answer's kind says of the step that gave it,
    and when a submission is refused. */
module EngineAnswers {
  import opened Engine

  // ----- Many transfers ended at once -----

  /** The transfers `gone` have left, each answered `kind` if it had not answered before; the others are as they were,
      and nobody else is answered. */
  ghost predicate Swept(tasks: map<int, Task>, posted: seq<Answer>, tasks': map<int, Task>, posted': seq<Answer>,
                        gone: set<int>, kind: Kind) {
    && (forall id :: id in tasks' <==> id in tasks && id !in gone)
    && (forall id | id in tasks' :: tasks'[id] == tasks[id])
    && posted <= posted'
    && (forall id | id in tasks && id in gone && !tasks[id].completed ::
          Answer(tasks[id].token, kind) in posted'[|posted|..])
    && (forall a | a in posted'[|posted|..] :: ToldOne(tasks, gone, kind, a))
  }

  /** An answer to one of `gone`. */
  ghost predicate ToldOne(tasks: map<int, Task>, gone: set<int>, kind: Kind, a: Answer) {
    a.kind == kind && exists id :: id in tasks && id in gone && !tasks[id].completed && tasks[id].token == a.token
  }

  /** One transfer ended. */
  lemma EndSweeps(s: State, id: int, kind: Kind)
    ensures var t := End(s, id, kind);
      && t.tasks == s.tasks - {id}
      && t.posted == s.posted + if id in s.tasks && !s.tasks[id].completed then [Answer(s.tasks[id].token, kind)] else []
  {
  }

  lemma SweptThen(tasks: map<int, Task>, posted: seq<Answer>, first: seq<Answer>, id: int, rest: set<int>, kind: Kind,
                  tasks': map<int, Task>, posted': seq<Answer>)
    requires first == if id in tasks && !tasks[id].completed then [Answer(tasks[id].token, kind)] else []
    requires Swept(tasks - {id}, posted + first, tasks', posted', rest, kind)
    ensures Swept(tasks, posted, tasks', posted', {id} + rest, kind)
  {
    var gone, told, more := {id} + rest, posted'[|posted|..], posted'[|posted + first|..];
    assert told == first + more;
    forall a | a in told
      ensures ToldOne(tasks, gone, kind, a)
    {
      if a in more {
        assert ToldOne(tasks - {id}, rest, kind, a);
      } else {
        assert a in first;
      }
    }
    forall k | k in tasks && k in gone && !tasks[k].completed
      ensures Answer(tasks[k].token, kind) in told
    {
      if k == id {
        assert first[0] in told;
      } else {
        assert k in tasks - {id};
      }
    }
    hide ToldOne;
  }

  lemma {:induction false} EndAllSweeps(s: State, ids: seq<int>, kind: Kind)
    ensures var t := EndAll(s, ids, kind); Swept(s.tasks, s.posted, t.tasks, t.posted, SetOf(ids), kind)
    decreases |ids|
  {
    hide End;
    if |ids| > 0 {
      EndAllSweeps(End(s, ids[0], kind), ids[1..], kind);
      EndSweeps(s, ids[0], kind);
      var id, t := ids[0], EndAll(s, ids, kind);
      var first := if id in s.tasks && !s.tasks[id].completed then [Answer(s.tasks[id].token, kind)] else [];
      SweptThen(s.tasks, s.posted, first, id, SetOf(ids[1..]), kind, t.tasks, t.posted);
      assert SetOf(ids) == {ids[0]} + SetOf(ids[1..]);
    }
  }

  /** A cancel by token: every transfer with that token is gone, and told that it was cancelled if it had not answered;
      every other one is as it was, and nobody else is told anything. */
  ghost predicate TokenCancelled(tasks: map<int, Task>, posted: seq<Answer>, tasks': map<int, Task>, posted': seq<Answer>,
                                 cancelToken: nat) {
    && (forall id :: id in tasks' <==> id in tasks && tasks[id].cancelToken != cancelToken)
    && (forall id | id in tasks' :: tasks'[id] == tasks[id])
    && posted <= posted'
    && (forall id | id in tasks && tasks[id].cancelToken == cancelToken && !tasks[id].completed ::
          Answer(tasks[id].token, Cancelled) in posted'[|posted|..])
    && (forall a | a in posted'[|posted|..] :: ToldHolder(tasks, cancelToken, a))
  }

  ghost predicate ToldHolder(tasks: map<int, Task>, cancelToken: nat, a: Answer) {
    a.kind == Cancelled
    && exists id :: id in tasks && tasks[id].cancelToken == cancelToken && !tasks[id].completed && tasks[id].token == a.token
  }

  /** A cancel of everything: no transfer is left, each told so if it had not answered, and nobody else. */
  ghost predicate AllCancelled(tasks: map<int, Task>, posted: seq<Answer>, tasks': map<int, Task>, posted': seq<Answer>) {
    && tasks' == map[]
    && posted <= posted'
    && (forall id | id in tasks && !tasks[id].completed :: Answer(tasks[id].token, Cancelled) in posted'[|posted|..])
    && (forall a | a in posted'[|posted|..] :: ToldLive(tasks, a))
  }

  ghost predicate ToldLive(tasks: map<int, Task>, a: Answer) {
    a.kind == Cancelled && exists id :: id in tasks && !tasks[id].completed && tasks[id].token == a.token
  }

  /** `order` lists the holders of the token, all of them and no others. */
  ghost predicate ListsHolders(tasks: map<int, Task>, cancelToken: nat, order: seq<int>) {
    forall id :: id in order <==> id in tasks && tasks[id].cancelToken == cancelToken
  }

  ghost predicate ListsAll(tasks: map<int, Task>, order: seq<int>) {
    forall id :: id in order <==> id in tasks
  }

  lemma HoldersSwept(s: State, cancelToken: nat, order: seq<int>)
    requires ListsHolders(s.tasks, cancelToken, order)
    ensures var t := EndAll(s, order, Cancelled); TokenCancelled(s.tasks, s.posted, t.tasks, t.posted, cancelToken)
  {
    EndAllSweeps(s, order, Cancelled);
    hide EndAll;
    var t, gone := EndAll(s, order, Cancelled), SetOf(order);
    forall a | a in t.posted[|s.posted|..]
      ensures ToldHolder(s.tasks, cancelToken, a)
    {
      assert ToldOne(s.tasks, gone, Cancelled, a);
    }
  }

  lemma AllSwept(s: State, order: seq<int>)
    requires ListsAll(s.tasks, order)
    ensures var t := EndAll(s, order, Cancelled); AllCancelled(s.tasks, s.posted, t.tasks, t.posted)
  {
    EndAllSweeps(s, order, Cancelled);
    hide EndAll;
    var t, gone := EndAll(s, order, Cancelled), SetOf(order);
    forall a | a in t.posted[|s.posted|..]
      ensures ToldLive(s.tasks, a)
    {
      assert ToldOne(s.tasks, gone, Cancelled, a);
    }
    forall id
      ensures id !in t.tasks
    {
      assert id in order <==> id in gone;
    }
    assert t.tasks.Keys == {};
  }

  /** In every reachable state with a cancel by token at the head of the inbox: the loop takes it in whatever order
      the map yields the holders, and then exactly they have ended. */
  lemma TokenCancelEndsItsHolders(hasMulti: bool, steps: seq<Step>, outcome: Outcome, order: seq<int>)
    requires var s := Run(hasMulti, steps); !s.loopDone && |s.inbox| > 0 && s.inbox[0].CancelToken?
    ensures var s := Run(hasMulti, steps);
      var t, cancelToken := Run(hasMulti, steps + [DrainOne(outcome, order)]), s.inbox[0].cancelToken;
      if ListsHolders(s.tasks, cancelToken, order)
      then t.inbox == s.inbox[1..] && TokenCancelled(s.tasks, s.posted, t.tasks, t.posted, cancelToken)
      else t == s
  {
    var s := Run(hasMulti, steps);
    var r, cancelToken := s.(inbox := s.inbox[1..]), s.inbox[0].cancelToken;
    RunThen(hasMulti, steps, DrainOne(outcome, order));
    assert IsOrder(s, s.inbox[0], order) <==> ListsHolders(s.tasks, cancelToken, order);
    if ListsHolders(s.tasks, cancelToken, order) {
      HoldersSwept(r, cancelToken, order);
      EndAllGrows(r, order, Cancelled);
      hide EndAll, Run;
    }
  }

  lemma CancelAllEndsEverything(hasMulti: bool, steps: seq<Step>, outcome: Outcome, order: seq<int>)
    requires var s := Run(hasMulti, steps); !s.loopDone && |s.inbox| > 0 && s.inbox[0].CancelAll?
    ensures var s, t := Run(hasMulti, steps), Run(hasMulti, steps + [DrainOne(outcome, order)]);
      if ListsAll(s.tasks, order) then t.inbox == s.inbox[1..] && AllCancelled(s.tasks, s.posted, t.tasks, t.posted)
      else t == s
  {
    var s := Run(hasMulti, steps);
    var r := s.(inbox := s.inbox[1..]);
    RunThen(hasMulti, steps, DrainOne(outcome, order));
    assert IsOrder(s, s.inbox[0], order) <==> ListsAll(s.tasks, order);
    if ListsAll(s.tasks, order) {
      AllSwept(r, order);
      EndAllGrows(r, order, Cancelled);
      hide EndAll, Run;
    }
  }

  // ----- A transfer is what was submitted -----

  /** The submission numbered `token` was made for this id with this cancel token, and taken. */
  ghost predicate SubmittedAs(hasMulti: bool, steps: seq<Step>, token: nat, id: int, cancelToken: nat) {
    exists k :: SubmitMade(hasMulti, steps, k, token, id, cancelToken)
  }

  ghost predicate SubmitMade(hasMulti: bool, steps: seq<Step>, k: nat, token: nat, id: int, cancelToken: nat) {
    k < |steps| && steps[k] == DoSubmit(id, cancelToken) && Run(hasMulti, steps[..k]).next == token
  }

  ghost predicate Faithful(s: State, hasMulti: bool, steps: seq<Step>) {
    && (forall i | 0 <= i < |s.inbox| && s.inbox[i].Submit? ::
          SubmittedAs(hasMulti, steps, s.inbox[i].token, s.inbox[i].id, s.inbox[i].cancelToken))
    && (forall id | id in s.tasks :: SubmittedAs(hasMulti, steps, s.tasks[id].token, id, s.tasks[id].cancelToken))
  }

  lemma StillSubmitted(hasMulti: bool, steps: seq<Step>, step: Step, token: nat, id: int, cancelToken: nat)
    requires SubmittedAs(hasMulti, steps, token, id, cancelToken)
    ensures SubmittedAs(hasMulti, steps + [step], token, id, cancelToken)
  {
    hide Run;
    var k: nat :| SubmitMade(hasMulti, steps, k, token, id, cancelToken);
    assert (steps + [step])[..k] == steps[..k];
    assert SubmitMade(hasMulti, steps + [step], k, token, id, cancelToken);
  }

  /** What a step leaves in the inbox and among the transfers was there before, but for the submission it makes
      and the transfer that the submission at the head of the inbox becomes. */
  ghost predicate Moves(s: State, t: State, step: Step) {
    && (forall op | op in t.inbox && op.Submit? :: op in s.inbox || (step == DoSubmit(op.id, op.cancelToken) && op.token == s.next))
    && (forall id | id in t.tasks ::
          || (id in s.tasks && t.tasks[id].token == s.tasks[id].token && t.tasks[id].cancelToken == s.tasks[id].cancelToken)
          || (|s.inbox| > 0 && s.inbox[0] == Submit(t.tasks[id].token, id, t.tasks[id].cancelToken)))
  }

  lemma {:induction false} EndAllLeaves(s: State, ids: seq<int>, kind: Kind)
    ensures var t := EndAll(s, ids, kind); forall id | id in t.tasks :: id in s.tasks && t.tasks[id] == s.tasks[id]
    ensures EndAll(s, ids, kind).inbox == s.inbox
    decreases |ids|
  {
    EndAllSweeps(s, ids, kind);
    EndAllGrows(s, ids, kind);
    hide EndAll;
  }

  lemma ExitLeaves(s: State, order: seq<int>)
    ensures Exit(s, order).inbox == [] && forall id | id in Exit(s, order).tasks :: id in s.tasks && Exit(s, order).tasks[id] == s.tasks[id]
  {
    EndAllLeaves(s, order, ShutDown);
    LeftoverLeaves(EndAll(s, order, ShutDown).(inbox := []), s.inbox);
    hide EndAll, AnswerLeftover;
  }

  lemma {:induction false} LeftoverLeaves(s: State, ops: seq<Op>)
    ensures AnswerLeftover(s, ops).inbox == s.inbox && AnswerLeftover(s, ops).tasks == s.tasks
    decreases |ops|
  {
    if |ops| > 0 {
      LeftoverLeaves(if ops[0].Submit? then Post(s, ops[0].token, ShutDown) else s, ops[1..]);
    }
  }

  /** Nothing joins the inbox and no transfer is new. */
  lemma FewerMoves(s: State, t: State, step: Step)
    requires t.inbox == s.inbox || (|s.inbox| > 0 && t.inbox == s.inbox[1..]) || t.inbox == []
    requires forall id | id in t.tasks ::
      id in s.tasks && t.tasks[id].token == s.tasks[id].token && t.tasks[id].cancelToken == s.tasks[id].cancelToken
    ensures Moves(s, t, step)
  {
  }

  lemma DrainMoves(s: State, outcome: Outcome, order: seq<int>)
    requires |s.inbox| > 0
    ensures Moves(s, Handle(s.(inbox := s.inbox[1..]), s.inbox[0], outcome, order), DrainOne(outcome, order))
  {
    hide End, EndAll, Moves;
    var r := s.(inbox := s.inbox[1..]);
    var step, t := DrainOne(outcome, order), Handle(r, s.inbox[0], outcome, order);
    match s.inbox[0] {
      case Submit(_, _, _) => StartMoves(s, outcome, order);
      case Cancel(id) =>
        EndSweeps(r, id, Cancelled);
        EndGrows(r, id, Cancelled);
        FewerMoves(s, t, step);
      case _ =>
        EndAllLeaves(r, order, Cancelled);
        FewerMoves(s, t, step);
    }
  }

  lemma StartMoves(s: State, outcome: Outcome, order: seq<int>)
    requires |s.inbox| > 0 && s.inbox[0].Submit?
    ensures Moves(s, Start(s.(inbox := s.inbox[1..]), s.inbox[0], outcome), DrainOne(outcome, order))
  {
    hide IndexOf;
  }

  lemma CallMoves(s: State, step: Step)
    requires step.DoSubmit? || step.Push? || step.AppendStop?
    ensures Moves(s, Apply(s, step), step)
  {
  }

  lemma StepMoves(s: State, step: Step)
    ensures Moves(s, Apply(s, step), step)
  {
    hide Handle, Exit, End, LetThrough, IsOrder, Moves;
    var t := Apply(s, step);
    match step {
      case DrainOne(outcome, order) =>
        if |s.inbox| > 0 {
          DrainMoves(s, outcome, order);
          MovesIgnoresStarts(s, Handle(s.(inbox := s.inbox[1..]), s.inbox[0], outcome, order), step);
        }
        FewerMoves(s, s, step);
      case ExitLoop(order) =>
        ExitLeaves(s, order);
        FewerMoves(s, t, step);
      case CurlDone(id, kind) =>
        EndSweeps(s, id, kind);
        EndGrows(s, id, kind);
        FewerMoves(s, t, step);
      case IdleExpires(id) =>
        EndSweeps(s, id, Failure);
        EndGrows(s, id, Failure);
        FewerMoves(s, t, step);
      case DoSubmit(_, _) => CallMoves(s, step);
      case Push(_) => CallMoves(s, step);
      case AppendStop => CallMoves(s, step);
      case _ => FewerMoves(s, t, step);
    }
  }

  lemma MovesIgnoresStarts(s: State, t: State, step: Step)
    requires |s.inbox| > 0 && Moves(s, t, step)
    ensures Moves(s, Noted(s, s.inbox[0], t), step)
  {
    hide LetThrough;
  }

  lemma FaithfulStep(s: State, t: State, hasMulti: bool, steps: seq<Step>, step: Step)
    requires s == Run(hasMulti, steps) && Moves(s, t, step) && Faithful(s, hasMulti, steps)
    ensures Faithful(t, hasMulti, steps + [step])
  {
    hide Run;
    var more := steps + [step];
    assert more[..|steps|] == steps;
    forall i | 0 <= i < |t.inbox| && t.inbox[i].Submit?
      ensures SubmittedAs(hasMulti, more, t.inbox[i].token, t.inbox[i].id, t.inbox[i].cancelToken)
    {
      var op := t.inbox[i];
      if op in s.inbox {
        StillSubmitted(hasMulti, steps, step, op.token, op.id, op.cancelToken);
      } else {
        assert SubmitMade(hasMulti, more, |steps|, op.token, op.id, op.cancelToken);
      }
    }
    forall id | id in t.tasks
      ensures SubmittedAs(hasMulti, more, t.tasks[id].token, id, t.tasks[id].cancelToken)
    {
      StillSubmitted(hasMulti, steps, step, t.tasks[id].token, id, t.tasks[id].cancelToken);
    }
  }

  /** Over every run: what waits in the inbox and every transfer carries the number, the id and the cancel token of
      the call that submitted it. */
  lemma {:induction false} TransfersAreAsSubmitted(hasMulti: bool, steps: seq<Step>)
    ensures Faithful(Run(hasMulti, steps), hasMulti, steps)
  {
    if |steps| > 0 {
      var before, step := steps[..|steps| - 1], steps[|steps| - 1];
      TransfersAreAsSubmitted(hasMulti, before);
      StepMoves(Run(hasMulti, before), step);
      FaithfulStep(Run(hasMulti, before), Run(hasMulti, steps), hasMulti, before, step);
      assert steps == before + [step];
      hide Apply, Faithful;
    }
  }

  // ----- Why each answer was given -----

  predicate DrainsFor(s: State, step: Step, token: nat) {
    DrainsSubmit(s, step) && s.inbox[0].token == token
  }

  /** Nothing refuses the submission that is drained. */
  predicate Admitted(s: State, op: Op) {
    op.Submit? && op.cancelToken !in s.flagged && op.id !in s.preCancelled && op.id !in s.tasks
  }

  predicate Holds(s: State, id: int, token: nat) {
    id in s.tasks && s.tasks[id].token == token && !s.tasks[id].completed
  }

  /** The cancel `op` is meant for this transfer. */
  predicate Meant(s: State, op: Op, id: int, token: nat) {
    Holds(s, id, token) &&
    match op
    case Cancel(k) => k == id
    case CancelToken(cancelToken) => s.tasks[id].cancelToken == cancelToken
    case CancelAll => true
    case _ => false
  }

  /** What the kind of an answer says of the step that gave it. */
  ghost predicate Explained(s: State, step: Step, a: Answer) {
    (step.CurlDone? && step.kind == a.kind && Holds(s, step.id, a.token)) ||
    match a.kind
    case ShutDown =>
      (step.DoSubmit? && a.token == s.next && (s.shutdown != Running || s.stopping)) || step.ExitLoop?
    case Duplicate =>
      DrainsFor(s, step, a.token) && s.inbox[0].id in s.tasks
      && s.inbox[0].cancelToken !in s.flagged && s.inbox[0].id !in s.preCancelled
    case Cancelled =>
      || (DrainsFor(s, step, a.token) && (s.inbox[0].cancelToken in s.flagged || s.inbox[0].id in s.preCancelled))
      || (step.DrainOne? && |s.inbox| > 0 && exists id :: Meant(s, s.inbox[0], id, a.token))
    case Response => DrainsFor(s, step, a.token) && Admitted(s, s.inbox[0]) && step.outcome == CacheHit
    case Failure =>
      || (DrainsFor(s, step, a.token) && Admitted(s, s.inbox[0]) && (step.outcome == PrepareFails || step.outcome == AddFails))
      || ((step.InCallback? || step.IdleExpires?) && Holds(s, step.id, a.token))
    case Destroyed => DrainsFor(s, step, a.token) && Admitted(s, s.inbox[0]) && step.outcome == Throws
  }

  /** All that a step posts is explained. */
  ghost predicate AllExplained(s: State, step: Step, posted: seq<Answer>) {
    s.posted <= posted && forall a | a in posted[|s.posted|..] :: Explained(s, step, a)
  }

  lemma NothingNew(s: State, step: Step)
    ensures AllExplained(s, step, s.posted)
  {
  }

  lemma OneNew(s: State, step: Step, a: Answer)
    requires Explained(s, step, a)
    ensures AllExplained(s, step, s.posted + [a])
  {
    assert (s.posted + [a])[|s.posted|..] == [a];
    hide Explained;
  }

  lemma StartExplained(s: State, step: Step)
    requires DrainsSubmit(s, step)
    ensures AllExplained(s, step, Start(s.(inbox := s.inbox[1..]), s.inbox[0], step.outcome).posted)
  {
    var op, r := s.inbox[0], s.(inbox := s.inbox[1..]);
    var t := Start(r, op, step.outcome);
    Found(s.preCancelled, op.id);
    hide IndexOf;
    if t.posted == s.posted {
      NothingNew(s, step);
    } else {
      var a := t.posted[|s.posted|];
      assert t.posted == s.posted + [a];
      assert Explained(s, step, a);
      OneNew(s, step, a);
    }
  }

  lemma EndExplained(s: State, step: Step, r: State, id: int, kind: Kind)
    requires r.tasks == s.tasks && r.posted == s.posted
    requires Holds(s, id, if id in s.tasks then s.tasks[id].token else 0) ==> Explained(s, step, Answer(s.tasks[id].token, kind))
    ensures AllExplained(s, step, End(r, id, kind).posted)
  {
    EndSweeps(r, id, kind);
    hide Explained, End;
    if Holds(s, id, if id in s.tasks then s.tasks[id].token else 0) {
      OneNew(s, step, Answer(s.tasks[id].token, kind));
    } else {
      NothingNew(s, step);
    }
  }

  lemma CancelExplained(s: State, step: Step)
    requires step.DrainOne? && |s.inbox| > 0 && s.inbox[0].Cancel?
    ensures var r, id := s.(inbox := s.inbox[1..]), s.inbox[0].id; AllExplained(s, step, End(r, id, Cancelled).posted)
  {
    var id := s.inbox[0].id;
    if id in s.tasks {
      assert Holds(s, id, s.tasks[id].token) ==> Meant(s, s.inbox[0], id, s.tasks[id].token);
    }
    EndExplained(s, step, s.(inbox := s.inbox[1..]), id, Cancelled);
  }

  lemma SweepExplained(s: State, step: Step)
    requires step.DrainOne? && |s.inbox| > 0 && (s.inbox[0].CancelToken? || s.inbox[0].CancelAll?)
    requires IsOrder(s, s.inbox[0], step.order)
    ensures AllExplained(s, step, EndAll(s.(inbox := s.inbox[1..]), step.order, Cancelled).posted)
  {
    var r, op := s.(inbox := s.inbox[1..]), s.inbox[0];
    EndAllSweeps(r, step.order, Cancelled);
    var t := EndAll(r, step.order, Cancelled);
    hide EndAll;
    forall a | a in t.posted[|s.posted|..]
      ensures Explained(s, step, a)
    {
      assert ToldOne(r.tasks, SetOf(step.order), Cancelled, a);
      var id :| id in r.tasks && id in SetOf(step.order) && !r.tasks[id].completed && r.tasks[id].token == a.token;
      assert Meant(s, s.inbox[0], id, a.token);
    }
  }

  lemma DrainExplained(s: State, step: Step)
    requires step.DrainOne? && !s.loopDone && |s.inbox| > 0 && IsOrder(s, s.inbox[0], step.order)
    ensures AllExplained(s, step, Apply(s, step).posted)
  {
    var r := s.(inbox := s.inbox[1..]);
    if s.inbox[0].Submit? {
      StartExplained(s, step);
    } else if s.inbox[0].Cancel? {
      CancelExplained(s, step);
      NothingNew(s, step);
    } else if s.inbox[0].CancelToken? || s.inbox[0].CancelAll? {
      SweepExplained(s, step);
    } else {
      NothingNew(s, step);
    }
    hide Explained, Start, End, EndAll, IsOrder, LetThrough, AllExplained;
  }

  lemma {:induction false} LeftoverSays(s: State, ops: seq<Op>)
    ensures var t := AnswerLeftover(s, ops);
      s.posted <= t.posted && forall a | a in t.posted[|s.posted|..] :: a.kind == ShutDown
    decreases |ops|
  {
    if |ops| > 0 {
      var m := if ops[0].Submit? then Post(s, ops[0].token, ShutDown) else s;
      LeftoverSays(m, ops[1..]);
      var t := AnswerLeftover(s, ops);
      assert t.posted[|s.posted|..] == m.posted[|s.posted|..] + t.posted[|m.posted|..];
    }
  }

  lemma ExitExplained(s: State, step: Step)
    requires step.ExitLoop?
    ensures AllExplained(s, step, Exit(s, step.order).posted)
  {
    EndAllSweeps(s, step.order, ShutDown);
    var m := EndAll(s, step.order, ShutDown).(inbox := []);
    LeftoverSays(m, s.inbox);
    var t := Exit(s, step.order);
    hide EndAll, AnswerLeftover;
    assert t.posted[|s.posted|..] == m.posted[|s.posted|..] + t.posted[|m.posted|..];
    forall a | a in t.posted[|s.posted|..]
      ensures a.kind == ShutDown
    {
      if a in m.posted[|s.posted|..] {
        assert ToldOne(s.tasks, SetOf(step.order), ShutDown, a);
      }
    }
  }

  lemma OtherExplained(s: State, step: Step)
    requires step.InCallback? || step.CurlDone? || step.IdleExpires? || step.DoSubmit?
    ensures AllExplained(s, step, Apply(s, step).posted)
  {
    NothingNew(s, step);
    match step {
      case InCallback(id) =>
        if Holds(s, id, if id in s.tasks then s.tasks[id].token else 0) {
          OneNew(s, step, Answer(s.tasks[id].token, Failure));
        }
      case CurlDone(id, kind) =>
        EndExplained(s, step, s, id, kind);
      case IdleExpires(id) => EndExplained(s, step, s, id, Failure);
      case DoSubmit(_, _) =>
        if Refusing(s) {
          OneNew(s, step, Answer(s.next, ShutDown));
        }
    }
    hide AllExplained, Explained, End;
  }

  lemma StepExplained(s: State, step: Step)
    ensures AllExplained(s, step, Apply(s, step).posted)
  {
    NothingNew(s, step);
    hide AllExplained, Explained, Handle, Exit, End, LetThrough, IsOrder, Complete;
    match step {
      case DrainOne(_, _) =>
        if !s.loopDone && |s.inbox| > 0 && IsOrder(s, s.inbox[0], step.order) {
          DrainExplained(s, step);
        }
      case ExitLoop(_) => ExitExplained(s, step);
      case InCallback(_) => OtherExplained(s, step);
      case CurlDone(_, _) => OtherExplained(s, step);
      case IdleExpires(_) => OtherExplained(s, step);
      case DoSubmit(_, _) => OtherExplained(s, step);
      case _ =>
    }
  }

  /** Over every run, each answer says why it was given: refused for the shutdown, a second transfer with the id,
      a flagged token, a remembered cancel or a cancel meant for it, a cache hit, a failure where there was one. */
  lemma AnswersSayWhy(hasMulti: bool, steps: seq<Step>, step: Step)
    ensures AllExplained(Run(hasMulti, steps), step, Run(hasMulti, steps + [step]).posted)
  {
    RunThen(hasMulti, steps, step);
    StepExplained(Run(hasMulti, steps), step);
  }

  // ----- When a submission is refused -----

  ghost predicate ShutdownBegun(steps: seq<Step>) {
    exists i :: 0 <= i < |steps| && steps[i].BeginShutdown?
  }

  ghost predicate RefusalInv(s: State, hasMulti: bool, begun: bool) {
    && (s.shutdown != Running <==> begun)
    && (s.stopping ==> !hasMulti || begun) && (!hasMulti ==> s.stopping)
  }

  lemma RefusalStep(s: State, step: Step, hasMulti: bool, begun: bool)
    requires Inv(s) && RefusalInv(s, hasMulti, begun)
    ensures RefusalInv(Apply(s, step), hasMulti, begun || step.BeginShutdown?)
  {
    hide PlaceInv, End, EndAll, IndexOf, LetThrough, IsOrder, AnswerLeftover;
    match step {
      case DrainOne(outcome, order) =>
        if |s.inbox| > 0 {
          EndAllKeepsFlags(s.(inbox := s.inbox[1..]), order, Cancelled);
          EndKeepsFlags(s.(inbox := s.inbox[1..]), if s.inbox[0].Cancel? then s.inbox[0].id else 0, Cancelled);
        }
      case ExitLoop(order) =>
        EndAllKeepsFlags(s, order, ShutDown);
        LeftoverKeepsFlags(EndAll(s, order, ShutDown).(inbox := []), s.inbox);
      case CurlDone(id, kind) => EndKeepsFlags(s, id, kind);
      case IdleExpires(id) => EndKeepsFlags(s, id, Failure);
      case _ =>
    }
  }

  lemma EndKeepsFlags(s: State, id: int, kind: Kind)
    ensures End(s, id, kind).shutdown == s.shutdown && End(s, id, kind).stopping == s.stopping
  {
  }

  lemma {:induction false} EndAllKeepsFlags(s: State, ids: seq<int>, kind: Kind)
    ensures EndAll(s, ids, kind).shutdown == s.shutdown && EndAll(s, ids, kind).stopping == s.stopping
    decreases |ids|
  {
    if |ids| > 0 {
      EndKeepsFlags(s, ids[0], kind);
      EndAllKeepsFlags(End(s, ids[0], kind), ids[1..], kind);
    }
    hide End;
  }

  lemma {:induction false} LeftoverKeepsFlags(s: State, ops: seq<Op>)
    ensures AnswerLeftover(s, ops).shutdown == s.shutdown && AnswerLeftover(s, ops).stopping == s.stopping
    decreases |ops|
  {
    if |ops| > 0 {
      LeftoverKeepsFlags(if ops[0].Submit? then Post(s, ops[0].token, ShutDown) else s, ops[1..]);
    }
  }

  lemma {:induction false} RefusalRun(hasMulti: bool, steps: seq<Step>)
    ensures RefusalInv(Run(hasMulti, steps), hasMulti, ShutdownBegun(steps))
  {
    hide Apply, Inv;
    if |steps| > 0 {
      var before, step := steps[..|steps| - 1], steps[|steps| - 1];
      RefusalRun(hasMulti, before);
      RunKeepsInv(hasMulti, before);
      RefusalStep(Run(hasMulti, before), step, hasMulti, ShutdownBegun(before));
      assert forall i | 0 <= i < |before| :: steps[i] == before[i];
    }
  }

  /** Over every run: a submission is refused, at once and for the shutdown, if and only if a shutdown has begun or
      the engine never had a multi handle; otherwise it joins the end of the inbox and nobody is answered. */
  lemma RefusedExactly(hasMulti: bool, steps: seq<Step>, id: int, cancelToken: nat)
    ensures var s, t := Run(hasMulti, steps), Run(hasMulti, steps + [DoSubmit(id, cancelToken)]);
      && t.next == s.next + 1
      && if ShutdownBegun(steps) || !hasMulti
         then t.inbox == s.inbox && t.posted == s.posted + [Answer(s.next, ShutDown)]
         else t.inbox == s.inbox + [Submit(s.next, id, cancelToken)] && t.posted == s.posted
  {
    RefusalRun(hasMulti, steps);
    RunThen(hasMulti, steps, DoSubmit(id, cancelToken));
  }

  /** Any other op from outside likewise: it is dropped after that, and joins the end of the inbox before. */
  lemma PushedExactly(hasMulti: bool, steps: seq<Step>, op: Op)
    requires !op.Submit? && !op.Stop?
    ensures var s, t := Run(hasMulti, steps), Run(hasMulti, steps + [Push(op)]);
      t == s.(inbox := t.inbox) && t.inbox == s.inbox + if ShutdownBegun(steps) || !hasMulti then [] else [op]
  {
    RefusalRun(hasMulti, steps);
    RunThen(hasMulti, steps, Push(op));
  }

  // ----- Flags and the end of the loop -----

  predicate FlagsTask(step: Step, id: int) {
    step == FlagCancel(id) || step.FlagAll?
  }

  /** The same transfer, before and after a step. */
  predicate SameTransfer(s: State, t: State, id: int) {
    id in s.tasks && id in t.tasks && s.tasks[id].token == t.tasks[id].token
  }

  predicate FlagMoves(s: State, t: State, step: Step, id: int) {
    id in t.tasks ==> (t.tasks[id].cancelled <==> SameTransfer(s, t, id) && (s.tasks[id].cancelled || FlagsTask(step, id)))
  }

  lemma DrainLeavesFlag(s: State, outcome: Outcome, order: seq<int>, id: int)
    requires |s.inbox| > 0
    ensures FlagMoves(s, Handle(s.(inbox := s.inbox[1..]), s.inbox[0], outcome, order), DrainOne(outcome, order), id)
  {
    hide End, EndAll, IndexOf;
    var r := s.(inbox := s.inbox[1..]);
    match s.inbox[0] {
      case Submit(_, _, _) =>
      case Cancel(k) => EndSweeps(r, k, Cancelled);
      case _ => EndAllLeaves(r, order, Cancelled);
    }
  }

  /** In every state: a transfer's flag is raised by the calls that cancel it or everything, and by no other step; a new
      transfer has it down, and it is never lowered. */
  lemma FlagReachesTransfer(s: State, step: Step, id: int)
    ensures FlagMoves(s, Apply(s, step), step, id)
  {
    hide Handle, Exit, End, LetThrough, IsOrder;
    match step {
      case DrainOne(outcome, order) =>
        if |s.inbox| > 0 {
          DrainLeavesFlag(s, outcome, order, id);
        }
      case ExitLoop(order) => ExitLeaves(s, order);
      case CurlDone(k, kind) => EndSweeps(s, k, kind);
      case IdleExpires(k) => EndSweeps(s, k, Failure);
      case _ =>
    }
  }

  /** Over every run: once the stop op was taken, the loop thread ends whatever transfers there are, in any order, and is
      gone; by then every submission has its answer. */
  lemma LoopGoes(hasMulti: bool, steps: seq<Step>, order: seq<int>, token: nat)
    requires var s := Run(hasMulti, steps); s.stopping && !s.loopDone && ListsAll(s.tasks, order) && token < s.next
    ensures var t := Run(hasMulti, steps + [ExitLoop(order)]);
      t.loopDone && t.tasks == map[] && t.inbox == [] && IsAnswered(t, token)
  {
    var s := Run(hasMulti, steps);
    RunThen(hasMulti, steps, ExitLoop(order));
    RunKeepsInv(hasMulti, steps);
    assert IsOrder(s, CancelAll, order);
    ExitKeepsInv(s, order);
    ExitGrows(s, order);
    ExitDone(s, order);
    hide Run, Exit, Inv, IsAnswered, ListsAll;
    AllAnsweredAfterShutdown(hasMulti, steps + [ExitLoop(order)], token);
  }

  lemma ExitDone(s: State, order: seq<int>)
    ensures Exit(s, order).loopDone
  {
    hide EndAll, AnswerLeftover;
  }

  /** While the loop runs: a transfer that curl reports done is gone, and one whose callback fails or which is silent too
      long has failed, each answered at once unless it had answered. */
  lemma EndsTakeEffect(s: State, step: Step)
    requires !s.loopDone && (step.CurlDone? || step.InCallback? || step.IdleExpires?) && step.id in s.tasks
    ensures var t, task := Apply(s, step), s.tasks[step.id];
      && t.posted == s.posted + (if task.completed then []
                                 else [Answer(task.token, if step.CurlDone? then step.kind else Failure)])
      && (step.CurlDone? || (step.IdleExpires? && !task.completed) ==> t.tasks == s.tasks - {step.id})
      && (step.InCallback? ==> t.tasks == s.tasks[step.id := task.(completed := true)])
  {
    var kind := if step.CurlDone? then step.kind else Failure;
    EndSweeps(s, step.id, kind);
    if step.InCallback? && s.tasks[step.id].completed {
      assert s.tasks[step.id := s.tasks[step.id]] == s.tasks;
    }
    hide End;
  }
}
