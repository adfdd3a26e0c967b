/** Cancels that overtake their submits. The engine remembers so many of them and no more; for every run, the
    exact condition on which one of them still prevents the start. */
module EarlyCancel {
  import opened Engine

  /** The step drains a cancel that finds no task. */
  predicate DrainsEarly(s: State, step: Step) {
    step.DrainOne? && !s.loopDone && |s.inbox| > 0 && s.inbox[0].Cancel? && s.inbox[0].id !in s.tasks
  }

  /** The memory is full, with this id in front and nowhere else. */
  predicate FullOf(ids: seq<int>, id: int) {
    |ids| >= MAX_PRE_CANCELLED && ids[0] == id && id !in ids[1..]
  }

  predicate PushesOut(s: State, step: Step, id: int) {
    DrainsEarly(s, step) && FullOf(s.preCancelled, id)
  }

  /** The step drains a submit or a cancel of this very id. */
  predicate Concerns(s: State, step: Step, id: int) {
    step.DrainOne? && !s.loopDone && |s.inbox| > 0
    && ((s.inbox[0].Submit? && s.inbox[0].id == id) || (s.inbox[0].Cancel? && s.inbox[0].id == id))
  }

  // ----- One step -----

  predicate Leaves(s: State, t: State) {
    t.preCancelled == s.preCancelled && t.tasks.Keys <= s.tasks.Keys
  }

  lemma EndLeaves(s: State, id: int, kind: Kind)
    ensures Leaves(s, End(s, id, kind)) && Leaves(s, Complete(s, id, kind))
  {
  }

  lemma {:induction false} EndAllLeaves(s: State, ids: seq<int>, kind: Kind)
    ensures Leaves(s, EndAll(s, ids, kind))
    decreases |ids|
  {
    if |ids| > 0 {
      EndLeaves(s, ids[0], kind);
      EndAllLeaves(End(s, ids[0], kind), ids[1..], kind);
    }
    hide End;
  }

  lemma {:induction false} LeftoverLeaves(s: State, ops: seq<Op>)
    ensures Leaves(s, AnswerLeftover(s, ops))
    decreases |ops|
  {
    if |ops| > 0 {
      LeftoverLeaves(if ops[0].Submit? then Post(s, ops[0].token, ShutDown) else s, ops[1..]);
    }
  }

  lemma ExitLeaves(s: State, order: seq<int>)
    ensures Leaves(s, Exit(s, order))
  {
    EndAllLeaves(s, order, ShutDown);
    LeftoverLeaves(EndAll(s, order, ShutDown).(inbox := []), s.inbox);
    hide EndAll, AnswerLeftover;
  }

  lemma RememberKeeps(ids: seq<int>, other: int, id: int)
    requires other != id
    ensures id in Remember(ids, other) <==> id in ids && !FullOf(ids, id)
  {
    if |ids| > 0 {
      assert ids == [ids[0]] + ids[1..];
    }
  }

  lemma ForgetOther(ids: seq<int>, at: nat, id: int)
    requires at < |ids| && ids[at] != id
    ensures id in ids[..at] + ids[at + 1..] <==> id in ids
  {
    assert ids == ids[..at] + [ids[at]] + ids[at + 1..];
  }

  lemma StartOther(s: State, op: Op, outcome: Outcome, id: int)
    requires op.Submit? && op.id != id
    ensures var t := Start(s, op, outcome);
      (id in t.preCancelled <==> id in s.preCancelled) && (id in t.tasks <==> id in s.tasks)
  {
    var at := IndexOf(s.preCancelled, op.id);
    if at < |s.preCancelled| {
      ForgetOther(s.preCancelled, at, id);
    }
    hide IndexOf;
  }

  lemma HandleOther(s: State, op: Op, outcome: Outcome, order: seq<int>, id: int)
    requires (op.Submit? || op.Cancel?) ==> op.id != id
    ensures var t := Handle(s, op, outcome, order);
      && (id in t.tasks ==> id in s.tasks)
      && (op.Cancel? && op.id !in s.tasks && FullOf(s.preCancelled, id) ==> id !in t.preCancelled)
      && (!(op.Cancel? && op.id !in s.tasks && FullOf(s.preCancelled, id)) ==>
            (id in t.preCancelled <==> id in s.preCancelled))
  {
    hide Start, End, EndAll, Remember;
    match op {
      case Submit(_, _, _) => StartOther(s, op, outcome, id);
      case Cancel(other) =>
        EndLeaves(s, other, Cancelled);
        RememberKeeps(s.preCancelled, other, id);
      case _ => EndAllLeaves(s, order, Cancelled);
    }
  }

  /** An id is forgotten by a step that does not concern it exactly if that step pushes it out. */
  lemma StepForgets(s: State, step: Step, id: int)
    requires !Concerns(s, step, id)
    ensures id in Apply(s, step).preCancelled <==> id in s.preCancelled && !PushesOut(s, step, id)
    ensures id in Apply(s, step).tasks ==> id in s.tasks
  {
    hide Handle, Exit, End, LetThrough, IsOrder, Complete;
    match step {
      case DrainOne(outcome, order) =>
        if !s.loopDone && |s.inbox| > 0 {
          HandleOther(s.(inbox := s.inbox[1..]), s.inbox[0], outcome, order, id);
          CancelNeedsNoOrder(s, order);
        }
      case ExitLoop(order) => ExitLeaves(s, order);
      case InCallback(other) => EndLeaves(s, other, Failure);
      case CurlDone(other, kind) => EndLeaves(s, other, kind);
      case IdleExpires(other) => EndLeaves(s, other, Failure);
      case _ =>
    }
  }

  lemma CancelNeedsNoOrder(s: State, order: seq<int>)
    requires |s.inbox| > 0
    ensures s.inbox[0].Cancel? || s.inbox[0].Submit? ==> IsOrder(s, s.inbox[0], order)
  {
  }

  lemma EarlyIsRemembered(s: State, step: Step)
    requires DrainsEarly(s, step)
    ensures var t := Apply(s, step);
      t.tasks == s.tasks && t.preCancelled == Remember(s.preCancelled, s.inbox[0].id)
  {
    CancelNeedsNoOrder(s, step.order);
    hide IsOrder, Remember, End, EndAll, Start;
  }

  // ----- Runs -----

  ghost predicate Undisturbed(hasMulti: bool, steps: seq<Step>, j: nat, k: nat, id: int)
    requires k <= |steps|
  {
    forall m | j <= m < k :: !Concerns(Run(hasMulti, steps[..m]), steps[m], id)
  }

  ghost predicate PushedOut(hasMulti: bool, steps: seq<Step>, j: nat, k: nat, id: int)
    requires k <= |steps|
  {
    exists m :: j <= m < k && PushesOut(Run(hasMulti, steps[..m]), steps[m], id)
  }

  lemma {:induction false} StillRemembered(hasMulti: bool, steps: seq<Step>, j: nat, k: nat, id: int)
    requires j <= k <= |steps| && Undisturbed(hasMulti, steps, j, k, id)
    requires id in Run(hasMulti, steps[..j]).preCancelled && id !in Run(hasMulti, steps[..j]).tasks
    ensures id !in Run(hasMulti, steps[..k]).tasks
    ensures id in Run(hasMulti, steps[..k]).preCancelled <==> !PushedOut(hasMulti, steps, j, k, id)
    decreases k
  {
    hide Apply, Concerns, PushesOut;
    if j < k {
      StillRemembered(hasMulti, steps, j, k - 1, id);
      RunOn(hasMulti, steps, k - 1);
      hide Run;
      StepForgets(Run(hasMulti, steps[..k - 1]), steps[k - 1], id);
      PushedOutOn(hasMulti, steps, j, k, id);
    }
  }

  lemma RunOn(hasMulti: bool, steps: seq<Step>, k: nat)
    requires k < |steps|
    ensures Run(hasMulti, steps[..k + 1]) == Apply(Run(hasMulti, steps[..k]), steps[k])
  {
    assert steps[..k + 1][..k] == steps[..k];
  }

  lemma PushedOutOn(hasMulti: bool, steps: seq<Step>, j: nat, k: nat, id: int)
    requires j < k <= |steps|
    ensures PushedOut(hasMulti, steps, j, k, id)
      <==> PushedOut(hasMulti, steps, j, k - 1, id) || PushesOut(Run(hasMulti, steps[..k - 1]), steps[k - 1], id)
  {
    hide Run, PushesOut;
  }

  /** The step at `j` drains a cancel of the request's id before there is such a task, the step at `k` drains
      the request, and no other submit or cancel of the id is drained between them. */
  ghost predicate Overtaken(hasMulti: bool, steps: seq<Step>, j: nat, k: nat, op: Op) {
    && op.Submit? && j < k && DrainedAt(hasMulti, steps, k, op)
    && DrainsEarly(Run(hasMulti, steps[..j]), steps[j]) && Run(hasMulti, steps[..j]).inbox[0] == Cancel(op.id)
    && Undisturbed(hasMulti, steps, j + 1, k, op.id)
  }

  /** A request whose cancel overtook it is started if and only if that cancel has been pushed out of the
      memory by others, and its token is not flagged. */
  lemma EarlyCancelDecidesStart(hasMulti: bool, steps: seq<Step>, j: nat, k: nat, op: Op)
    requires Overtaken(hasMulti, steps, j, k, op)
    ensures k < |steps| && (op.token in Run(hasMulti, steps).started
      <==> PushedOut(hasMulti, steps, j + 1, k, op.id) && !FlaggedBy(steps[..k], op.cancelToken))
  {
    assert k < |steps|;
    RunOn(hasMulti, steps, j);
    var s := Run(hasMulti, steps[..j]);
    EarlyIsRemembered(s, steps[j]);
    assert op.id in Remember(s.preCancelled, op.id);
    hide Run, FlaggedBy, DrainedAt, Undisturbed, PushedOut, Remember;
    StillRemembered(hasMulti, steps, j + 1, k, op.id);
    TokenDecidesStart(hasMulti, steps, k, op);
  }

  // ----- The account of one id -----

  predicate Remembers(s: State, step: Step, id: int) {
    DrainsEarly(s, step) && s.inbox[0].id == id
  }

  /** A request that no flagged token has refused uses one remembered cancel up. */
  predicate Uses(s: State, step: Step, id: int) {
    DrainsSubmit(s, step) && s.inbox[0].id == id && s.inbox[0].cancelToken !in s.flagged && id in s.preCancelled
  }

  /** The memory is full, and this id is in front. */
  predicate Drops(s: State, step: Step, id: int) {
    DrainsEarly(s, step) && |s.preCancelled| >= MAX_PRE_CANCELLED && s.preCancelled[0] == id
  }

  function One(b: bool): nat {
    if b then 1 else 0
  }

  ghost function Remembered(hasMulti: bool, steps: seq<Step>, id: int): nat {
    if |steps| == 0 then 0 else
    var n := |steps| - 1;
    Remembered(hasMulti, steps[..n], id) + One(Remembers(Run(hasMulti, steps[..n]), steps[n], id))
  }

  ghost function Used(hasMulti: bool, steps: seq<Step>, id: int): nat {
    if |steps| == 0 then 0 else
    var n := |steps| - 1;
    Used(hasMulti, steps[..n], id) + One(Uses(Run(hasMulti, steps[..n]), steps[n], id))
  }

  ghost function Dropped(hasMulti: bool, steps: seq<Step>, id: int): nat {
    if |steps| == 0 then 0 else
    var n := |steps| - 1;
    Dropped(hasMulti, steps[..n], id) + One(Drops(Run(hasMulti, steps[..n]), steps[n], id))
  }

  lemma RememberCounts(ids: seq<int>, other: int, id: int)
    ensures multiset(Remember(ids, other))[id] + One(|ids| >= MAX_PRE_CANCELLED && ids[0] == id)
      == multiset(ids)[id] + One(other == id)
  {
    if |ids| >= MAX_PRE_CANCELLED {
      assert ids == [ids[0]] + ids[1..];
    }
  }

  lemma TakingOneCounts(ids: seq<int>, at: nat, id: int)
    requires at < |ids|
    ensures multiset(ids[..at] + ids[at + 1..])[id] + One(ids[at] == id) == multiset(ids)[id]
  {
    assert ids == ids[..at] + [ids[at]] + ids[at + 1..];
  }

  lemma StartCounts(s: State, op: Op, outcome: Outcome, id: int)
    requires op.Submit?
    ensures multiset(Start(s, op, outcome).preCancelled)[id]
      + One(op.id == id && op.cancelToken !in s.flagged && id in s.preCancelled) == multiset(s.preCancelled)[id]
  {
    hide IndexOf;
    var at := IndexOf(s.preCancelled, op.id);
    Found(s.preCancelled, op.id);
    if op.cancelToken in s.flagged {
    } else if at < |s.preCancelled| {
      TakingOneCounts(s.preCancelled, at, id);
    } else if op.id in s.tasks {
    } else {
      SetUpForgetsNothing(s, op, outcome);
    }
  }

  lemma SetUpForgetsNothing(s: State, op: Op, outcome: Outcome)
    requires op.Submit? && IndexOf(s.preCancelled, op.id) == |s.preCancelled|
    ensures Start(s, op, outcome).preCancelled == s.preCancelled
  {
    hide IndexOf;
  }

  lemma StepCounts(s: State, step: Step, id: int)
    ensures multiset(Apply(s, step).preCancelled)[id] + One(Uses(s, step, id)) + One(Drops(s, step, id))
      == multiset(s.preCancelled)[id] + One(Remembers(s, step, id))
  {
    hide Start, Exit, End, EndAll, LetThrough, IsOrder, Complete, Remember;
    match step {
      case DrainOne(outcome, order) =>
        if !s.loopDone && |s.inbox| > 0 {
          DrainCounts(s, outcome, order, id);
        }
      case ExitLoop(order) => ExitLeaves(s, order);
      case InCallback(other) => EndLeaves(s, other, Failure);
      case CurlDone(other, kind) => EndLeaves(s, other, kind);
      case IdleExpires(other) => EndLeaves(s, other, Failure);
      case _ =>
    }
  }

  lemma DrainCounts(s: State, outcome: Outcome, order: seq<int>, id: int)
    requires !s.loopDone && |s.inbox| > 0
    ensures var step := DrainOne(outcome, order);
      multiset(Apply(s, step).preCancelled)[id] + One(Uses(s, step, id)) + One(Drops(s, step, id))
        == multiset(s.preCancelled)[id] + One(Remembers(s, step, id))
  {
    hide Start, End, EndAll, LetThrough, IsOrder, Remember;
    CancelNeedsNoOrder(s, order);
    var r := s.(inbox := s.inbox[1..]);
    match s.inbox[0] {
      case Submit(_, _, _) => StartCounts(r, s.inbox[0], outcome, id);
      case Cancel(other) => CancelCounts(s, other, outcome, order, id);
      case _ => EndAllLeaves(r, order, Cancelled);
    }
  }

  lemma CancelCounts(s: State, other: int, outcome: Outcome, order: seq<int>, id: int)
    requires !s.loopDone && |s.inbox| > 0 && s.inbox[0] == Cancel(other)
    ensures var step := DrainOne(outcome, order);
      multiset(Apply(s, step).preCancelled)[id] + One(Uses(s, step, id)) + One(Drops(s, step, id))
        == multiset(s.preCancelled)[id] + One(Remembers(s, step, id))
  {
    hide Start, End, EndAll, Remember;
    if other in s.tasks {
      EndLeaves(s.(inbox := s.inbox[1..]), other, Cancelled);
    } else {
      RememberCounts(s.preCancelled, other, id);
    }
  }

  /** Over every run and for every id: the cancels remembered are the early ones less those used by a request
      and those dropped from the full memory. */
  lemma {:induction false} Accounted(hasMulti: bool, steps: seq<Step>, id: int)
    ensures multiset(Run(hasMulti, steps).preCancelled)[id] + Used(hasMulti, steps, id) + Dropped(hasMulti, steps, id)
      == Remembered(hasMulti, steps, id)
  {
    hide Apply, Uses, Drops, Remembers;
    if |steps| > 0 {
      var n := |steps| - 1;
      Accounted(hasMulti, steps[..n], id);
      StepCounts(Run(hasMulti, steps[..n]), steps[n], id);
    }
  }

  /** For every run and every request drained in it, whatever cancels and submits of its id there were: it is
      started if and only if its token is not flagged, no transfer with its id is live, and every early cancel
      of its id has been used by an earlier request or dropped from the full memory. */
  lemma EarlyCancelsDecideStart(hasMulti: bool, steps: seq<Step>, k: nat, op: Op)
    requires op.Submit? && DrainedAt(hasMulti, steps, k, op)
    ensures k < |steps| && (op.token in Run(hasMulti, steps).started
      <==> !FlaggedBy(steps[..k], op.cancelToken) && op.id !in Run(hasMulti, steps[..k]).tasks
           && Remembered(hasMulti, steps[..k], op.id) == Used(hasMulti, steps[..k], op.id) + Dropped(hasMulti, steps[..k], op.id))
  {
    assert k < |steps|;
    TokenDecidesStart(hasMulti, steps, k, op);
    Accounted(hasMulti, steps[..k], op.id);
    hide Run, FlaggedBy, DrainedAt, Remembered, Used, Dropped;
  }

  // ----- How many it takes -----

  /** The early cancels drained by the steps from `j` to `k`. */
  ghost function EarlyCancels(hasMulti: bool, steps: seq<Step>, j: nat, k: nat): nat
    requires j <= k <= |steps|
    decreases k
  {
    if j == k then 0
    else EarlyCancels(hasMulti, steps, j, k - 1) + if DrainsEarly(Run(hasMulti, steps[..k - 1]), steps[k - 1]) then 1 else 0
  }

  /** The id is among the last `n` remembered. */
  ghost predicate Among(ids: seq<int>, id: int, n: nat) {
    exists p :: 0 <= p < |ids| && ids[p] == id && |ids| - p <= n
  }

  lemma RememberAmong(ids: seq<int>, other: int, id: int, n: nat)
    requires Among(ids, id, n) && n < MAX_PRE_CANCELLED
    ensures Among(Remember(ids, other), id, n + 1)
  {
    var p :| 0 <= p < |ids| && ids[p] == id && |ids| - p <= n;
    if |ids| >= MAX_PRE_CANCELLED {
      assert Remember(ids, other)[p - 1] == id;
    } else {
      assert Remember(ids, other)[p] == id;
    }
  }

  lemma ForgetAmong(ids: seq<int>, at: nat, id: int, n: nat)
    requires Among(ids, id, n) && at < |ids| && ids[at] != id
    ensures Among(ids[..at] + ids[at + 1..], id, n)
  {
    var p :| 0 <= p < |ids| && ids[p] == id && |ids| - p <= n;
    var rest := ids[..at] + ids[at + 1..];
    if p < at {
      assert rest[p] == id;
    } else {
      assert rest[p - 1] == id;
    }
  }

  lemma HandleAmong(s: State, op: Op, outcome: Outcome, order: seq<int>, id: int, n: nat)
    requires Among(s.preCancelled, id, n) && ((op.Submit? || op.Cancel?) ==> op.id != id)
    requires op.Cancel? && op.id !in s.tasks ==> n < MAX_PRE_CANCELLED
    ensures Among(Handle(s, op, outcome, order).preCancelled, id, if op.Cancel? && op.id !in s.tasks then n + 1 else n)
  {
    hide End, EndAll, Remember, Among;
    match op {
      case Submit(_, _, _) =>
        var at := IndexOf(s.preCancelled, op.id);
        if at < |s.preCancelled| {
          ForgetAmong(s.preCancelled, at, id, n);
        }
      case Cancel(other) =>
        EndLeaves(s, other, Cancelled);
        if other !in s.tasks {
          RememberAmong(s.preCancelled, other, id, n);
        }
      case _ => EndAllLeaves(s, order, Cancelled);
    }
  }

  lemma StepAmong(s: State, step: Step, id: int, n: nat)
    requires Among(s.preCancelled, id, n) && !Concerns(s, step, id)
    requires DrainsEarly(s, step) ==> n < MAX_PRE_CANCELLED
    ensures Among(Apply(s, step).preCancelled, id, if DrainsEarly(s, step) then n + 1 else n)
  {
    hide Handle, Exit, End, LetThrough, IsOrder, Complete, Among;
    match step {
      case DrainOne(outcome, order) =>
        if !s.loopDone && |s.inbox| > 0 && IsOrder(s, s.inbox[0], order) {
          HandleAmong(s.(inbox := s.inbox[1..]), s.inbox[0], outcome, order, id, n);
        }
        if |s.inbox| > 0 {
          CancelNeedsNoOrder(s, order);
        }
      case ExitLoop(order) => ExitLeaves(s, order);
      case InCallback(other) => EndLeaves(s, other, Failure);
      case CurlDone(other, kind) => EndLeaves(s, other, kind);
      case IdleExpires(other) => EndLeaves(s, other, Failure);
      case _ =>
    }
  }

  lemma {:induction false} AmongTheLast(hasMulti: bool, steps: seq<Step>, j: nat, k: nat, id: int)
    requires j <= k <= |steps| && Undisturbed(hasMulti, steps, j, k, id)
    requires Among(Run(hasMulti, steps[..j]).preCancelled, id, 1)
    requires EarlyCancels(hasMulti, steps, j, k) < MAX_PRE_CANCELLED
    ensures Among(Run(hasMulti, steps[..k]).preCancelled, id, 1 + EarlyCancels(hasMulti, steps, j, k))
    decreases k
  {
    hide Apply, Concerns, DrainsEarly, Among;
    if j < k {
      AmongTheLast(hasMulti, steps, j, k - 1, id);
      RunOn(hasMulti, steps, k - 1);
      hide Run;
      StepAmong(Run(hasMulti, steps[..k - 1]), steps[k - 1], id, 1 + EarlyCancels(hasMulti, steps, j, k - 1));
    }
  }

  /** As long as fewer other cancels come too early than the engine remembers, an early cancel prevents the start. */
  lemma FewEarlyCancels(hasMulti: bool, steps: seq<Step>, j: nat, k: nat, op: Op)
    requires Overtaken(hasMulti, steps, j, k, op) && k < |steps|
    requires EarlyCancels(hasMulti, steps, j + 1, k) < 1024
    ensures op.token !in Run(hasMulti, steps).started
  {
    RunOn(hasMulti, steps, j);
    var s := Run(hasMulti, steps[..j]);
    EarlyIsRemembered(s, steps[j]);
    var ids := Remember(s.preCancelled, op.id);
    assert ids[|ids| - 1] == op.id && Among(ids, op.id, 1);
    hide Run, FlaggedBy, DrainedAt, Undisturbed, PushedOut, Remember, EarlyCancels, NothingElseRefuses;
    AmongTheLast(hasMulti, steps, j + 1, k, op.id);
    assert op.id in Run(hasMulti, steps[..k]).preCancelled;
    NotRefused(Run(hasMulti, steps[..k]), op);
    TokenDecidesStart(hasMulti, steps, k, op);
  }

  lemma NotRefused(s: State, op: Op)
    requires op.Submit? && op.id in s.preCancelled
    ensures !NothingElseRefuses(s, op)
  {
  }

  // ----- As many as it takes -----

  /** The same unknown id cancelled over and over. */
  function Flood(other: int, n: nat): seq<Step> {
    if n == 0 then [] else Flood(other, n - 1) + [Push(Cancel(other)), DrainOne(Attached, [])]
  }

  function Copies(other: int, n: nat): (ids: seq<int>)
    ensures |ids| == n && forall i | 0 <= i < n :: ids[i] == other
  {
    seq(n, _ => other)
  }

  predicate Quiet(s: State, preCancelled: seq<int>) {
    && s.inbox == [] && s.tasks == map[] && s.preCancelled == preCancelled && s.flagged == {}
    && s.shutdown == Running && !s.stopping && !s.loopDone && s.next == 0
  }

  lemma CancelDrained(s: State, id: int, preCancelled: seq<int>)
    requires Quiet(s, preCancelled)
    ensures Quiet(Apply(Apply(s, Push(Cancel(id))), DrainOne(Attached, [])), Remember(preCancelled, id))
  {
    hide Remember;
  }

  lemma {:induction false} Flooded(id: int, other: int, n: nat)
    requires n <= MAX_PRE_CANCELLED
    ensures Quiet(Run(true, [Push(Cancel(id)), DrainOne(Attached, [])] + Flood(other, n)),
                  if n < MAX_PRE_CANCELLED then [id] + Copies(other, n) else Copies(other, n))
  {
    var first := [Push(Cancel(id)), DrainOne(Attached, [])];
    if n == 0 {
      FirstCancel(id);
      assert first + Flood(other, 0) == first;
      assert [id] + Copies(other, 0) == [id];
    } else {
      Flooded(id, other, n - 1);
      var before := first + Flood(other, n - 1);
      FloodGrows(first, other, n);
      var ids := [id] + Copies(other, n - 1);
      hide Quiet, Remember, Run, Flood;
      FloodedOn(before, other, ids);
      FloodRemembered(id, other, n);
    }
  }

  lemma FirstCancel(id: int)
    ensures Quiet(Run(true, [Push(Cancel(id)), DrainOne(Attached, [])]), [id])
  {
    var first := [Push(Cancel(id)), DrainOne(Attached, [])];
    assert [] + [first[0]] == [first[0]] && [first[0]] + [first[1]] == first;
    RunThen(true, [], first[0]);
    RunThen(true, [first[0]], first[1]);
    CancelDrained(Init(true), id, []);
    assert Remember([], id) == [id];
  }

  lemma FloodGrows(first: seq<Step>, other: int, n: nat)
    requires n > 0
    ensures first + Flood(other, n) == first + Flood(other, n - 1) + [Push(Cancel(other))] + [DrainOne(Attached, [])]
  {
  }

  lemma FloodRemembered(id: int, other: int, n: nat)
    requires 0 < n <= MAX_PRE_CANCELLED
    ensures Remember([id] + Copies(other, n - 1), other)
      == if n < MAX_PRE_CANCELLED then [id] + Copies(other, n) else Copies(other, n)
  {
    var ids := [id] + Copies(other, n - 1);
    assert |ids| == n;
    if n < MAX_PRE_CANCELLED {
      assert ids + [other] == [id] + Copies(other, n);
    } else {
      assert ids[1..] + [other] == Copies(other, n);
    }
  }

  lemma FloodedOn(steps: seq<Step>, other: int, ids: seq<int>)
    requires Quiet(Run(true, steps), ids)
    ensures Quiet(Run(true, steps + [Push(Cancel(other))] + [DrainOne(Attached, [])]), Remember(ids, other))
  {
    hide Quiet, Remember, Apply, Run;
    RunThen(true, steps, Push(Cancel(other)));
    RunThen(true, steps + [Push(Cancel(other))], DrainOne(Attached, []));
    CancelDrained(Run(true, steps), other, ids);
  }

  lemma SubmitDrained(s: State, id: int, preCancelled: seq<int>)
    requires Quiet(s, preCancelled) && id !in preCancelled
    ensures 0 in Apply(Apply(s, DoSubmit(id, 0)), DrainOne(Attached, [])).started
  {
    Found(preCancelled, id);
  }

  /** It takes exactly that many: with as many early cancels in between, all of one other id that nobody knows,
      the request is started though its cancel was drained before it. */
  lemma ForgottenCancelStarts(id: int, other: int)
    requires id != other
    ensures 0 in Run(true, [Push(Cancel(id)), DrainOne(Attached, [])] + Flood(other, 1024)
                           + [DoSubmit(id, 0)] + [DrainOne(Attached, [])]).started
  {
    var steps := [Push(Cancel(id)), DrainOne(Attached, [])] + Flood(other, 1024);
    Flooded(id, other, 1024);
    RunThen(true, steps, DoSubmit(id, 0));
    RunThen(true, steps + [DoSubmit(id, 0)], DrainOne(Attached, []));
    SubmitDrained(Run(true, steps), id, Copies(other, 1024));
  }
}
