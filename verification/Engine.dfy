/** The request engine as a machine: threads push ops into the inbox under its lock, the loop thread
    drains them, drives transfers and exits. Whatever they do and whenever, every request submitted is
    answered exactly once. */
module Engine {

  const MAX_PRE_CANCELLED := 1024

  datatype Op =
    | Submit(token: nat, id: int, cancelToken: nat)
    | Cancel(id: int)
    | CancelToken(cancelToken: nat)
    | CancelAll
    | Other(what: nat)
    | Stop

  datatype Task = Task(token: nat, cancelToken: nat, cancelled: bool, completed: bool)

  /** How Dart is answered. */
  datatype Kind = Response | Failure | Cancelled | Duplicate | ShutDown | Destroyed

  datatype Answer = Answer(token: nat, kind: Kind)

  /** How a submitted request starts, once nothing has cancelled it. */
  datatype Outcome = PrepareFails | CacheHit | AddFails | Throws | Attached

  datatype Place = Queued | Live(id: int) | Done

  datatype ShutdownPhase = Running | Begun | Appended

  /** `token` numbers submissions in the order `push` takes them; `place` says where each one is, `started`
      which were let through to the set-up of their transfer. They only record: no step reads them. */
  datatype State = State(
    inbox: seq<Op>,
    tasks: map<int, Task>,
    preCancelled: seq<int>,
    flagged: set<nat>,
    shutdown: ShutdownPhase,
    stopping: bool,
    loopDone: bool,
    posted: seq<Answer>,
    next: nat,
    place: map<nat, Place>,
    started: set<nat>)

  datatype Step =
    // Any thread.
    | DoSubmit(id: int, cancelToken: nat)
    | FlagCancel(id: int)
    | FlagAll
    | FlagToken(cancelToken: nat)
    | ReleaseToken(cancelToken: nat)
    | ClearTokens
    | Push(op: Op)
    | BeginShutdown
    | AppendStop
    // The loop thread.
    | DrainOne(outcome: Outcome, order: seq<int>)
    | InCallback(id: int)
    | CurlDone(id: int, kind: Kind)
    | IdleExpires(id: int)
    | ExitLoop(order: seq<int>)

  /** An engine without a multi handle never starts its loop. */
  function Init(hasMulti: bool): State {
    State([], map[], [], {}, Running, !hasMulti, !hasMulti, [], 0, map[], {})
  }

  // ----- Answering -----

  function Post(s: State, token: nat, kind: Kind): State {
    s.(posted := s.posted + [Answer(token, kind)], place := s.place[token := Done])
  }

  /** `completeWithError` and its like: a task answers once. */
  function Complete(s: State, id: int, kind: Kind): State {
    if id in s.tasks && !s.tasks[id].completed
    then Post(s, s.tasks[id].token, kind).(tasks := s.tasks[id := s.tasks[id].(completed := true)])
    else s
  }

  /** `retire`: the destructor answers if nothing else has. */
  function Retire(s: State, id: int): State {
    var t := Complete(s, id, Destroyed);
    t.(tasks := t.tasks - {id})
  }

  function End(s: State, id: int, kind: Kind): State {
    Retire(Complete(s, id, kind), id)
  }

  function EndAll(s: State, ids: seq<int>, kind: Kind): State
    decreases |ids|
  {
    if |ids| == 0 then s else EndAll(End(s, ids[0], kind), ids[1..], kind)
  }

  // ----- Pushing -----

  predicate Refusing(s: State) {
    s.shutdown != Running || s.stopping
  }

  /** `push` of a submit; refused ones are answered inline. */
  function SubmitTo(s: State, id: int, cancelToken: nat): State {
    var t := s.(next := s.next + 1);
    if Refusing(s) then Post(t, s.next, ShutDown)
    else t.(inbox := s.inbox + [Submit(s.next, id, cancelToken)], place := s.place[s.next := Queued])
  }

  function PushTo(s: State, op: Op): State {
    if op.Submit? || op.Stop? || Refusing(s) then s else s.(inbox := s.inbox + [op])
  }

  function Flagged(t: Task): Task {
    t.(cancelled := true)
  }

  // ----- Draining -----

  function IndexOf(ids: seq<int>, id: int): (i: nat)
    ensures i <= |ids| && (i < |ids| ==> ids[i] == id)
  {
    if |ids| == 0 || ids[0] == id then 0 else 1 + IndexOf(ids[1..], id)
  }

  /** A cancel that overtook its submit is remembered, the oldest one forgotten when there are too many. */
  function Remember(ids: seq<int>, id: int): seq<int> {
    (if |ids| >= MAX_PRE_CANCELLED then ids[1..] else ids) + [id]
  }

  /** `startTask`, with the lock still held from the pop. */
  function Start(s: State, op: Op, outcome: Outcome): State
    requires op.Submit?
  {
    var at := IndexOf(s.preCancelled, op.id);
    if op.cancelToken in s.flagged then Post(s, op.token, Cancelled)
    else if at < |s.preCancelled| then
      Post(s, op.token, Cancelled).(preCancelled := s.preCancelled[..at] + s.preCancelled[at + 1..])
    else if op.id in s.tasks then Post(s, op.token, Duplicate)
    else match outcome
      case PrepareFails => Post(s, op.token, Failure)
      case CacheHit => Post(s, op.token, Response)
      case AddFails => Post(s, op.token, Failure)
      case Throws => Post(s, op.token, Destroyed)
      case Attached =>
        s.(tasks := s.tasks[op.id := Task(op.token, op.cancelToken, false, false)],
           place := s.place[op.token := Live(op.id)])
  }

  /** Nothing refuses the request when it is drained. */
  predicate LetThrough(s: State, op: Op) {
    op.Submit? && op.cancelToken !in s.flagged && IndexOf(s.preCancelled, op.id) == |s.preCancelled| && op.id !in s.tasks
  }

  function Noted(s: State, op: Op, t: State): State {
    if LetThrough(s, op) then t.(started := t.started + {op.token}) else t
  }

  function Bound(tasks: map<int, Task>, cancelToken: nat): set<int> {
    set id | id in tasks && tasks[id].cancelToken == cancelToken
  }

  function Handle(s: State, op: Op, outcome: Outcome, order: seq<int>): State {
    match op
    case Submit(_, _, _) => Start(s, op, outcome)
    case Cancel(id) =>
      if id in s.tasks then End(s, id, Cancelled) else s.(preCancelled := Remember(s.preCancelled, id))
    case CancelToken(cancelToken) => EndAll(s, order, Cancelled)
    case CancelAll => EndAll(s, order, Cancelled)
    case Other(_) => s
    case Stop => s.(stopping := true)
  }

  /** The order in which a hash map yields the ids it is asked for: any, but all of them and no others. */
  predicate IsOrder(s: State, op: Op, order: seq<int>) {
    match op
    case CancelToken(cancelToken) =>
      (forall id | id in order :: id in Bound(s.tasks, cancelToken)) && (forall id | id in Bound(s.tasks, cancelToken) :: id in order)
    case CancelAll => (forall id | id in order :: id in s.tasks) && (forall id | id in s.tasks :: id in order)
    case _ => true
  }

  function AnswerLeftover(s: State, ops: seq<Op>): State
    decreases |ops|
  {
    if |ops| == 0 then s
    else AnswerLeftover(if ops[0].Submit? then Post(s, ops[0].token, ShutDown) else s, ops[1..])
  }

  /** `completeAllWith`, then whatever is left in the inbox. */
  function Exit(s: State, order: seq<int>): State {
    AnswerLeftover(EndAll(s, order, ShutDown).(inbox := []), s.inbox).(loopDone := true)
  }

  /** Steps that are not enabled change nothing. */
  function Apply(s: State, step: Step): State {
    match step
    case DoSubmit(id, cancelToken) => SubmitTo(s, id, cancelToken)
    case FlagCancel(id) => if id in s.tasks then s.(tasks := s.tasks[id := Flagged(s.tasks[id])]) else s
    case FlagAll => s.(tasks := map id | id in s.tasks :: Flagged(s.tasks[id]))
    case FlagToken(cancelToken) => if cancelToken == 0 then s else s.(flagged := s.flagged + {cancelToken})
    case Push(op) => PushTo(s, op)
    case ReleaseToken(cancelToken) => s.(flagged := s.flagged - {cancelToken})
    case ClearTokens => s.(flagged := {})
    case BeginShutdown => if s.shutdown == Running then s.(shutdown := Begun) else s
    case AppendStop => if s.shutdown == Begun then s.(shutdown := Appended, inbox := s.inbox + [Stop]) else s
    case DrainOne(outcome, order) =>
      if s.loopDone || |s.inbox| == 0 || !IsOrder(s, s.inbox[0], order) then s
      else Noted(s, s.inbox[0], Handle(s.(inbox := s.inbox[1..]), s.inbox[0], outcome, order))
    case InCallback(id) => if s.loopDone then s else Complete(s, id, Failure)
    case CurlDone(id, kind) => if s.loopDone then s else End(s, id, kind)
    case IdleExpires(id) =>
      if s.loopDone || id !in s.tasks || s.tasks[id].completed then s else End(s, id, Failure)
    case ExitLoop(order) =>
      if s.loopDone || !s.stopping || !IsOrder(s, CancelAll, order) then s else Exit(s, order)
  }

  function Run(hasMulti: bool, steps: seq<Step>): State {
    if |steps| == 0 then Init(hasMulti)
    else Apply(Run(hasMulti, steps[..|steps| - 1]), steps[|steps| - 1])
  }

  // ----- What every run keeps -----

  predicate SubmitAt(inbox: seq<Op>, i: nat, token: nat) {
    i < |inbox| && inbox[i].Submit? && inbox[i].token == token
  }

  /** The queued submissions are those in the inbox, in the order they were taken. */
  ghost predicate QueueInv(inbox: seq<Op>, place: map<nat, Place>) {
    && (forall i | 0 <= i < |inbox| && inbox[i].Submit? :: inbox[i].token in place && place[inbox[i].token] == Queued)
    && (forall i, j | 0 <= i < j < |inbox| && inbox[i].Submit? && inbox[j].Submit? :: inbox[i].token < inbox[j].token)
    && (forall token | token in place && place[token] == Queued :: exists i :: SubmitAt(inbox, i, token))
  }

  /** The live ones are the tasks that have not answered yet. */
  predicate TaskInv(tasks: map<int, Task>, place: map<nat, Place>) {
    && (forall id | id in tasks && !tasks[id].completed :: tasks[id].token in place && place[tasks[id].token] == Live(id))
    && (forall token | token in place && place[token].Live? ::
          var id := place[token].id; id in tasks && tasks[id].token == token && !tasks[id].completed)
  }

  predicate AnswerAt(posted: seq<Answer>, i: nat, token: nat) {
    i < |posted| && posted[i].token == token
  }

  /** The done ones have one answer each. */
  ghost predicate PostInv(posted: seq<Answer>, place: map<nat, Place>) {
    && (forall i | 0 <= i < |posted| :: posted[i].token in place && place[posted[i].token] == Done)
    && (forall i, j | 0 <= i < j < |posted| :: posted[i].token != posted[j].token)
    && (forall token | token in place && place[token] == Done :: exists i :: AnswerAt(posted, i, token))
  }

  ghost predicate Numbered(place: map<nat, Place>, next: nat) {
    forall token: nat :: token in place <==> token < next
  }

  ghost predicate PlaceInv(s: State) {
    QueueInv(s.inbox, s.place) && TaskInv(s.tasks, s.place) && PostInv(s.posted, s.place) && Numbered(s.place, s.next)
  }

  predicate NoSubmits(inbox: seq<Op>) {
    forall i | 0 <= i < |inbox| :: !inbox[i].Submit?
  }

  /** The stop op is the last the inbox ever holds. */
  predicate StopInv(s: State) {
    && (forall i | 0 <= i < |s.inbox| && s.inbox[i].Stop? :: i == |s.inbox| - 1 && s.shutdown == Appended)
    && (s.shutdown == Appended && !s.stopping ==> |s.inbox| > 0 && s.inbox[|s.inbox| - 1].Stop?)
    && (s.stopping ==> NoSubmits(s.inbox) && (s.loopDone || (s.shutdown == Appended && s.inbox == [])))
    && (s.loopDone ==> s.stopping && s.tasks == map[])
    && |s.preCancelled| <= MAX_PRE_CANCELLED
  }

  ghost predicate Inv(s: State) {
    PlaceInv(s) && StopInv(s)
  }

  lemma PostedOne(posted: seq<Answer>, place: map<nat, Place>, token: nat, kind: Kind)
    requires PostInv(posted, place) && (token in place ==> place[token] != Done)
    ensures PostInv(posted + [Answer(token, kind)], place[token := Done])
  {
    var posted', place' := posted + [Answer(token, kind)], place[token := Done];
    assert AnswerAt(posted', |posted|, token);
    forall k | k in place' && place'[k] == Done
      ensures exists i :: AnswerAt(posted', i, k)
    {
      if k != token {
        var i: nat :| AnswerAt(posted, i, k);
        assert AnswerAt(posted', i, k);
      }
    }
  }

  lemma PostKeeps(s: State, token: nat, kind: Kind)
    requires PlaceInv(s) && token in s.place && s.place[token] != Done
    ensures var t := Post(s, token, kind);
      && PostInv(t.posted, t.place) && Numbered(t.place, t.next)
      && (s.place[token].Live? ==> QueueInv(s.inbox, t.place))
      && (s.place[token].Queued? ==> TaskInv(s.tasks, t.place))
  {
    PostedOne(s.posted, s.place, token, kind);
    hide PostInv;
  }

  lemma CompleteKeeps(s: State, id: int, kind: Kind)
    requires PlaceInv(s)
    ensures PlaceInv(Complete(s, id, kind)) && Complete(s, id, kind).tasks.Keys == s.tasks.Keys
    ensures id in s.tasks ==> Complete(s, id, kind).tasks[id].completed
  {
    if id in s.tasks && !s.tasks[id].completed {
      PostKeeps(s, s.tasks[id].token, kind);
    }
  }

  lemma RetireKeeps(s: State, id: int)
    requires PlaceInv(s)
    ensures PlaceInv(Retire(s, id)) && Retire(s, id).tasks.Keys == s.tasks.Keys - {id}
  {
    CompleteKeeps(s, id, Destroyed);
    hide QueueInv, PostInv, Numbered;
  }

  /** Nothing but tasks, answers and places has moved. */
  predicate OnlyTasks(s: State, t: State) {
    t == s.(tasks := t.tasks, posted := t.posted, place := t.place)
  }

  lemma EndKeeps(s: State, id: int, kind: Kind)
    requires PlaceInv(s)
    ensures PlaceInv(End(s, id, kind)) && End(s, id, kind).tasks.Keys == s.tasks.Keys - {id}
    ensures OnlyTasks(s, End(s, id, kind))
  {
    CompleteKeeps(s, id, kind);
    RetireKeeps(Complete(s, id, kind), id);
    hide PlaceInv;
  }

  function SetOf(ids: seq<int>): set<int> {
    set id | id in ids
  }

  lemma {:induction false} EndAllKeeps(s: State, ids: seq<int>, kind: Kind)
    requires PlaceInv(s)
    ensures PlaceInv(EndAll(s, ids, kind)) && EndAll(s, ids, kind).tasks.Keys == s.tasks.Keys - SetOf(ids)
    ensures OnlyTasks(s, EndAll(s, ids, kind))
    decreases |ids|
  {
    hide PlaceInv, End;
    if |ids| > 0 {
      EndKeeps(s, ids[0], kind);
      EndAllKeeps(End(s, ids[0], kind), ids[1..], kind);
      assert SetOf(ids) == {ids[0]} + SetOf(ids[1..]);
    }
  }

  lemma QueuedOne(inbox: seq<Op>, place: map<nat, Place>, op: Op)
    requires QueueInv(inbox, place) && op.Submit? && Numbered(place, op.token)
    ensures QueueInv(inbox + [op], place[op.token := Queued])
  {
    var inbox', place' := inbox + [op], place[op.token := Queued];
    assert SubmitAt(inbox', |inbox|, op.token);
    forall k | k in place' && place'[k] == Queued
      ensures exists i :: SubmitAt(inbox', i, k)
    {
      if k != op.token {
        var i: nat :| SubmitAt(inbox, i, k);
        assert SubmitAt(inbox', i, k);
      }
    }
  }

  /** A submission that takes the next number disturbs none before it. */
  lemma NewPlace(s: State, p: Place)
    requires PlaceInv(s) && !p.Live?
    ensures var place := s.place[s.next := p];
      && Numbered(place, s.next + 1) && TaskInv(s.tasks, place)
      && (p.Done? ==> QueueInv(s.inbox, place)) && (p.Queued? ==> PostInv(s.posted, place))
  {
    assert s.next !in s.place;
  }

  lemma SubmitKeepsInv(s: State, id: int, cancelToken: nat)
    requires Inv(s)
    ensures Inv(SubmitTo(s, id, cancelToken))
  {
    hide QueueInv, TaskInv, PostInv;
    assert s.next !in s.place;
    if Refusing(s) {
      NewPlace(s, Done);
      PostedOne(s.posted, s.place, s.next, ShutDown);
    } else {
      NewPlace(s, Queued);
      QueuedOne(s.inbox, s.place, Submit(s.next, id, cancelToken));
    }
  }

  /** An op that is no submit may come and go. */
  lemma QueueWithout(inbox: seq<Op>, place: map<nat, Place>, inbox': seq<Op>)
    requires QueueInv(inbox, place)
    requires (exists op: Op :: !op.Submit? && inbox' == inbox + [op]) || (|inbox| > 0 && !inbox[0].Submit? && inbox' == inbox[1..])
    ensures QueueInv(inbox', place)
  {
    forall token | token in place && place[token] == Queued
      ensures exists i :: SubmitAt(inbox', i, token)
    {
      var i: nat :| SubmitAt(inbox, i, token);
      if |inbox'| > |inbox| {
        assert SubmitAt(inbox', i, token);
      } else {
        assert SubmitAt(inbox', i - 1, token);
      }
    }
  }

  /** A submit leaves the head of the inbox as its place is settled. */
  lemma QueueTakes(inbox: seq<Op>, place: map<nat, Place>, p: Place)
    requires QueueInv(inbox, place) && |inbox| > 0 && inbox[0].Submit? && p != Queued
    ensures QueueInv(inbox[1..], place[inbox[0].token := p])
  {
    var inbox', place' := inbox[1..], place[inbox[0].token := p];
    forall token | token in place' && place'[token] == Queued
      ensures exists i :: SubmitAt(inbox', i, token)
    {
      var i: nat :| SubmitAt(inbox, i, token);
      assert SubmitAt(inbox', i - 1, token);
    }
  }

  lemma HeadIsQueued(inbox: seq<Op>, place: map<nat, Place>)
    requires QueueInv(inbox, place) && |inbox| > 0 && inbox[0].Submit?
    ensures inbox[0].token in place && place[inbox[0].token] == Queued
  {
  }

  /** A submit leaves the inbox answered. */
  lemma TakenAndAnswered(s: State, kind: Kind, preCancelled: seq<int>)
    requires PlaceInv(s) && |s.inbox| > 0 && s.inbox[0].Submit?
    ensures PlaceInv(Post(s.(inbox := s.inbox[1..]), s.inbox[0].token, kind))
    ensures PlaceInv(Post(s.(inbox := s.inbox[1..]), s.inbox[0].token, kind).(preCancelled := preCancelled))
  {
    HeadIsQueued(s.inbox, s.place);
    QueueTakes(s.inbox, s.place, Done);
    PostKeeps(s, s.inbox[0].token, kind);
    hide QueueInv, TaskInv, PostInv, Numbered;
  }

  lemma StartKeeps(s: State, outcome: Outcome)
    requires PlaceInv(s) && |s.inbox| > 0 && s.inbox[0].Submit?
    ensures var t := Start(s.(inbox := s.inbox[1..]), s.inbox[0], outcome);
      && PlaceInv(t) && |t.preCancelled| <= |s.preCancelled|
      && t.inbox == s.inbox[1..] && t.shutdown == s.shutdown && t.stopping == s.stopping && t.loopDone == s.loopDone
  {
    hide PlaceInv;
    var op, r := s.inbox[0], s.(inbox := s.inbox[1..]);
    var t := Start(r, op, outcome);
    if t.tasks == s.tasks {
      TakenAndAnswered(s, t.posted[|s.posted|].kind, t.preCancelled);
      assert t == Post(r, op.token, t.posted[|s.posted|].kind).(preCancelled := t.preCancelled);
    } else {
      Attaches(s);
    }
  }

  lemma Attaches(s: State)
    requires PlaceInv(s) && |s.inbox| > 0 && s.inbox[0].Submit? && s.inbox[0].id !in s.tasks
    ensures var op := s.inbox[0];
      PlaceInv(s.(inbox := s.inbox[1..], tasks := s.tasks[op.id := Task(op.token, op.cancelToken, false, false)],
                  place := s.place[op.token := Live(op.id)]))
  {
    var op := s.inbox[0];
    HeadIsQueued(s.inbox, s.place);
    QueueTakes(s.inbox, s.place, Live(op.id));
    StartedLive(s.tasks, s.posted, s.place, op);
    assert op.token < s.next;
    hide QueueInv, TaskInv, PostInv;
  }

  lemma StartedLive(tasks: map<int, Task>, posted: seq<Answer>, place: map<nat, Place>, op: Op)
    requires TaskInv(tasks, place) && PostInv(posted, place)
    requires op.Submit? && op.token in place && place[op.token] == Queued && op.id !in tasks
    ensures var place' := place[op.token := Live(op.id)];
      TaskInv(tasks[op.id := Task(op.token, op.cancelToken, false, false)], place') && PostInv(posted, place')
  {
  }

  lemma FlagsKeep(tasks: map<int, Task>, place: map<nat, Place>, ids: set<int>)
    requires TaskInv(tasks, place)
    ensures TaskInv(map id | id in tasks :: if id in ids then Flagged(tasks[id]) else tasks[id], place)
  {
  }

  lemma FlagKeepsInv(s: State, step: Step)
    requires Inv(s) && (step.FlagCancel? || step.FlagAll? || step.FlagToken? || step.ReleaseToken? || step.ClearTokens?)
    ensures Inv(Apply(s, step))
  {
    var ids := if step.FlagCancel? then {step.id} else s.tasks.Keys;
    FlagsKeep(s.tasks, s.place, ids);
    hide QueueInv, TaskInv, PostInv, Numbered;
    var flagged := map id | id in s.tasks :: if id in ids then Flagged(s.tasks[id]) else s.tasks[id];
    if step.FlagCancel? && step.id in s.tasks {
      assert flagged == s.tasks[step.id := Flagged(s.tasks[step.id])];
    } else if step.FlagAll? {
      assert flagged == map id | id in s.tasks :: Flagged(s.tasks[id]);
    }
  }

  lemma AddedOp(s: State, op: Op)
    requires PlaceInv(s) && !op.Submit?
    ensures PlaceInv(s.(inbox := s.inbox + [op]))
  {
    QueueWithout(s.inbox, s.place, s.inbox + [op]);
    hide QueueInv, TaskInv, PostInv, Numbered;
  }

  lemma PushKeepsInv(s: State, op: Op)
    requires Inv(s)
    ensures Inv(PushTo(s, op))
  {
    if !op.Submit? {
      AddedOp(s, op);
      hide PlaceInv;
    }
  }

  lemma StopKeepsInv(s: State)
    requires Inv(s) && s.shutdown == Begun
    ensures Inv(s.(shutdown := Appended, inbox := s.inbox + [Stop]))
  {
    AddedOp(s, Stop);
    PlaceOnly(s.(inbox := s.inbox + [Stop]), s.(shutdown := Appended, inbox := s.inbox + [Stop]));
    hide PlaceInv;
  }

  lemma PlaceOnly(s: State, t: State)
    requires PlaceInv(s) && t.inbox == s.inbox && t.tasks == s.tasks && t.posted == s.posted && t.place == s.place && t.next == s.next
    ensures PlaceInv(t)
  {
  }

  lemma TasksKeepStop(s: State, t: State)
    requires StopInv(s) && PlaceInv(t) && OnlyTasks(s, t) && t.tasks.Keys <= s.tasks.Keys
    ensures Inv(t)
  {
    hide PlaceInv;
  }

  lemma SubmitDrained(s: State, outcome: Outcome)
    requires Inv(s) && |s.inbox| > 0 && s.inbox[0].Submit? && !s.loopDone
    ensures Inv(Start(s.(inbox := s.inbox[1..]), s.inbox[0], outcome))
  {
    StartKeeps(s, outcome);
    hide PlaceInv, Start;
  }

  lemma OpDrained(s: State, outcome: Outcome, order: seq<int>)
    requires Inv(s) && |s.inbox| > 0 && !s.inbox[0].Submit? && !s.loopDone
    ensures Inv(Handle(s.(inbox := s.inbox[1..]), s.inbox[0], outcome, order))
  {
    var op, r := s.inbox[0], s.(inbox := s.inbox[1..]);
    QueueWithout(s.inbox, s.place, r.inbox);
    assert PlaceInv(r) by {
      hide QueueInv, TaskInv, PostInv, Numbered;
    }
    hide PlaceInv, QueueInv, End, EndAll;
    if op.Stop? {
      assert r.inbox == [];
      PlaceOnly(r, r.(stopping := true));
    } else {
      assert StopInv(r);
      match op {
        case Cancel(id) =>
          EndKeeps(r, id, Cancelled);
          if id in s.tasks {
            TasksKeepStop(r, End(r, id, Cancelled));
          } else {
            PlaceOnly(r, r.(preCancelled := Remember(r.preCancelled, id)));
          }
        case CancelToken(cancelToken) =>
          EndAllKeeps(r, order, Cancelled);
          TasksKeepStop(r, EndAll(r, order, Cancelled));
        case CancelAll =>
          EndAllKeeps(r, order, Cancelled);
          TasksKeepStop(r, EndAll(r, order, Cancelled));
        case _ =>
      }
    }
  }

  lemma NoLeftover(s: State, ops: seq<Op>)
    requires NoSubmits(ops)
    ensures AnswerLeftover(s, ops) == s
    decreases |ops|
  {
    if |ops| > 0 {
      NoLeftover(s, ops[1..]);
    }
  }

  lemma ExitKeepsInv(s: State, order: seq<int>)
    requires Inv(s) && s.stopping && IsOrder(s, CancelAll, order)
    ensures Inv(Exit(s, order)) && Exit(s, order).tasks == map[]
  {
    var t := EndAll(s, order, ShutDown);
    EndAllKeeps(s, order, ShutDown);
    assert forall id :: id in s.tasks <==> id in order;
    assert forall id :: id in s.tasks.Keys <==> id in SetOf(order);
    NoLeftover(t.(inbox := []), s.inbox);
    NoneQueued(t, []);
    PlaceOnly(t.(inbox := []), t.(inbox := [], loopDone := true));
    hide PlaceInv, EndAll;
  }

  lemma NoneQueued(s: State, inbox: seq<Op>)
    requires PlaceInv(s) && NoSubmits(s.inbox) && NoSubmits(inbox)
    ensures PlaceInv(s.(inbox := inbox))
  {
  }

  lemma StepKeepsInv(s: State, step: Step)
    requires Inv(s)
    ensures Inv(Apply(s, step))
  {
    hide PlaceInv, StopInv, Handle, Exit, SubmitTo, PushTo;
    match step {
      case DoSubmit(id, cancelToken) => SubmitKeepsInv(s, id, cancelToken);
      case Push(op) => PushKeepsInv(s, op);
      case BeginShutdown => BeginKeepsInv(s);
      case AppendStop =>
        if s.shutdown == Begun {
          StopKeepsInv(s);
        }
      case DrainOne(outcome, order) =>
        if !s.loopDone && |s.inbox| > 0 {
          if s.inbox[0].Submit? {
            HandlesSubmit(s, outcome, order);
            SubmitDrained(s, outcome);
          } else {
            OpDrained(s, outcome, order);
          }
          NotingKeepsInv(s, s.inbox[0], Handle(s.(inbox := s.inbox[1..]), s.inbox[0], outcome, order));
        }
      case InCallback(id) => CompleteKeepsInv(s, id, Failure);
      case CurlDone(id, kind) => EndKeepsInv(s, id, kind);
      case IdleExpires(id) => EndKeepsInv(s, id, Failure);
      case ExitLoop(order) =>
        if s.stopping && IsOrder(s, CancelAll, order) {
          ExitKeepsInv(s, order);
        }
      case _ => FlagKeepsInv(s, step);
    }
  }

  lemma NotingKeepsInv(s: State, op: Op, t: State)
    requires Inv(t)
    ensures Inv(Noted(s, op, t))
  {
    hide QueueInv, TaskInv, PostInv, Numbered, LetThrough;
  }

  lemma HandlesSubmit(s: State, outcome: Outcome, order: seq<int>)
    requires |s.inbox| > 0 && s.inbox[0].Submit?
    ensures Handle(s.(inbox := s.inbox[1..]), s.inbox[0], outcome, order)
      == Start(s.(inbox := s.inbox[1..]), s.inbox[0], outcome)
  {
  }

  lemma BeginKeepsInv(s: State)
    requires Inv(s)
    ensures Inv(Apply(s, BeginShutdown))
  {
    PlaceOnly(s, Apply(s, BeginShutdown));
    hide PlaceInv;
  }

  lemma CompleteKeepsInv(s: State, id: int, kind: Kind)
    requires Inv(s)
    ensures Inv(Complete(s, id, kind))
  {
    CompleteKeeps(s, id, kind);
    hide PlaceInv;
  }

  lemma EndKeepsInv(s: State, id: int, kind: Kind)
    requires Inv(s)
    ensures Inv(End(s, id, kind))
  {
    EndKeeps(s, id, kind);
    TasksKeepStop(s, End(s, id, kind));
  }

  lemma {:induction false} RunKeepsInv(hasMulti: bool, steps: seq<Step>)
    ensures Inv(Run(hasMulti, steps))
  {
    hide Apply;
    if |steps| > 0 {
      RunKeepsInv(hasMulti, steps[..|steps| - 1]);
      StepKeepsInv(Run(hasMulti, steps[..|steps| - 1]), steps[|steps| - 1]);
    }
  }

  // ----- The main results -----

  ghost predicate IsQueued(s: State, token: nat) {
    exists i :: SubmitAt(s.inbox, i, token)
  }

  predicate LiveAs(s: State, id: int, token: nat) {
    id in s.tasks && s.tasks[id].token == token && !s.tasks[id].completed
  }

  ghost predicate IsLive(s: State, token: nat) {
    exists id :: LiveAs(s, id, token)
  }

  ghost predicate IsAnswered(s: State, token: nat) {
    exists i :: AnswerAt(s.posted, i, token)
  }

  ghost predicate OneOf(a: bool, b: bool, c: bool) {
    (a && !b && !c) || (!a && b && !c) || (!a && !b && c)
  }

  /** In every reachable state each request submitted is in exactly one place, and in that place once:
      waiting in the inbox, a task that has not answered, or answered. */
  lemma InExactlyOnePlace(hasMulti: bool, steps: seq<Step>, token: nat)
    requires token < Run(hasMulti, steps).next
    ensures var s := Run(hasMulti, steps);
      && OneOf(IsQueued(s, token), IsLive(s, token), IsAnswered(s, token))
      && (forall i, j :: SubmitAt(s.inbox, i, token) && SubmitAt(s.inbox, j, token) ==> i == j)
      && (forall i, j :: LiveAs(s, i, token) && LiveAs(s, j, token) ==> i == j)
      && (forall i, j :: AnswerAt(s.posted, i, token) && AnswerAt(s.posted, j, token) ==> i == j)
  {
    var s := Run(hasMulti, steps);
    RunKeepsInv(hasMulti, steps);
    hide Run;
    assert token in s.place;
    assert IsQueued(s, token) ==> s.place[token] == Queued;
    assert IsLive(s, token) ==> s.place[token].Live?;
    assert IsAnswered(s, token) ==> s.place[token] == Done;
    match s.place[token] {
      case Queued =>
      case Live(id) => assert LiveAs(s, id, token);
      case Done =>
    }
  }

  /** Once the loop thread has gone, every request ever submitted has been answered: those the shutdown
      found, and those that come after it. */
  lemma AllAnsweredAfterShutdown(hasMulti: bool, steps: seq<Step>, token: nat)
    requires Run(hasMulti, steps).loopDone && token < Run(hasMulti, steps).next
    ensures IsAnswered(Run(hasMulti, steps), token)
  {
    var s := Run(hasMulti, steps);
    RunKeepsInv(hasMulti, steps);
    hide Run;
    assert token in s.place;
    assert !s.place[token].Live?;
    assert !IsQueued(s, token);
  }

  /** The loop thread never finds a request behind the stop op: `push` has refused since before it. */
  lemma NothingBehindStop(hasMulti: bool, steps: seq<Step>)
    ensures var s := Run(hasMulti, steps);
      && (forall i | 0 <= i < |s.inbox| && s.inbox[i].Stop? :: i == |s.inbox| - 1)
      && (s.stopping ==> NoSubmits(s.inbox))
      && (s.stopping && !s.loopDone ==> s.inbox == [])
  {
    RunKeepsInv(hasMulti, steps);
  }

  // ----- What a run adds to -----

  lemma {:induction false} EndAllGrows(s: State, ids: seq<int>, kind: Kind)
    ensures var t := EndAll(s, ids, kind);
      && s.posted <= t.posted && t.inbox == s.inbox && t.flagged == s.flagged && t.loopDone == s.loopDone
      && t.started == s.started && t.next == s.next
    decreases |ids|
  {
    if |ids| > 0 {
      EndAllGrows(End(s, ids[0], kind), ids[1..], kind);
    }
  }

  lemma {:induction false} LeftoverGrows(s: State, ops: seq<Op>)
    ensures var t := AnswerLeftover(s, ops);
      && s.posted <= t.posted && t.flagged == s.flagged && t.started == s.started && t.next == s.next && t.inbox == s.inbox
    decreases |ops|
  {
    if |ops| > 0 {
      LeftoverGrows(if ops[0].Submit? then Post(s, ops[0].token, ShutDown) else s, ops[1..]);
    }
  }

  lemma EndGrows(s: State, id: int, kind: Kind)
    ensures var t := End(s, id, kind);
      && s.posted <= t.posted && t.inbox == s.inbox && t.flagged == s.flagged && t.loopDone == s.loopDone
      && t.started == s.started && t.next == s.next
  {
  }

  lemma HandleGrows(s: State, op: Op, outcome: Outcome, order: seq<int>)
    ensures var t := Handle(s, op, outcome, order);
      && s.posted <= t.posted && t.inbox == s.inbox && t.flagged == s.flagged && t.loopDone == s.loopDone
      && t.started == s.started && t.next == s.next
  {
    hide End, EndAll;
    match op {
      case Submit(_, _, _) =>
      case Cancel(id) => EndGrows(s, id, Cancelled);
      case _ => EndAllGrows(s, order, Cancelled);
    }
  }

  lemma ExitGrows(s: State, order: seq<int>)
    ensures var t := Exit(s, order);
      && s.posted <= t.posted && t.flagged == s.flagged && t.started == s.started && t.next == s.next && t.inbox == []
  {
    EndAllGrows(s, order, ShutDown);
    LeftoverGrows(EndAll(s, order, ShutDown).(inbox := []), s.inbox);
    hide EndAll, AnswerLeftover;
  }

  predicate DrainsSubmit(s: State, step: Step) {
    step.DrainOne? && !s.loopDone && |s.inbox| > 0 && s.inbox[0].Submit?
  }

  predicate Forgets(step: Step, cancelToken: nat) {
    (step.ReleaseToken? && step.cancelToken == cancelToken) || step.ClearTokens?
  }

  predicate Sets(step: Step, cancelToken: nat) {
    cancelToken != 0 && step == FlagToken(cancelToken)
  }

  predicate Comes(s: State, t: State, op: Op) {
    op in t.inbox && op.Submit? ==> op in s.inbox || op.token == s.next
  }

  lemma FlagsMove(s: State, step: Step, cancelToken: nat)
    ensures cancelToken in Apply(s, step).flagged
      <==> Sets(step, cancelToken) || (cancelToken in s.flagged && !Forgets(step, cancelToken))
  {
    hide Handle, Exit, End, LetThrough, IsOrder, Complete;
    Grows(s, step);
  }

  /** Answers stay, and nothing but calls touches the flags. */
  lemma Grows(s: State, step: Step)
    ensures var t := Apply(s, step);
      && t.next >= s.next && s.posted <= t.posted
      && (step.DrainOne? || step.InCallback? || step.ExitLoop? || step.CurlDone? || step.IdleExpires? ==> t.flagged == s.flagged)
  {
    hide Handle, Exit, End, LetThrough, IsOrder;
    match step {
      case DrainOne(outcome, order) =>
        if |s.inbox| > 0 {
          HandleGrows(s.(inbox := s.inbox[1..]), s.inbox[0], outcome, order);
        }
      case ExitLoop(order) => ExitGrows(s, order);
      case CurlDone(id, kind) => EndGrows(s, id, kind);
      case IdleExpires(id) => EndGrows(s, id, Failure);
      case _ =>
    }
  }

  /** What one step does to the requests let through. */
  lemma StepStarts(s: State, step: Step)
    ensures Apply(s, step).started
      == if DrainsSubmit(s, step) && LetThrough(s, s.inbox[0]) then s.started + {s.inbox[0].token} else s.started
  {
    hide Handle, Exit, End, LetThrough, IsOrder;
    match step {
      case DrainOne(outcome, order) =>
        if |s.inbox| > 0 {
          HandleGrows(s.(inbox := s.inbox[1..]), s.inbox[0], outcome, order);
          SubmitNeedsNoOrder(s, order);
          OnlySubmits(s);
        }
      case ExitLoop(order) => ExitGrows(s, order);
      case CurlDone(id, kind) => EndGrows(s, id, kind);
      case IdleExpires(id) => EndGrows(s, id, Failure);
      case _ =>
    }
  }

  /** What one step does to the submissions that wait. */
  lemma WaitingMoves(s: State, step: Step)
    ensures forall op :: Comes(s, Apply(s, step), op)
  {
    hide Handle, Exit, End, LetThrough, IsOrder;
    match step {
      case DrainOne(outcome, order) =>
        if |s.inbox| > 0 {
          HandleGrows(s.(inbox := s.inbox[1..]), s.inbox[0], outcome, order);
        }
      case ExitLoop(order) => ExitGrows(s, order);
      case CurlDone(id, kind) => EndGrows(s, id, kind);
      case IdleExpires(id) => EndGrows(s, id, Failure);
      case _ =>
    }
  }

  lemma SubmitNeedsNoOrder(s: State, order: seq<int>)
    requires |s.inbox| > 0
    ensures s.inbox[0].Submit? ==> IsOrder(s, s.inbox[0], order)
  {
  }

  lemma OnlySubmits(s: State)
    requires |s.inbox| > 0
    ensures LetThrough(s, s.inbox[0]) ==> s.inbox[0].Submit?
  {
  }

  // ----- Cancel tokens -----

  /** The token was flagged by the call at `j`, and has not been released or cleared since. */
  predicate FlagStands(steps: seq<Step>, j: nat, cancelToken: nat) {
    j < |steps| && Sets(steps[j], cancelToken) && forall m | j < m < |steps| :: !Forgets(steps[m], cancelToken)
  }

  ghost predicate FlaggedBy(steps: seq<Step>, cancelToken: nat) {
    exists j :: FlagStands(steps, j, cancelToken)
  }

  lemma FlaggedByLast(steps: seq<Step>, cancelToken: nat)
    requires |steps| > 0
    ensures var before, step := steps[..|steps| - 1], steps[|steps| - 1];
      FlaggedBy(steps, cancelToken) == (Sets(step, cancelToken) || (FlaggedBy(before, cancelToken) && !Forgets(step, cancelToken)))
  {
    var n := |steps| - 1;
    var before, step := steps[..n], steps[n];
    if Sets(step, cancelToken) {
      assert FlagStands(steps, n, cancelToken);
    } else if FlaggedBy(before, cancelToken) && !Forgets(step, cancelToken) {
      var j: nat :| FlagStands(before, j, cancelToken);
      assert FlagStands(steps, j, cancelToken);
    }
    if FlaggedBy(steps, cancelToken) && !Sets(step, cancelToken) {
      var j: nat :| FlagStands(steps, j, cancelToken);
      assert FlagStands(before, j, cancelToken);
    }
  }

  /** Which tokens are flagged follows from the calls alone, whatever the loop thread does meanwhile. */
  lemma {:induction false} FlagsFollowCalls(hasMulti: bool, steps: seq<Step>, cancelToken: nat)
    ensures cancelToken in Run(hasMulti, steps).flagged <==> FlaggedBy(steps, cancelToken)
  {
    if |steps| == 0 {
      assert !FlaggedBy(steps, cancelToken);
    } else {
      hide Apply, FlaggedBy, Sets, Forgets;
      FlagsFollowCalls(hasMulti, steps[..|steps| - 1], cancelToken);
      FlaggedByLast(steps, cancelToken);
      FlagsMove(Run(hasMulti, steps[..|steps| - 1]), steps[|steps| - 1], cancelToken);
    }
  }

  /** The step at `k` takes the request `op` out of the inbox. */
  ghost predicate DrainedAt(hasMulti: bool, steps: seq<Step>, k: nat, op: Op) {
    k < |steps| && DrainsSubmit(Run(hasMulti, steps[..k]), steps[k]) && Run(hasMulti, steps[..k]).inbox[0] == op
  }

  /** Neither an early cancel of its id nor a live transfer with its id stands in its way. */
  predicate NothingElseRefuses(s: State, op: Op) {
    op.Submit? && op.id !in s.preCancelled && op.id !in s.tasks
  }

  ghost predicate StartedAt(hasMulti: bool, steps: seq<Step>, k: nat, op: Op) {
    && op.Submit? && DrainedAt(hasMulti, steps, k, op)
    && !FlaggedBy(steps[..k], op.cancelToken) && NothingElseRefuses(Run(hasMulti, steps[..k]), op)
  }

  lemma LetThroughMeans(hasMulti: bool, steps: seq<Step>, op: Op)
    requires op.Submit?
    ensures LetThrough(Run(hasMulti, steps), op)
      <==> !FlaggedBy(steps, op.cancelToken) && NothingElseRefuses(Run(hasMulti, steps), op)
  {
    FlagsFollowCalls(hasMulti, steps, op.cancelToken);
    Found(Run(hasMulti, steps).preCancelled, op.id);
    hide Run, FlaggedBy;
  }

  /** Over every run, the requests started are those drained with their token not standing flagged by the calls
      made so far, no early cancel of their id remembered and no live transfer with it. */
  lemma {:induction false} StartedExactly(hasMulti: bool, steps: seq<Step>, token: nat)
    ensures token in Run(hasMulti, steps).started
      <==> exists k, op :: StartedAt(hasMulti, steps, k, op) && op.token == token
  {
    hide Apply, LetThrough, FlaggedBy, NothingElseRefuses;
    if |steps| > 0 {
      var n := |steps| - 1;
      var before, step := steps[..n], steps[n];
      var s := Run(hasMulti, before);
      StartedExactly(hasMulti, before, token);
      StepStarts(s, step);
      if DrainsSubmit(s, step) {
        LetThroughMeans(hasMulti, before, s.inbox[0]);
        assert StartedAt(hasMulti, steps, n, s.inbox[0]) <==> LetThrough(s, s.inbox[0]);
      }
      StartedBefore(hasMulti, steps, token);
    }
  }

  lemma StartedBefore(hasMulti: bool, steps: seq<Step>, token: nat)
    requires |steps| > 0
    ensures var n := |steps| - 1;
      (exists k, op :: StartedAt(hasMulti, steps, k, op) && op.token == token)
        <==> (exists k, op :: StartedAt(hasMulti, steps[..n], k, op) && op.token == token)
             || (DrainsSubmit(Run(hasMulti, steps[..n]), steps[n])
                 && Run(hasMulti, steps[..n]).inbox[0].token == token
                 && StartedAt(hasMulti, steps, n, Run(hasMulti, steps[..n]).inbox[0]))
  {
    hide Run, FlaggedBy, NothingElseRefuses;
    var n := |steps| - 1;
    assert forall k | 0 <= k < n :: steps[..n][..k] == steps[..k];
    if k: nat, op :| StartedAt(hasMulti, steps, k, op) && op.token == token {
      if k < n {
        assert StartedAt(hasMulti, steps[..n], k, op);
      }
    }
    if k: nat, op :| StartedAt(hasMulti, steps[..n], k, op) && op.token == token {
      assert StartedAt(hasMulti, steps, k, op);
    }
  }

  /** A submission that is no longer waiting never waits again. */
  lemma {:induction false} StaysDrained(hasMulti: bool, steps: seq<Step>, k: nat, token: nat)
    requires k <= |steps| && token < Run(hasMulti, steps[..k]).next && !IsQueued(Run(hasMulti, steps[..k]), token)
    ensures token < Run(hasMulti, steps).next && !IsQueued(Run(hasMulti, steps), token)
    decreases |steps|
  {
    hide Apply;
    if k < |steps| {
      var before := steps[..|steps| - 1];
      assert before[..k] == steps[..k];
      StaysDrained(hasMulti, before, k, token);
      WaitingMoves(Run(hasMulti, before), steps[|steps| - 1]);
      Grows(Run(hasMulti, before), steps[|steps| - 1]);
      NotBack(Run(hasMulti, before), Run(hasMulti, steps), token);
    } else {
      assert steps[..k] == steps;
    }
  }

  lemma NotBack(s: State, t: State, token: nat)
    requires token < s.next && !IsQueued(s, token) && forall op :: Comes(s, t, op)
    ensures !IsQueued(t, token)
  {
    if i: nat :| SubmitAt(t.inbox, i, token) {
      var op := t.inbox[i];
      assert Comes(s, t, op);
      var j :| 0 <= j < |s.inbox| && s.inbox[j] == op;
      assert SubmitAt(s.inbox, j, token);
    }
  }

  lemma DrainedIsGone(hasMulti: bool, steps: seq<Step>, k: nat, op: Op)
    requires DrainedAt(hasMulti, steps, k, op)
    ensures var t := Run(hasMulti, steps[..k + 1]); op.token < t.next && !IsQueued(t, op.token)
  {
    var s, step := Run(hasMulti, steps[..k]), steps[k];
    assert steps[..k + 1][..k] == steps[..k];
    RunKeepsInv(hasMulti, steps[..k]);
    hide Run;
    assert s.inbox[0].token in s.place;
    TakenFromInbox(s, step);
    Grows(s, step);
    forall i: nat
      ensures !SubmitAt(s.inbox[1..], i, op.token)
    {
      assert i < |s.inbox[1..]| && s.inbox[1..][i].Submit? ==> s.inbox[0].token < s.inbox[i + 1].token;
    }
  }

  lemma TakenFromInbox(s: State, step: Step)
    requires DrainsSubmit(s, step)
    ensures Apply(s, step).inbox == s.inbox[1..]
  {
    hide Handle, LetThrough, IsOrder;
    SubmitNeedsNoOrder(s, step.order);
    HandleGrows(s.(inbox := s.inbox[1..]), s.inbox[0], step.outcome, step.order);
  }

  lemma NotDrainedAgain(hasMulti: bool, steps: seq<Step>, k: nat, op: Op, k': nat, op': Op)
    requires k < k' && DrainedAt(hasMulti, steps, k, op) && DrainedAt(hasMulti, steps, k', op')
    ensures op.token != op'.token
  {
    DrainedIsGone(hasMulti, steps, k, op);
    assert SubmitAt(Run(hasMulti, steps[..k']).inbox, 0, op'.token);
    assert k' < |steps|;
    hide *;
    assert steps[..k'][..k + 1] == steps[..k + 1];
    StaysDrained(hasMulti, steps[..k'], k + 1, op.token);
    SomebodyQueued(Run(hasMulti, steps[..k']), op'.token);
  }

  lemma SomebodyQueued(s: State, token: nat)
    requires SubmitAt(s.inbox, 0, token)
    ensures IsQueued(s, token)
  {
  }

  lemma DrainedOnce(hasMulti: bool, steps: seq<Step>, k: nat, op: Op, k': nat, op': Op)
    requires DrainedAt(hasMulti, steps, k, op) && DrainedAt(hasMulti, steps, k', op') && op.token == op'.token
    ensures k == k'
  {
    hide *;
    if k < k' {
      NotDrainedAgain(hasMulti, steps, k, op, k', op');
    } else if k' < k {
      NotDrainedAgain(hasMulti, steps, k', op', k, op);
    }
  }

  /** Whether a request is ever started is settled when it is drained: by its token as the calls before have
      left it, the cancels remembered and the transfers live at that moment. Nothing later changes it. */
  lemma TokenDecidesStart(hasMulti: bool, steps: seq<Step>, k: nat, op: Op)
    requires DrainedAt(hasMulti, steps, k, op)
    ensures op.token in Run(hasMulti, steps).started
      <==> !FlaggedBy(steps[..k], op.cancelToken) && NothingElseRefuses(Run(hasMulti, steps[..k]), op)
  {
    StartedExactly(hasMulti, steps, op.token);
    forall k', op' | StartedAt(hasMulti, steps, k', op') && op'.token == op.token
      ensures k' == k
    {
      DrainedOnce(hasMulti, steps, k, op, k', op');
    }
    hide Run, FlaggedBy, NothingElseRefuses, DrainsSubmit;
    assert StartedAt(hasMulti, steps, k, op)
      <==> !FlaggedBy(steps[..k], op.cancelToken) && NothingElseRefuses(Run(hasMulti, steps[..k]), op);
  }

  /** A token stays flagged: it is not released or cleared, or it is flagged again after that. */
  ghost predicate StaysFlagged(meanwhile: seq<Step>, cancelToken: nat) {
    (forall m | 0 <= m < |meanwhile| :: !Forgets(meanwhile[m], cancelToken)) || FlaggedBy(meanwhile, cancelToken)
  }

  lemma FlaggedMeanwhile(steps: seq<Step>, j: nat, cancelToken: nat)
    requires j <= |steps| && FlaggedBy(steps[..j], cancelToken)
    ensures FlaggedBy(steps, cancelToken) <==> StaysFlagged(steps[j..], cancelToken)
  {
    var i: nat :| FlagStands(steps[..j], i, cancelToken);
    var meanwhile := steps[j..];
    if FlaggedBy(meanwhile, cancelToken) {
      var m: nat :| FlagStands(meanwhile, m, cancelToken);
      assert forall n | j + m < n < |steps| :: steps[n] == meanwhile[n - j];
      assert FlagStands(steps, j + m, cancelToken);
    } else if StaysFlagged(meanwhile, cancelToken) {
      assert forall n | j <= n < |steps| :: steps[n] == meanwhile[n - j];
      assert forall n | i < n < j :: steps[n] == steps[..j][n];
      assert FlagStands(steps, i, cancelToken);
    }
    if FlaggedBy(steps, cancelToken) {
      var m: nat :| FlagStands(steps, m, cancelToken);
      assert forall n | 0 <= n < |meanwhile| :: meanwhile[n] == steps[j + n];
      if m >= j {
        assert FlagStands(meanwhile, m - j, cancelToken);
      }
    }
  }

  /** A request bound to a token that was flagged by the time `j`, and which nothing else refuses, is never
      started if and only if, until it is drained, the token is not released or cleared, or is flagged again. */
  lemma FlaggedTokenPreventsStart(hasMulti: bool, steps: seq<Step>, j: nat, k: nat, op: Op)
    requires DrainedAt(hasMulti, steps, k, op) && NothingElseRefuses(Run(hasMulti, steps[..k]), op)
    requires j <= k && FlaggedBy(steps[..j], op.cancelToken)
    ensures op.token !in Run(hasMulti, steps).started <==> StaysFlagged(steps[j..k], op.cancelToken)
  {
    assert k < |steps|;
    hide Run, StaysFlagged, FlaggedBy, NothingElseRefuses, DrainedAt;
    TokenDecidesStart(hasMulti, steps, k, op);
    assert steps[..k][..j] == steps[..j] && steps[..k][j..] == steps[j..k];
    FlaggedMeanwhile(steps[..k], j, op.cancelToken);
  }

  /** The release in between is enough: the request is then started, though its token was cancelled before. */
  lemma ReleasedTokenStarts(id: int, cancelToken: nat)
    requires cancelToken != 0
    ensures var s := Run(true, [FlagToken(cancelToken), Push(CancelToken(cancelToken)), DrainOne(Attached, []),
                                DoSubmit(id, cancelToken), ReleaseToken(cancelToken), DrainOne(Attached, [])]);
      0 in s.started && IsLive(s, 0)
  {
    var a := [FlagToken(cancelToken)];
    var b := a + [Push(CancelToken(cancelToken))];
    var c := b + [DrainOne(Attached, [])];
    var d := c + [DoSubmit(id, cancelToken)];
    var e := d + [ReleaseToken(cancelToken)];
    var f := e + [DrainOne(Attached, [])];
    RunThen(true, [], a[0]);
    assert [] + [a[0]] == a;
    RunThen(true, a, b[1]);
    RunThen(true, b, c[2]);
    RunThen(true, c, d[3]);
    RunThen(true, d, e[4]);
    RunThen(true, e, f[5]);
    assert LiveAs(Run(true, f), id, 0);
    assert f == [FlagToken(cancelToken), Push(CancelToken(cancelToken)), DrainOne(Attached, []),
                 DoSubmit(id, cancelToken), ReleaseToken(cancelToken), DrainOne(Attached, [])];
  }

  lemma RunThen(hasMulti: bool, steps: seq<Step>, step: Step)
    ensures Run(hasMulti, steps + [step]) == Apply(Run(hasMulti, steps), step)
  {
    assert (steps + [step])[..|steps|] == steps;
  }

  // ----- What is not started is not run -----

  predicate Refusal(kind: Kind) {
    kind == Cancelled || kind == Duplicate || kind == ShutDown
  }

  predicate StartInv(tasks: map<int, Task>, posted: seq<Answer>, started: set<nat>) {
    && (forall id | id in tasks :: tasks[id].token in started)
    && (forall i | 0 <= i < |posted| :: Refusal(posted[i].kind) || posted[i].token in started)
  }

  lemma EndStarted(s: State, id: int, kind: Kind)
    requires StartInv(s.tasks, s.posted, s.started)
    ensures var t := End(s, id, kind); StartInv(t.tasks, t.posted, t.started)
  {
    CompleteStarted(s, id, kind);
    CompleteStarted(Complete(s, id, kind), id, Destroyed);
    hide Complete;
  }

  lemma CompleteStarted(s: State, id: int, kind: Kind)
    requires StartInv(s.tasks, s.posted, s.started)
    ensures var t := Complete(s, id, kind); StartInv(t.tasks, t.posted, t.started)
  {
  }

  lemma {:induction false} EndAllStarted(s: State, ids: seq<int>, kind: Kind)
    requires StartInv(s.tasks, s.posted, s.started)
    ensures var t := EndAll(s, ids, kind); StartInv(t.tasks, t.posted, t.started)
    decreases |ids|
  {
    if |ids| > 0 {
      EndStarted(s, ids[0], kind);
      EndAllStarted(End(s, ids[0], kind), ids[1..], kind);
    }
    hide End;
  }

  lemma {:induction false} LeftoverStarted(s: State, ops: seq<Op>)
    requires StartInv(s.tasks, s.posted, s.started)
    ensures var t := AnswerLeftover(s, ops); StartInv(t.tasks, t.posted, t.started)
    decreases |ops|
  {
    if |ops| > 0 {
      LeftoverStarted(if ops[0].Submit? then Post(s, ops[0].token, ShutDown) else s, ops[1..]);
    }
  }

  lemma AnsweredStarted(s: State, token: nat, kind: Kind)
    requires StartInv(s.tasks, s.posted, s.started) && (Refusal(kind) || token in s.started)
    ensures StartInv(s.tasks, Post(s, token, kind).posted, s.started)
  {
  }

  lemma SubmitStarted(s: State, outcome: Outcome)
    requires StartInv(s.tasks, s.posted, s.started) && |s.inbox| > 0 && s.inbox[0].Submit?
    ensures var t := Noted(s, s.inbox[0], Start(s.(inbox := s.inbox[1..]), s.inbox[0], outcome));
      StartInv(t.tasks, t.posted, t.started)
  {
    var op, r := s.inbox[0], s.(inbox := s.inbox[1..]);
    var t := Noted(s, op, Start(r, op, outcome));
    if LetThrough(s, op) {
      var more := r.(started := s.started + {op.token});
      assert StartInv(more.tasks, more.posted, more.started);
      if !outcome.Attached? {
        AnsweredStarted(more, op.token, t.posted[|s.posted|].kind);
      }
    } else {
      AnsweredStarted(r, op.token, t.posted[|s.posted|].kind);
    }
    hide StartInv, IndexOf, Refusal;
  }

  lemma HandleStarted(s: State, outcome: Outcome, order: seq<int>)
    requires StartInv(s.tasks, s.posted, s.started) && |s.inbox| > 0
    ensures var t := Noted(s, s.inbox[0], Handle(s.(inbox := s.inbox[1..]), s.inbox[0], outcome, order));
      StartInv(t.tasks, t.posted, t.started)
  {
    hide End, EndAll, Start, StartInv, IndexOf;
    var r := s.(inbox := s.inbox[1..]);
    match s.inbox[0] {
      case Submit(_, _, _) => SubmitStarted(s, outcome);
      case Cancel(id) => EndStarted(r, id, Cancelled);
      case _ => EndAllStarted(r, order, Cancelled);
    }
  }

  lemma ExitStarted(s: State, order: seq<int>)
    requires StartInv(s.tasks, s.posted, s.started)
    ensures var t := Exit(s, order); StartInv(t.tasks, t.posted, t.started)
  {
    EndAllStarted(s, order, ShutDown);
    LeftoverStarted(EndAll(s, order, ShutDown).(inbox := []), s.inbox);
    hide EndAll, AnswerLeftover, StartInv;
  }

  lemma StepStarted(s: State, step: Step)
    requires StartInv(s.tasks, s.posted, s.started)
    ensures var t := Apply(s, step); StartInv(t.tasks, t.posted, t.started)
  {
    hide Handle, Exit, End, Complete, Noted;
    match step {
      case DrainOne(outcome, order) =>
        if |s.inbox| > 0 {
          HandleStarted(s, outcome, order);
        }
      case ExitLoop(order) => ExitStarted(s, order);
      case InCallback(id) => CompleteStarted(s, id, Failure);
      case CurlDone(id, kind) => EndStarted(s, id, kind);
      case IdleExpires(id) => EndStarted(s, id, Failure);
      case _ =>
    }
  }

  /** A request that has not been started has no transfer, and if it was answered it was refused. */
  lemma {:induction false} NotStartedMeansRefused(hasMulti: bool, steps: seq<Step>)
    ensures var s := Run(hasMulti, steps); StartInv(s.tasks, s.posted, s.started)
  {
    if |steps| > 0 {
      NotStartedMeansRefused(hasMulti, steps[..|steps| - 1]);
      StepStarted(Run(hasMulti, steps[..|steps| - 1]), steps[|steps| - 1]);
      hide Apply, StartInv;
    }
  }

  /** A cancel that finds its task ends it; one that does not is remembered for the next submit of that id. */
  lemma CancelTakesEffect(s: State, outcome: Outcome)
    requires Inv(s) && !s.loopDone && |s.inbox| > 0 && s.inbox[0].Cancel?
    ensures var id, t := s.inbox[0].id, Apply(s, DrainOne(outcome, []));
      && id !in t.tasks
      && (id in s.tasks && !s.tasks[id].completed ==> t.posted == s.posted + [Answer(s.tasks[id].token, Cancelled)])
      && (id !in s.tasks ==> IndexOf(t.preCancelled, id) < |t.preCancelled|)
  {
    var id := s.inbox[0].id;
    if id !in s.tasks {
      Remembered(s.preCancelled, id);
    }
  }

  lemma {:induction false} Remembered(ids: seq<int>, id: int)
    ensures IndexOf(Remember(ids, id), id) < |Remember(ids, id)|
  {
    Found(Remember(ids, id), id);
  }

  lemma {:induction false} Found(ids: seq<int>, id: int)
    ensures IndexOf(ids, id) < |ids| <==> id in ids
  {
    if |ids| > 0 {
      Found(ids[1..], id);
    }
  }
}
