/** A streamed upload on its way from Dart to curl: parked on the queued submit, then a pipe, with the Dart
    thread feeding and the loop thread reading in any interleaving of their locked regions. */
module UploadPath {
  import opened Bytes
  import opened Seqs
  import opened BodyPipe

  /** `Starting` lies between the locked region that starts the task and the signals that came early. */
  datatype Phase = Parked | Starting | Live | Dead

  /** Where curl's read callback is; each of its looks at the pipe takes the pipe's lock anew. */
  datatype Reader = Idle | FoundNothing | NotFailed | Pausing

  /** `owed` counts pipe updates whose upload op the Dart thread is about to push, `ops` the upload ops in
      the inbox; `closing` says that shutdown has begun, so that pushes are refused. `fed` is what Dart
      offered before it finished or failed, `late` what was taken in after that, `read` what curl got,
      `dropped` what a failure threw away: they only record. */
  datatype State = State(
    phase: Phase,
    body: bytes,
    finishParked: bool,
    failParked: bool,
    pipe: Fifo,
    reader: Reader,
    readPaused: bool,
    owed: nat,
    ops: nat,
    eof: bool,
    aborted: bool,
    closing: bool,
    over: bool,
    fed: bytes,
    late: bytes,
    read: bytes,
    dropped: bytes)

  function Init(body: bytes): State {
    State(Parked, body, false, false, EMPTY, Idle, false, 0, 0, false, false, false, false, body, [], [], [])
  }

  datatype Step =
    // The Dart thread: a locked region, then the push of its op.
    | Feed(data: bytes)
    | Finish
    | Fail
    | PushOp
    | BeginShutdown
    // The loop thread.
    | StartTask
    | StartFails
    | ApplySignals
    | DrainOp
    | Retire
    | Read(capacity: nat)
    | LookFailed
    | LookEof
    | Pause

  predicate HasPipe(s: State) {
    s.phase == Starting || s.phase == Live
  }

  /** What is taken in is recorded before the end or after it. */
  function Recorded(s: State, taken: bytes): State {
    if s.over then s.(late := s.late + taken) else s.(fed := s.fed + taken)
  }

  /** `feedUpload`. */
  function FeedTo(s: State, data: bytes): State {
    if s.phase == Dead then s else
    var t := Recorded(s, if s.phase == Parked || !(s.pipe.finished || s.pipe.failed) then data else []);
    if s.phase == Parked then t.(body := s.body + data)
    else t.(pipe := Pushed(s.pipe, data), owed := s.owed + 1)
  }

  function FinishTo(s: State): State {
    var t := s.(over := true);
    if s.phase == Dead then t
    else if s.phase == Parked then t.(finishParked := true)
    else t.(pipe := s.pipe.(finished := true), owed := s.owed + 1)
  }

  function FailTo(s: State): State {
    var t := s.(over := true);
    if s.phase == Dead then t
    else if s.phase == Parked then t.(failParked := true)
    else t.(pipe := Failed(s.pipe), owed := s.owed + 1, dropped := s.dropped + s.pipe.pending)
  }

  function ReadFrom(s: State, capacity: nat): State {
    if s.phase != Live || s.reader != Idle || s.readPaused || s.eof || s.aborted || capacity == 0 then s else
    var out := Taken(s.pipe, capacity);
    if |out| == 0 then s.(reader := FoundNothing)
    else s.(pipe := Pulled(s.pipe, capacity), read := s.read + out)
  }

  /** The signals that came while the submit was queued reach the new pipe. */
  function SignalsTo(s: State): State {
    if s.phase != Starting then s
    else if s.failParked then s.(phase := Live, pipe := Failed(s.pipe), dropped := s.dropped + s.pipe.pending)
    else if s.finishParked then s.(phase := Live, pipe := s.pipe.(finished := true))
    else s.(phase := Live)
  }

  function Apply(s: State, step: Step): State {
    match step
    case Feed(data) => FeedTo(s, data)
    case Finish => FinishTo(s)
    case Fail => FailTo(s)
    case PushOp => if s.owed == 0 then s else s.(owed := s.owed - 1, ops := if s.closing then s.ops else s.ops + 1)
    case BeginShutdown => s.(closing := true)
    case StartTask => if s.phase == Parked then s.(phase := Starting, pipe := Pushed(EMPTY, s.body)) else s
    case StartFails => if s.phase == Parked then s.(phase := Dead) else s
    case ApplySignals => SignalsTo(s)
    case DrainOp =>
      if s.ops == 0 || s.reader != Idle || s.phase == Starting then s else s.(ops := s.ops - 1, readPaused := false)
    case Retire => if s.phase == Live && s.reader == Idle then s.(phase := Dead) else s
    case Read(capacity) => ReadFrom(s, capacity)
    case LookFailed =>
      if s.reader != FoundNothing then s
      else if s.pipe.failed then s.(reader := Idle, aborted := true) else s.(reader := NotFailed)
    case LookEof =>
      if s.reader != NotFailed then s
      else if s.pipe.finished && |s.pipe.pending| == 0 then s.(reader := Idle, eof := true)
      else s.(reader := Pausing)
    case Pause => if s.reader != Pausing then s else s.(reader := Idle, readPaused := true)
  }

  function Run(body: bytes, steps: seq<Step>): State {
    if |steps| == 0 then Init(body) else Apply(Run(body, steps[..|steps| - 1]), steps[|steps| - 1])
  }

  // ----- What every run keeps -----

  /** Bytes: in the pipe or on the submit, in the order they were taken in. */
  predicate OrderInv(s: State) {
    && (s.phase == Parked ==> s.body == s.fed + s.late && s.read == [] && s.pipe == EMPTY)
    && (HasPipe(s) || s.eof ==> s.read + s.pipe.pending + s.dropped == s.fed + s.late)
    && s.read <= s.fed + s.late
    && (|s.dropped| > 0 ==> s.pipe.failed)
    && (s.phase == Parked || s.phase == Starting ==> s.read == [])
    && (!s.over ==> s.late == [] && !s.finishParked && !s.failParked && !s.pipe.finished && !s.pipe.failed)
    && (s.phase == Live && s.over ==> s.pipe.finished || s.pipe.failed)
    && (s.phase == Starting && s.over ==> s.pipe.finished || s.pipe.failed || s.finishParked || s.failParked)
    && (s.phase == Parked && s.over ==> s.finishParked || s.failParked)
    && (s.eof ==> s.over && (s.pipe.finished || s.pipe.failed) && |s.pipe.pending| == 0)
    && (s.pipe.failed ==> |s.pipe.pending| == 0)
    && (s.phase == Starting || s.phase == Parked ==> s.reader == Idle && !s.readPaused && !s.eof && !s.aborted)
    && (s.reader != Idle ==> s.phase == Live && !s.eof && !s.aborted)
  }

  /** There is something for a paused transfer to wake up for. */
  predicate Stirred(s: State) {
    |s.pipe.pending| > 0 || s.pipe.finished || s.pipe.failed
  }

  predicate WakeInv(s: State) {
    var coming := s.closing || s.owed + s.ops > 0;
    && (s.reader == FoundNothing && |s.pipe.pending| > 0 ==> coming)
    && (s.reader == NotFailed && (|s.pipe.pending| > 0 || s.pipe.failed) ==> coming)
    && (s.reader == Pausing && Stirred(s) ==> coming)
    && (s.readPaused && HasPipe(s) && Stirred(s) ==> coming)
    && (s.reader != Idle ==> !s.readPaused)
  }

  lemma StepKeepsOrder(s: State, step: Step)
    requires OrderInv(s)
    ensures OrderInv(Apply(s, step))
  {
    match step {
      case Feed(data) => FeedKeepsOrder(s, data);
      case Read(capacity) => ReadKeepsOrder(s, capacity);
      case Finish => FinishKeepsOrder(s);
      case Fail => FailKeepsOrder(s);
      case StartTask => StartKeepsOrder(s);
      case ApplySignals => StartKeepsOrder(s);
      case _ => LookKeepsOrder(s, step);
    }
  }

  lemma FinishKeepsOrder(s: State)
    requires OrderInv(s)
    ensures OrderInv(FinishTo(s))
  {
  }

  lemma FailKeepsOrder(s: State)
    requires OrderInv(s)
    ensures OrderInv(FailTo(s))
  {
    ThrownAway(s);
  }

  /** What a failure throws away is the end of what was taken in. */
  lemma ThrownAway(s: State)
    requires OrderInv(s)
    ensures HasPipe(s) || s.eof ==>
      s.read + Failed(s.pipe).pending + (s.dropped + s.pipe.pending) == s.fed + s.late
  {
    if |s.dropped| > 0 {
      assert s.pipe.pending == [];
      NilRight(s.dropped);
    } else {
      NilLeft(s.pipe.pending);
      NilRight(s.read);
      NilRight(s.read + s.pipe.pending);
    }
  }

  lemma StartKeepsOrder(s: State)
    requires OrderInv(s)
    ensures OrderInv(Apply(s, StartTask)) && OrderInv(Apply(s, ApplySignals))
  {
    NilLeft(s.body);
    ThrownAway(s);
  }

  lemma LookKeepsOrder(s: State, step: Step)
    requires OrderInv(s) && !step.Feed? && !step.Read? && !step.Finish? && !step.Fail? && !step.StartTask? && !step.ApplySignals?
    ensures OrderInv(Apply(s, step))
  {
    NilRight(s.read);
  }

  lemma FeedKeepsOrder(s: State, data: bytes)
    requires OrderInv(s)
    ensures OrderInv(FeedTo(s, data))
  {
    Assoc(s.fed, s.late, data);
    Assoc(s.read, s.pipe.pending, data);
    NilRight(s.read + s.pipe.pending);
    NilRight(s.read + (s.pipe.pending + data));
    NilRight(s.fed);
    NilRight(s.fed + data);
    NilRight(s.late);
  }

  lemma ReadKeepsOrder(s: State, capacity: nat)
    requires OrderInv(s)
    ensures OrderInv(ReadFrom(s, capacity))
  {
    PulledKeepsOrder(s.pipe, capacity);
    Assoc(s.read, Taken(s.pipe, capacity), Pulled(s.pipe, capacity).pending);
    NilRight(s.read + s.pipe.pending);
    NilRight(s.read + Taken(s.pipe, capacity) + Pulled(s.pipe, capacity).pending);
  }

  lemma StepKeepsWake(s: State, step: Step)
    requires OrderInv(s) && WakeInv(s)
    ensures WakeInv(Apply(s, step))
  {
  }

  lemma {:induction false} RunKeepsInv(body: bytes, steps: seq<Step>)
    ensures OrderInv(Run(body, steps)) && WakeInv(Run(body, steps))
  {
    hide Apply, WakeInv;
    if |steps| == 0 {
      NilRight(body);
      FreshWake(body);
    } else {
      RunKeepsInv(body, steps[..|steps| - 1]);
      StepKeepsOrder(Run(body, steps[..|steps| - 1]), steps[|steps| - 1]);
      StepKeepsWake(Run(body, steps[..|steps| - 1]), steps[|steps| - 1]);
    }
  }

  lemma FreshWake(body: bytes)
    ensures WakeInv(Init(body))
  {
  }

  // ----- The main results -----

  /** Dart, having finished or failed the upload, offers it nothing more. */
  predicate StopsAtTheEnd(steps: seq<Step>) {
    forall i, j | 0 <= i < j < |steps| && (steps[i].Finish? || steps[i].Fail?) && steps[j].Feed? :: |steps[j].data| == 0
  }

  /** Wherever the loop thread is when Dart feeds and finishes: what curl has read is in order a prefix of
      what was taken in; what it has not read is in the pipe or was thrown away by a failure; and at end of
      file it has read all of it if and only if no failure threw anything away. */
  lemma ReadInOrder(body: bytes, steps: seq<Step>)
    ensures var s := Run(body, steps);
      && s.read <= s.fed + s.late
      && (HasPipe(s) ==> s.read + s.pipe.pending + s.dropped == s.fed + s.late)
      && (s.eof ==> (s.read == s.fed + s.late <==> s.dropped == []))
  {
    RunKeepsInv(body, steps);
    var s := Run(body, steps);
    hide Run, WakeInv;
    NilRight(s.read);
    if s.eof {
      assert s.pipe.pending == [];
      assert |s.read + s.dropped| == |s.fed + s.late|;
    }
  }

  /** A failure that throws bytes away: it finds unread bytes in the pipe, or it came while the submit was
      queued, and the submit has bytes by the time its task takes them over. */
  predicate Discards(s: State, step: Step) {
    || (step.Fail? && HasPipe(s) && |s.pipe.pending| > 0)
    || (step.ApplySignals? && s.phase == Starting && s.failParked && !s.pipe.failed && |s.fed + s.late| > 0)
  }

  ghost predicate DiscardedAt(body: bytes, steps: seq<Step>, k: nat) {
    k < |steps| && Discards(Run(body, steps[..k]), steps[k])
  }

  /** What is recorded of bytes and ends moves with feeding, reading, ends and signals alone. */
  predicate SameRecord(s: State, t: State) {
    && t.over == s.over && t.fed == s.fed && t.late == s.late && t.dropped == s.dropped
    && t.failParked == s.failParked && (s.phase == Dead ==> t.phase == Dead)
  }

  lemma PushMoves(s: State, step: Step)
    requires step.PushOp? || step.BeginShutdown? || step.DrainOp?
    ensures SameRecord(s, Apply(s, step))
  {
    match step {
      case PushOp =>
        if s.owed == 0 {
        } else {
        }
      case BeginShutdown =>
      case DrainOp =>
        if s.ops == 0 || s.reader != Idle || s.phase == Starting {
        } else {
        }
    }
  }

  lemma PhaseMoves(s: State, step: Step)
    requires step.StartTask? || step.StartFails? || step.Retire?
    ensures SameRecord(s, Apply(s, step))
  {
    hide Pushed;
    match step {
      case StartTask =>
        if s.phase == Parked {
        } else {
        }
      case StartFails =>
        if s.phase == Parked {
        } else {
        }
      case Retire =>
        if s.phase == Live && s.reader == Idle {
        } else {
        }
    }
  }

  lemma LookMoves(s: State, step: Step)
    requires step.LookFailed? || step.LookEof? || step.Pause?
    ensures SameRecord(s, Apply(s, step))
  {
    match step {
      case LookFailed =>
        if s.reader != FoundNothing {
        } else if s.pipe.failed {
        } else {
        }
      case LookEof =>
        if s.reader != NotFailed {
        } else if s.pipe.finished && |s.pipe.pending| == 0 {
        } else {
        }
      case Pause =>
        if s.reader != Pausing {
        } else {
        }
    }
  }

  lemma OnlyMoves(s: State, step: Step)
    requires !step.Feed? && !step.Finish? && !step.Fail? && !step.ApplySignals? && !step.Read?
    ensures SameRecord(s, Apply(s, step))
  {
    hide Apply, SameRecord;
    match step {
      case PushOp => PushMoves(s, step);
      case BeginShutdown => PushMoves(s, step);
      case DrainOp => PushMoves(s, step);
      case StartTask => PhaseMoves(s, step);
      case StartFails => PhaseMoves(s, step);
      case Retire => PhaseMoves(s, step);
      case _ => LookMoves(s, step);
    }
  }

  lemma SignalsMove(s: State)
    ensures var t := SignalsTo(s);
      && t.over == s.over && t.fed == s.fed && t.late == s.late && t.failParked == s.failParked
      && (s.phase == Dead ==> t.phase == Dead)
      && t.dropped == (if s.phase == Starting && s.failParked then s.dropped + s.pipe.pending else s.dropped)
  {
    hide Failed;
    if s.phase != Starting {
    } else if s.failParked {
    } else if s.finishParked {
    } else {
    }
  }

  lemma ReadMoves(s: State, capacity: nat)
    ensures SameRecord(s, ReadFrom(s, capacity))
  {
    hide Taken, Pulled;
  }

  lemma FinishMoves(s: State)
    ensures var t := FinishTo(s);
      && t.over && t.fed == s.fed && t.late == s.late && t.dropped == s.dropped && t.failParked == s.failParked
      && (s.phase == Dead ==> t.phase == Dead)
  {
    if s.phase == Dead {
    } else if s.phase == Parked {
    } else {
    }
  }

  lemma FailMoves(s: State)
    ensures var t := FailTo(s);
      && t.over && t.fed == s.fed && t.late == s.late && (s.phase == Dead ==> t.phase == Dead)
      && t.dropped == (if HasPipe(s) then s.dropped + s.pipe.pending else s.dropped)
      && t.failParked == (s.failParked || s.phase == Parked)
  {
    hide Failed;
    if s.phase == Dead {
    } else if s.phase == Parked {
    } else {
    }
  }

  lemma FeedMoves(s: State, data: bytes)
    ensures var t := FeedTo(s, data);
      t.over == s.over && t.dropped == s.dropped && t.failParked == s.failParked && t.phase == s.phase
  {
    hide Pushed, Recorded;
    RecordedMoves(s, data);
    RecordedMoves(s, []);
  }

  lemma RecordedMoves(s: State, taken: bytes)
    ensures var t := Recorded(s, taken);
      t.over == s.over && t.dropped == s.dropped && t.failParked == s.failParked && t.phase == s.phase
  {
  }

  lemma DropsWhenDiscarding(s: State, step: Step)
    requires OrderInv(s)
    ensures |Apply(s, step).dropped| > 0 <==> |s.dropped| > 0 || Discards(s, step)
  {
    if step.ApplySignals? && s.phase == Starting && !s.pipe.failed {
      assert s.dropped == [] && s.read == [];
      NilLeft(s.pipe.pending);
      NilRight(s.pipe.pending);
    }
    hide FeedTo, FinishTo, FailTo, SignalsTo, ReadFrom, Pushed;
    match step {
      case Feed(data) => FeedMoves(s, data);
      case Finish => FinishMoves(s);
      case Fail => FailMoves(s);
      case ApplySignals => SignalsMove(s);
      case Read(capacity) => ReadMoves(s, capacity);
      case _ => OnlyMoves(s, step);
    }
  }

  lemma DiscardedBefore(body: bytes, steps: seq<Step>)
    requires |steps| > 0
    ensures var n := |steps| - 1;
      (exists k :: DiscardedAt(body, steps, k))
        == ((exists k :: DiscardedAt(body, steps[..n], k)) || Discards(Run(body, steps[..n]), steps[n]))
  {
    hide Run, Discards;
    var n := |steps| - 1;
    var before := steps[..n];
    assert forall k | 0 <= k < n :: before[..k] == steps[..k];
    if k: nat :| DiscardedAt(body, before, k) {
      assert DiscardedAt(body, steps, k);
    }
    if Discards(Run(body, before), steps[n]) {
      assert DiscardedAt(body, steps, n);
    }
    if k: nat :| DiscardedAt(body, steps, k) {
      assert k == n || DiscardedAt(body, before, k);
    }
  }

  /** Something was thrown away exactly if some step of the run did it. */
  lemma {:induction false} DroppedExactly(body: bytes, steps: seq<Step>)
    ensures |Run(body, steps).dropped| > 0 <==> exists k :: DiscardedAt(body, steps, k)
  {
    hide Apply, Discards, OrderInv, WakeInv, DiscardedAt;
    if |steps| == 0 {
      NoStepDiscards(body);
    } else {
      var n := |steps| - 1;
      DroppedExactly(body, steps[..n]);
      RunKeepsInv(body, steps[..n]);
      DropsWhenDiscarding(Run(body, steps[..n]), steps[n]);
      DiscardedBefore(body, steps);
    }
  }

  lemma NoStepDiscards(body: bytes)
    ensures !exists k :: DiscardedAt(body, [], k)
  {
  }

  ghost predicate FailedParked(body: bytes, steps: seq<Step>, k: nat) {
    k < |steps| && steps[k].Fail? && Run(body, steps[..k]).phase == Parked
  }

  lemma ParkingStep(s: State, step: Step)
    ensures Apply(s, step).failParked == (s.failParked || (step.Fail? && s.phase == Parked))
  {
    hide FeedTo, ReadFrom, FailTo, FinishTo, SignalsTo, Pushed, Failed;
    match step {
      case Feed(data) => FeedMoves(s, data);
      case Read(capacity) => ReadMoves(s, capacity);
      case Fail => FailMoves(s);
      case Finish => FinishMoves(s);
      case ApplySignals => SignalsMove(s);
      case _ => OnlyMoves(s, step);
    }
  }

  /** A failure that waits on the queued submit is one Dart asked for while it was queued. */
  lemma {:induction false} ParkedByFail(body: bytes, steps: seq<Step>)
    ensures Run(body, steps).failParked <==> exists k :: FailedParked(body, steps, k)
  {
    hide Apply;
    if |steps| > 0 {
      var n := |steps| - 1;
      var before := steps[..n];
      ParkedByFail(body, before);
      ParkingStep(Run(body, before), steps[n]);
      ParkedBefore(body, steps);
    }
  }

  lemma ParkedBefore(body: bytes, steps: seq<Step>)
    requires |steps| > 0
    ensures var n := |steps| - 1;
      (exists k :: FailedParked(body, steps, k))
        == ((exists k :: FailedParked(body, steps[..n], k)) || (steps[n].Fail? && Run(body, steps[..n]).phase == Parked))
  {
    hide Run;
    var n := |steps| - 1;
    var before := steps[..n];
    assert forall k | 0 <= k < n :: before[..k] == steps[..k];
    if k: nat :| FailedParked(body, before, k) {
      assert FailedParked(body, steps, k);
    }
    if steps[n].Fail? && Run(body, before).phase == Parked {
      assert FailedParked(body, steps, n);
    }
    if k: nat :| FailedParked(body, steps, k) {
      assert k == n || FailedParked(body, before, k);
    }
  }

  /** Everything Dart offered up to its first finish or fail. */
  function Offered(body: bytes, steps: seq<Step>): bytes
    decreases |steps|
  {
    if |steps| == 0 then body
    else if steps[0].Finish? || steps[0].Fail? then body
    else Offered(if steps[0].Feed? then body + steps[0].data else body, steps[1..])
  }

  predicate Ended(steps: seq<Step>) {
    exists i | 0 <= i < |steps| :: steps[i].Finish? || steps[i].Fail?
  }

  lemma {:induction false} OfferedSnoc(body: bytes, steps: seq<Step>, step: Step)
    ensures Offered(body, steps + [step]) == if Ended(steps) || !step.Feed? then Offered(body, steps)
                                             else Offered(body, steps) + step.data
    decreases |steps|
  {
    if |steps| == 0 {
      assert ([] + [step])[1..] == [];
    } else {
      assert (steps + [step])[1..] == steps[1..] + [step];
      if !(steps[0].Finish? || steps[0].Fail?) {
        OfferedSnoc(if steps[0].Feed? then body + steps[0].data else body, steps[1..], step);
        EndedLater(steps);
      }
    }
  }

  lemma EndedLater(steps: seq<Step>)
    requires |steps| > 0 && !(steps[0].Finish? || steps[0].Fail?)
    ensures Ended(steps) <==> Ended(steps[1..])
  {
    if Ended(steps[1..]) {
      var i :| 0 <= i < |steps[1..]| && (steps[1..][i].Finish? || steps[1..][i].Fail?);
      assert steps[i + 1] == steps[1..][i];
    }
    if Ended(steps) {
      var i :| 0 <= i < |steps| && (steps[i].Finish? || steps[i].Fail?);
      assert steps[1..][i - 1] == steps[i];
    }
  }

  lemma EndedSnoc(steps: seq<Step>, step: Step)
    ensures Ended(steps + [step]) <==> Ended(steps) || step.Finish? || step.Fail?
  {
    if Ended(steps) {
      var i :| 0 <= i < |steps| && (steps[i].Finish? || steps[i].Fail?);
      assert (steps + [step])[i] == steps[i];
    }
    assert (steps + [step])[|steps|] == step;
  }

  /** What the machine has taken in as Dart's bytes is what Dart offered. */
  lemma {:induction false} FedIsOffered(body: bytes, steps: seq<Step>)
    ensures var s := Run(body, steps); (s.over <==> Ended(steps)) && (s.phase != Dead ==> s.fed == Offered(body, steps))
  {
    if |steps| > 0 {
      var before, step := steps[..|steps| - 1], steps[|steps| - 1];
      FedIsOffered(body, before);
      RunKeepsInv(body, before);
      OfferedSnoc(body, before, step);
      EndedSnoc(before, step);
      assert steps == before + [step];
      var s := Run(body, before);
      hide Run, WakeInv, Ended, Offered;
      FedBy(s, step);
    }
  }

  lemma FedBy(s: State, step: Step)
    requires OrderInv(s)
    ensures var t := Apply(s, step);
      && (t.over <==> s.over || step.Finish? || step.Fail?)
      && (t.phase != Dead ==> s.phase != Dead && t.fed == if step.Feed? && !s.over then s.fed + step.data else s.fed)
      && (t.late != s.late ==> step.Feed? && s.over && |step.data| > 0)
  {
    hide FeedTo, ReadFrom, FailTo, FinishTo, SignalsTo, Pushed, Failed;
    match step {
      case Feed(data) => FedByFeed(s, data);
      case Read(capacity) => ReadMoves(s, capacity);
      case Fail => FailMoves(s);
      case Finish => FinishMoves(s);
      case ApplySignals => SignalsMove(s);
      case _ => OnlyMoves(s, step);
    }
  }

  lemma FedByFeed(s: State, data: bytes)
    requires OrderInv(s)
    ensures var t := FeedTo(s, data);
      && t.over == s.over && t.phase == s.phase
      && (s.phase != Dead && !s.over ==> t.fed == s.fed + data)
      && (s.over ==> t.fed == s.fed)
      && (t.late != s.late ==> s.over && |data| > 0)
  {
    hide Pushed;
    NilRight(s.late);
  }

  lemma {:induction false} NothingLate(body: bytes, steps: seq<Step>)
    requires StopsAtTheEnd(steps)
    ensures Run(body, steps).late == []
  {
    if |steps| > 0 {
      var before, step := steps[..|steps| - 1], steps[|steps| - 1];
      assert forall i, j | 0 <= i < j < |before| && (before[i].Finish? || before[i].Fail?) && before[j].Feed? :: |before[j].data| == 0;
      NothingLate(body, before);
      RunKeepsInv(body, before);
      FedIsOffered(body, before);
      FedBy(Run(body, before), step);
      if step.Feed? && Ended(before) {
        var i :| 0 <= i < |before| && (before[i].Finish? || before[i].Fail?);
        assert steps[i] == before[i];
      }
    }
  }

  /** So if Dart stops at the end, curl reads in order what Dart offered, and at its end of file it has read
      exactly that if and only if no failure threw bytes away. */
  lemma EndOfFileIsWholeBody(body: bytes, steps: seq<Step>)
    requires StopsAtTheEnd(steps) && Run(body, steps).phase != Dead
    ensures var s := Run(body, steps);
      && s.read <= Offered(body, steps)
      && (s.eof ==> (s.read == Offered(body, steps) <==> !exists k :: DiscardedAt(body, steps, k)))
  {
    ReadInOrder(body, steps);
    DroppedExactly(body, steps);
    FedIsOffered(body, steps);
    NothingLate(body, steps);
    NilRight(Run(body, steps).fed);
    hide Run, DiscardedAt;
  }

  /** Bytes offered after the end are kept exactly while the signal that ended the upload has not reached a
      pipe: on the queued submit they are appended, on a live task they are dropped. */
  lemma KeptLateExactlyWhileParked(body: bytes, steps: seq<Step>, data: bytes)
    requires Run(body, steps).over && |data| > 0
    ensures var s := Run(body, steps);
      var open := s.phase == Parked || (s.phase == Starting && !s.pipe.finished && !s.pipe.failed);
      FeedTo(s, data).late == s.late + data <==> open
  {
    RunKeepsInv(body, steps);
    var s := Run(body, steps);
    assert |s.late + data| > |s.late|;
  }

  /** One such run: an upload failed after it was finished looks complete to curl, because the failure empties
      the pipe between the callback's two looks at it. The request is then reported failed all the same. */
  lemma FailureAfterFinishTruncates(data: bytes)
    requires |data| > 0
    ensures var s := Run([], [StartTask, ApplySignals, Read(1), LookFailed, Feed(data), Finish, Fail, LookEof]);
      s.eof && s.read == [] && s.fed == data
  {
    hide Run;
    var steps := [StartTask, ApplySignals, Read(1), LookFailed];
    FoundNothingYet();
    RunThen([], steps, Feed(data));
    RunThen([], steps + [Feed(data)], Finish);
    RunThen([], steps + [Feed(data)] + [Finish], Fail);
    RunThen([], steps + [Feed(data)] + [Finish] + [Fail], LookEof);
    NilLeft(data);
    assert [StartTask, ApplySignals, Read(1), LookFailed, Feed(data), Finish, Fail, LookEof]
        == steps + [Feed(data)] + [Finish] + [Fail] + [LookEof];
  }

  lemma RunThen(body: bytes, steps: seq<Step>, step: Step)
    ensures Run(body, steps + [step]) == Apply(Run(body, steps), step)
  {
    assert (steps + [step])[..|steps|] == steps;
  }

  lemma FreshLive()
    ensures Run([], [StartTask] + [ApplySignals]) == Init([]).(phase := Live)
  {
    RunThen([], [], StartTask);
    RunThen([], [StartTask], ApplySignals);
    assert Run([], []) == Init([]);
    hide Run;
    assert [] + [StartTask] == [StartTask];
    NilLeft<byte>([]);
  }

  lemma FoundNothingYet()
    ensures Run([], [StartTask, ApplySignals, Read(1), LookFailed]) == Init([]).(phase := Live, reader := NotFailed)
  {
    FreshLive();
    var live := Init([]).(phase := Live);
    assert Apply(live, Read(1)) == live.(reader := FoundNothing);
    assert Apply(live.(reader := FoundNothing), LookFailed) == live.(reader := NotFailed);
    hide Run, Apply;
    RunThen([], [StartTask] + [ApplySignals], Read(1));
    RunThen([], [StartTask] + [ApplySignals] + [Read(1)], LookFailed);
    assert [StartTask, ApplySignals, Read(1), LookFailed] == [StartTask] + [ApplySignals] + [Read(1)] + [LookFailed];
  }

  /** No wake-up is lost: a transfer paused for want of bytes, while its pipe has bytes, the end of file or a
      failure, always has an upload op in the inbox or about to be pushed there, until shutdown begins. */
  lemma NoWakeUpIsLost(body: bytes, steps: seq<Step>)
    ensures var s := Run(body, steps);
      s.phase == Live && s.readPaused && Stirred(s) && !s.closing ==> s.owed + s.ops > 0
  {
    RunKeepsInv(body, steps);
  }
}
