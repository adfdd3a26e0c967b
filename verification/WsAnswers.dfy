/** What the session says of its own: the close it sends back, the close it sends for each violation, and the one
    frame it shows Dart when the peer's bytes did not end the session. Codes are read as the peer reads them. */
module WsAnswers {
  import opened Bytes
  import opened Seqs
  import opened WsFrame
  import opened WsMessages
  import opened WsReceive

  function CloseOf(r: Reply): seq<bytes> {
    if r.opcode == 8 then [r.payload] else []
  }

  /** The closes among the answers. */
  function Closes(replies: seq<Reply>): seq<bytes> {
    FlatMap(CloseOf, replies)
  }

  /** A close of ours was begun before the session ended by what the peer sent. */
  ghost predicate OursFirst(leftover: bytes, steps: seq<Step>, max: nat) {
    exists k :: OursAt(leftover, steps, k, max)
  }

  ghost predicate OursAt(leftover: bytes, steps: seq<Step>, k: nat, max: nat) {
    k < |steps| && steps[k].OurClose? && |Run(leftover, steps[..k], max).history.verdict| == 0
  }

  /** The same status code as the peer's, and nothing else; a close without a code is answered without one. */
  predicate Mirrors(sent: bytes, received: bytes) {
    if |received| < 2 then |sent| == 0
    else |sent| == 2 && FromBE(sent) == FromBE(received[..2])
  }

  /** One close that mirrors `received` has joined the answers, or none if a close of ours had been sent. */
  predicate AnswersClose(before: seq<Reply>, after: seq<Reply>, closeSent: bool, received: bytes) {
    if closeSent then after == before
    else |after| == |before| + 1 && after[..|before|] == before
         && after[|before|].opcode == 8 && Mirrors(after[|before|].payload, received)
  }

  /** The low 16 bits of a status code and as much of the text as fits in a control frame. */
  predicate Says(payload: bytes, code: nat, text: bytes) {
    && 2 <= |payload| <= 125 && FromBE(payload[..2]) == code % 65536
    && payload[2..] <= text && (|payload| < 125 ==> payload[2..] == text)
  }

  /** The frame at the front is data, in sequence, and makes its message too long. */
  predicate TooLong(tail: bytes, r: Reasm, max: nat) {
    FrameReady(tail) &&
    var f := FrontFrame(tail);
    f.opcode < 3 && (f.opcode == 0 <==> r.opcode != 0) && |r.buf| + |f.payload| > max
  }

  /** What is wrong with the frame at the front: what its header says, or how it breaks off or overfills a message. */
  function WhyBroken(tail: bytes, r: Reasm): string {
    if !FrameReady(tail) then if ParseHeader(tail).Bad? then ParseHeader(tail).text else ""
    else if FrontFrame(tail).opcode == 0 && r.opcode == 0 then "continuation frame with no message in progress"
    else if FrontFrame(tail).opcode != 0 && r.opcode != 0 then "new data frame while a message is still fragmented"
    else "message exceeds the configured maximum size"
  }

  // ----- One step -----

  lemma ClosesSnoc(replies: seq<Reply>, r: Reply)
    ensures Closes(replies + [r]) == Closes(replies) + if r.opcode == 8 then [r.payload] else []
  {
    FlatMapSnoc(CloseOf, replies, r);
  }

  lemma TwoBytes(a: byte, b: byte)
    ensures FromBE([a, b]) == 256 * a + b
  {
    assert [a, b][..1] == [a] && [a][..0] == [];
    assert FromBE([]) == 0 && FromBE([a]) == a;
  }

  lemma MirrorSays(p: bytes)
    ensures Mirrors(MirroredClose(p), p)
  {
  }

  lemma PayloadSays(code: nat, text: bytes)
    ensures Says(ClosePayload(code, text), code, text)
  {
    var p := ClosePayload(code, text);
    assert p[..2] == [code / 256 % 256, code % 256];
    TwoBytes(code / 256 % 256, code % 256);
    assert code % 65536 == code / 256 % 256 * 256 + code % 256;
    assert p[2..] == if |text| > 123 then text[..123] else text;
  }

  /** What has been sent back and shown when the verdict has fallen, `ours` saying that a close of ours came first. */
  ghost predicate Answered(s: State, ours: bool, max: nat) {
    var closes, n, m := Closes(s.replies), |s.replies|, |s.emitted|;
    if |s.history.verdict| == 0 then closes == []
    else match s.history.verdict[0]
      case PeerClose(p) =>
        && m > 0 && s.emitted[m - 1] == Emitted(8, p)
        && if ours then closes == []
           else n > 0 && closes == [s.replies[n - 1].payload] && s.replies[n - 1].opcode == 8 && Mirrors(closes[0], p)
      case Violation(_, text) =>
        && m > 0 && s.emitted[m - 1] == Emitted(255, TextBytes(text))
        && n > 0 && closes == [s.replies[n - 1].payload] && s.replies[n - 1].opcode == 8
        && text == WhyBroken(s.history.tail, s.reasm)
        && Says(closes[0], if TooLong(s.history.tail, s.reasm, max) then 1009 else 1002, TextBytes(text))
      case _ => false
  }

  ghost predicate CloseInv(s: State, ours: bool, max: nat) {
    Answered(s, ours, max) && (|s.history.verdict| == 0 && s.phase != Done ==> (s.closeSent <==> ours))
  }

  lemma FailureIsAnswered(s: State, code: nat, text: string, ours: bool, max: nat)
    requires s.consumed <= |s.rx| && |s.history.verdict| == 0 && Closes(s.replies) == []
    requires code == if TooLong(s.history.tail, s.reasm, max) then 1009 else 1002
    requires text == WhyBroken(s.history.tail, s.reasm)
    ensures CloseInv(Erase(FailProtocol(s, code, text)), ours, max)
  {
    ClosesSnoc(s.replies, Reply(CLOSE, ClosePayload(code, TextBytes(text))));
    PayloadSays(code, TextBytes(text));
    hide TooLong, WhyBroken, ClosePayload, TextBytes, Says;
  }

  lemma CloseIsAnswered(s: State, p: bytes, ours: bool, max: nat)
    requires s.consumed <= |s.rx| && |s.history.verdict| == 0 && Closes(s.replies) == [] && (s.closeSent <==> ours)
    ensures CloseInv(TakeClose(s, p), ours, max)
  {
    ClosesSnoc(s.replies, Reply(CLOSE, MirroredClose(p)));
    MirrorSays(p);
    hide MirroredClose, Mirrors;
  }

  /** Nothing but pongs is sent while the session stays open. */
  lemma StillOpen(s: State, t: State, ours: bool, max: nat)
    requires CloseInv(s, ours, max) && |s.history.verdict| == 0 && s.phase != Done
    requires |t.history.verdict| == 0 && Closes(t.replies) == [] && t.closeSent == s.closeSent
    ensures CloseInv(t, ours, max)
  {
  }

  lemma OpenMeans(s: State, ours: bool, max: nat)
    requires CloseInv(s, ours, max) && |s.history.verdict| == 0 && s.phase != Done
    ensures Closes(s.replies) == [] && (s.closeSent <==> ours)
  {
  }

  lemma ControlIsAnswered(s: State, data: bytes, ours: bool, max: nat)
    requires s.consumed <= |s.rx| && data == s.rx[s.consumed..] == s.history.tail && FrameReady(data)
    requires |s.history.verdict| == 0 && s.phase == Draining && CloseInv(s, ours, max)
    requires FrontFrame(data).opcode >= 8
    ensures CloseInv(TakeFrame(s, data, max), ours, max)
  {
    var f := FrontFrame(data);
    FrontIsLegal(data);
    OpenMeans(s, ours, max);
    var t := s.(consumed := s.consumed + FrontSize(data));
    hide FrameReady, FrontSize, FrontFrame, OnFrame, ClosePayload, TextBytes, CloseInv, FlatMap, MirroredClose, Closes;
    if f.opcode == PING {
      ClosesSnoc(s.replies, Reply(PONG, f.payload));
      StillOpen(s, TakeFrame(s, data, max), ours, max);
    } else if f.opcode == PONG {
      StillOpen(s, TakeFrame(s, data, max), ours, max);
    } else {
      CloseIsAnswered(t, f.payload, ours, max);
    }
  }

  /** Why a data frame ends the session, in numbers. */
  lemma DataVerdict(data: bytes, r: Reasm, max: nat)
    requires FrameReady(data) && FrontFrame(data).opcode < 8 && OnFrame(FrontFrame(data), r, max).Stop?
    ensures var e := OnFrame(FrontFrame(data), r, max).event;
      e.Violation? && e.text == WhyBroken(data, r) && e.code == if TooLong(data, r, max) then 1009 else 1002
  {
    FrontIsLegal(data);
    hide FrameReady, FrontFrame;
  }

  /** The effect of a data frame on what is sent, read off the code. */
  lemma DataTaken(s: State, data: bytes, max: nat)
    requires s.consumed <= |s.rx| && data == s.rx[s.consumed..] && FrameReady(data) && FrontFrame(data).opcode < 8
    ensures var t, step := s.(consumed := s.consumed + FrontSize(data)), TakeFrame(s, data, max);
      match OnFrame(FrontFrame(data), s.reasm, max)
      case Stop(e) => e.Violation? ==> t.consumed <= |t.rx| && step == Erase(FailProtocol(t, e.code, e.text))
      case Continue(_, _) =>
        step.replies == s.replies && step.history.verdict == s.history.verdict && step.closeSent == s.closeSent
  {
    hide FailProtocol, OnFrame, FrontFrame, ParseHeader;
  }

  lemma DataIsAnswered(s: State, data: bytes, ours: bool, max: nat)
    requires s.consumed <= |s.rx| && data == s.rx[s.consumed..] == s.history.tail && FrameReady(data)
    requires |s.history.verdict| == 0 && s.phase == Draining && CloseInv(s, ours, max)
    requires FrontFrame(data).opcode < 8
    ensures CloseInv(TakeFrame(s, data, max), ours, max)
  {
    OpenMeans(s, ours, max);
    DataTaken(s, data, max);
    if OnFrame(FrontFrame(data), s.reasm, max).Stop? {
      DataVerdict(data, s.reasm, max);
    }
    hide TakeFrame, FrameReady, FrontFrame, OnFrame, TooLong, WhyBroken, CloseInv, FlatMap, Closes, FailProtocol, Erase;
    match OnFrame(FrontFrame(data), s.reasm, max)
    case Stop(e) =>
      FailureIsAnswered(s.(consumed := s.consumed + FrontSize(data)), e.code, e.text, ours, max);
    case Continue(_, _) =>
      StillOpen(s, TakeFrame(s, data, max), ours, max);
  }

  lemma DrainingIsAnswered(s: State, ours: bool, max: nat)
    requires BufferInv(s) && |s.history.verdict| == 0 && s.phase == Draining && CloseInv(s, ours, max)
    ensures CloseInv(DrainTurn(s, max), ours, max)
  {
    var data := s.rx[s.consumed..];
    if s.credits <= 0 {
    } else if ParseHeader(data).Bad? {
      FailureIsAnswered(s, PROTOCOL_ERROR, ParseHeader(data).text, ours, max);
    } else if FrameReady(data) {
      if FrontFrame(data).opcode >= 8 {
        ControlIsAnswered(s, data, ours, max);
      } else {
        DataIsAnswered(s, data, ours, max);
      }
    }
  }

  lemma OthersAnswerNothing(s: State, step: Step, ours: bool, max: nat)
    requires BufferInv(s) && PhaseInv(s) && CloseInv(s, ours, max) && !step.DrainOne?
    ensures var first := step.OurClose? && |s.history.verdict| == 0;
      CloseInv(Apply(s, step, max), ours || first, max)
  {
    hide FlatMap, ClosePayload, TextBytes, Mirrors, Says, TooLong, WhyBroken;
    var t := Apply(s, step, max);
    assert t.replies == s.replies && t.history.verdict == s.history.verdict && t.reasm == s.reasm;
    if |s.history.verdict| == 1 {
      assert t.emitted == s.emitted && t.history.tail == s.history.tail;
    }
  }

  /** One step, `first` saying that it is a close of ours begun before the verdict. */
  lemma StepIsAnswered(s: State, step: Step, ours: bool, max: nat)
    requires BufferInv(s) && PhaseInv(s) && CloseInv(s, ours, max)
    ensures var first := step.OurClose? && |s.history.verdict| == 0;
      CloseInv(Apply(s, step, max), ours || first, max)
  {
    if step.DrainOne? {
      if s.phase == Draining {
        DrainingIsAnswered(s, ours, max);
      }
    } else {
      OthersAnswerNothing(s, step, ours, max);
    }
  }

  // ----- Over every run -----

  lemma OneMoreStep(leftover: bytes, steps: seq<Step>, step: Step, max: nat)
    ensures OursFirst(leftover, steps + [step], max) <==>
      (OursFirst(leftover, steps, max) || (step.OurClose? && |Run(leftover, steps, max).history.verdict| == 0))
  {
    var more := steps + [step];
    hide Run;
    assert more[..|steps|] == steps;
    assert OursAt(leftover, more, |steps|, max) <==> (step.OurClose? && |Run(leftover, steps, max).history.verdict| == 0);
    forall k: nat | k < |steps|
      ensures OursAt(leftover, more, k, max) <==> OursAt(leftover, steps, k, max)
    {
      assert more[..k] == steps[..k];
    }
  }

  lemma {:induction false} RunIsAnswered(leftover: bytes, steps: seq<Step>, max: nat)
    ensures CloseInv(Run(leftover, steps, max), OursFirst(leftover, steps, max), max)
  {
    if |steps| > 0 {
      var before, step := steps[..|steps| - 1], steps[|steps| - 1];
      var s := Run(leftover, before, max);
      RunIsAnswered(leftover, before, max);
      RunKeepsInv(leftover, before, max);
      StepIsAnswered(s, step, OursFirst(leftover, before, max), max);
      OneMoreStep(leftover, before, step, max);
      assert steps == before + [step];
    }
  }

  /** The peer's close is shown to Dart and answered by one close with the same two code bytes, unless ours had
      been begun first; a violation is told to the peer by one close that says 1009 for a message that grows too
      long and 1002 for everything else, with its text; and there is no other close. */
  lemma ClosesAreAnswered(leftover: bytes, steps: seq<Step>, max: nat)
    ensures Answered(Run(leftover, steps, max), OursFirst(leftover, steps, max), max)
  {
    RunIsAnswered(leftover, steps, max);
  }

  /** A close of ours was begun within the first `k` steps. */
  ghost predicate Begun(steps: seq<Step>, k: nat) {
    exists j :: 0 <= j < k && j < |steps| && steps[j].OurClose?
  }

  /** Step `k` left the loop with the frame `f`: an error, or a close with our own code once ours was begun. */
  ghost predicate EndedAt(steps: seq<Step>, k: nat, f: Emitted) {
    k < |steps| &&
    match steps[k]
    case FlushFails(text) => f == Emitted(255, text)
    case ReadFails(text) => f == Emitted(255, text)
    case DeadlinePasses(code, reason) => Begun(steps, k) && f.opcode == 8 && Says(f.payload, code, reason)
    case PeerGone(code, reason, text) =>
      if Begun(steps, k) then f.opcode == 8 && Says(f.payload, code, reason) else f == Emitted(255, text)
    case _ => false
  }

  ghost predicate EndedBy(steps: seq<Step>, f: Emitted) {
    exists k: nat :: EndedAt(steps, k, f)
  }

  /** What the loop's own ending says of the steps taken so far. */
  ghost predicate EndInv(s: State, steps: seq<Step>) {
    && (s.phase != Done ==> (s.closeSent <==> Begun(steps, |steps|)))
    && (|s.history.ending| == 1 ==> EndedBy(steps, s.history.ending[0]))
  }

  lemma StepsGrow(steps: seq<Step>, step: Step)
    ensures var more := steps + [step];
      && (forall k: nat, f | EndedAt(steps, k, f) :: EndedAt(more, k, f))
      && (forall k: nat | k <= |steps| :: Begun(more, k) <==> Begun(steps, k))
      && (Begun(more, |more|) <==> Begun(steps, |steps|) || step.OurClose?)
  {
    hide Says;
    var more := steps + [step];
    assert more[|steps|] == step;
    forall k: nat | k <= |steps|
      ensures Begun(more, k) <==> Begun(steps, k)
    {
      assert forall j | 0 <= j < k :: more[j] == steps[j];
    }
  }

  /** The drain never ends the loop by itself, and leaves the close flag alone unless it ends it for the peer. */
  lemma DrainEndsNothing(s: State, max: nat)
    requires s.consumed <= |s.rx|
    ensures var t := DrainTurn(s, max);
      t.history.ending == s.history.ending && (t.phase != Done ==> t.closeSent == s.closeSent)
  {
    hide ParseHeader, FrontFrame, OnFrame, ClosePayload, TextBytes, FrameReady;
  }

  lemma EndsNow(s: State, steps: seq<Step>, step: Step, max: nat)
    requires BufferInv(s) && PhaseInv(s) && EndInv(s, steps) && !step.DrainOne?
    ensures var t, more := Apply(s, step, max), steps + [step];
      && (t.phase != Done ==> s.phase != Done && (t.closeSent <==> s.closeSent || step.OurClose?))
      && (t.history.ending == s.history.ending
          || (|s.history.ending| == 0 && |t.history.ending| == 1 && EndedAt(more, |steps|, t.history.ending[0])))
  {
    StepsGrow(steps, step);
    PayloadSaysOf(step);
    hide ClosePayload, Says, TextBytes, FlatMap, EndedBy;
  }

  lemma PayloadSaysOf(step: Step)
    ensures step.DeadlinePasses? || step.PeerGone? ==> Says(ClosePayload(step.code, step.reason), step.code, step.reason)
  {
    if step.DeadlinePasses? || step.PeerGone? {
      PayloadSays(step.code, step.reason);
    }
  }

  lemma StepEnds(s: State, steps: seq<Step>, step: Step, max: nat)
    requires BufferInv(s) && PhaseInv(s) && EndInv(s, steps)
    ensures EndInv(Apply(s, step, max), steps + [step])
  {
    StepsGrow(steps, step);
    if step.DrainOne? {
      DrainEndsNothing(s, max);
    } else {
      EndsNow(s, steps, step, max);
    }
    hide EndedAt, Begun, DrainTurn;
  }

  lemma {:induction false} RunEnds(leftover: bytes, steps: seq<Step>, max: nat)
    ensures EndInv(Run(leftover, steps, max), steps)
  {
    if |steps| > 0 {
      var before, step := steps[..|steps| - 1], steps[|steps| - 1];
      RunEnds(leftover, before, max);
      RunKeepsInv(leftover, before, max);
      StepEnds(Run(leftover, before, max), before, step, max);
      assert steps == before + [step];
    }
  }

  /** A session that the peer's bytes did not end was ended by one step: a failed write or read, the deadline of a
      close of ours, or a dropped connection. Dart is shown its text, or the code and reason of our own close
      if one was begun. */
  lemma EndingsAreExplained(leftover: bytes, steps: seq<Step>, max: nat)
    ensures var s := Run(leftover, steps, max);
      |s.history.ending| <= 1 && (|s.history.ending| == 1 ==> EndedBy(steps, s.history.ending[0]))
  {
    RunEnds(leftover, steps, max);
    RunKeepsInv(leftover, steps, max);
  }
}
