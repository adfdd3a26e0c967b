/** How the receive loop goes round: what one pass does when nothing ends the session, when the loop is left, and what
    its flags and records say of the calls made. */
module WsLoop {
  import opened Bytes
  import opened Seqs
  import opened WsFrame
  import opened WsMessages
  import opened WsReceive
  import opened WsAnswers

  lemma RunThen(leftover: bytes, steps: seq<Step>, step: Step, max: nat)
    ensures Run(leftover, steps + [step], max) == Apply(Run(leftover, steps, max), step, max)
  {
    assert (steps + [step])[..|steps|] == steps;
  }

  // ----- Flags and records -----

  ghost predicate ShutdownCalled(steps: seq<Step>) {
    exists i :: 0 <= i < |steps| && steps[i].Shutdown?
  }

  function GrantedBy(steps: seq<Step>): nat {
    if |steps| == 0 then 0
    else GrantedBy(steps[..|steps| - 1]) + if steps[|steps| - 1].Grant? then steps[|steps| - 1].count else 0
  }

  /** What the socket gives in one step: a read of 1 to 16384 bytes, made while the loop reads and has credit. */
  function ReadNow(s: State, step: Step): bytes {
    if step.Read? && s.phase == Reading && s.credits > 0 && 1 <= |step.chunk| <= 16384 then step.chunk else []
  }

  /** What the socket has given. */
  function ReadBy(leftover: bytes, steps: seq<Step>, max: nat): bytes {
    if |steps| == 0 then [] else
    var before, last := steps[..|steps| - 1], steps[|steps| - 1];
    var s := Run(leftover, before, max);
    ReadBy(leftover, before, max)
      + ReadNow(s, last)
  }

  predicate LastIs(emitted: seq<Emitted>, opcode: nat) {
    |emitted| > 0 && emitted[|emitted| - 1].opcode == opcode
  }

  /** Everything received, everything granted; stopped by a shutdown or by an error shown, closed by a close shown, and
      no data may be sent once a close of ours was begun or sent. */
  ghost predicate FlagInv(s: State, shutdown: bool, begun: bool, granted: nat, input: bytes) {
    && (s.history.shutdown <==> shutdown) && s.history.granted == granted && s.history.input == input
    && (s.stopping <==> shutdown || LastIs(s.emitted, 255))
    && (s.closeReceived <==> LastIs(s.emitted, 8))
    && (s.closeSent <==> begun || |Closes(s.replies)| > 0)
  }

  /** Frames that are not terminal are messages. */
  lemma OpenIsQuiet(s: State, max: nat)
    requires Inv(s, max) && s.phase != Done
    ensures !LastIs(s.emitted, 255) && !LastIs(s.emitted, 8)
  {
    hide HistoryInv, BufferInv, AccountInv, FlatMap;
    MessagesThenTerminal(s, max);
  }

  lemma ClosesGrow(replies: seq<Reply>, r: Reply)
    ensures |Closes(replies + [r])| == |Closes(replies)| + if r.opcode == 8 then 1 else 0
  {
    ClosesSnoc(replies, r);
  }

  lemma FailureFlags(s: State, code: nat, text: string, shutdown: bool, begun: bool, granted: nat, input: bytes)
    requires s.consumed <= |s.rx| && FlagInv(s, shutdown, begun, granted, input) && !LastIs(s.emitted, 8)
    ensures FlagInv(Erase(FailProtocol(s, code, text)), shutdown, begun, granted, input)
  {
    ClosesGrow(s.replies, Reply(CLOSE, ClosePayload(code, TextBytes(text))));
    hide ClosePayload, TextBytes, Closes;
  }

  lemma CloseFlags(s: State, p: bytes, shutdown: bool, begun: bool, granted: nat, input: bytes)
    requires s.consumed <= |s.rx| && FlagInv(s, shutdown, begun, granted, input) && !LastIs(s.emitted, 255)
    ensures FlagInv(TakeClose(s, p), shutdown, begun, granted, input)
  {
    ClosesGrow(s.replies, Reply(CLOSE, MirroredClose(p)));
    hide MirroredClose, Closes;
  }

  predicate FlagsAlike(s: State, t: State) {
    && t.history.shutdown == s.history.shutdown && t.history.granted == s.history.granted && t.history.input == s.history.input
    && t.stopping == s.stopping && t.closeReceived == s.closeReceived && t.closeSent == s.closeSent
  }

  /** What may follow an open state without changing what the flags say. */
  lemma StaysOpen(s: State, t: State, max: nat, shutdown: bool, begun: bool, granted: nat, input: bytes)
    requires FlagInv(s, shutdown, begun, granted, input)
    requires Inv(s, max) && s.phase != Done && Inv(t, max) && t.phase != Done
    requires FlagsAlike(s, t)
    requires |Closes(t.replies)| == |Closes(s.replies)|
    ensures FlagInv(t, shutdown, begun, granted, input)
  {
    OpenIsQuiet(s, max);
    OpenIsQuiet(t, max);
    hide Inv, Closes;
  }

  predicate PongAtMost(s: State, t: State) {
    t.replies == s.replies || (|t.replies| > 0 && t.replies == s.replies + [t.replies[|t.replies| - 1]]
                               && t.replies[|t.replies| - 1].opcode == PONG)
  }

  lemma ControlLeavesFlags(s: State, data: bytes, max: nat)
    requires s.consumed <= |s.rx| && data == s.rx[s.consumed..] && FrameReady(data) && FrontFrame(data).opcode >= 8
    ensures var t := TakeFrame(s, data, max); t.phase != Done ==> FlagsAlike(s, t) && PongAtMost(s, t)
  {
    FrontIsLegal(data);
    TakesOpcode(FrontFrame(data));
    if FrontFrame(data).opcode == CLOSE {
      ClosesDone(s.(consumed := s.consumed + FrontSize(data)), FrontFrame(data).payload);
    }
    hide FrameReady, FrontFrame, FrontSize, FrontForm, TakeClose, OnFrame, FailProtocol;
  }

  lemma DataLeavesFlags(s: State, data: bytes, max: nat)
    requires s.consumed <= |s.rx| && data == s.rx[s.consumed..] && FrameReady(data) && FrontFrame(data).opcode < 8
    ensures var t := TakeFrame(s, data, max); t.phase != Done ==> FlagsAlike(s, t) && PongAtMost(s, t)
  {
    DataTaken(s, data, max);
    if OnFrame(FrontFrame(data), s.reasm, max).Stop? {
      DataVerdict(data, s.reasm, max);
      var e := OnFrame(FrontFrame(data), s.reasm, max).event;
      FailsDone(s.(consumed := s.consumed + FrontSize(data)), e.code, e.text);
    }
    hide FrameReady, FrontFrame, FrontSize, FrontForm, OnFrame, FailProtocol;
  }

  lemma TakingLeavesFlags(s: State, data: bytes, max: nat)
    requires s.consumed <= |s.rx| && data == s.rx[s.consumed..] && FrameReady(data) && s.phase == Draining
    ensures var t := TakeFrame(s, data, max); t.phase != Done ==> FlagsAlike(s, t) && PongAtMost(s, t)
  {
    hide TakeFrame, FrameReady, FrontFrame;
    if FrontFrame(data).opcode >= 8 {
      ControlLeavesFlags(s, data, max);
    } else {
      DataLeavesFlags(s, data, max);
    }
  }

  lemma TakesOpcode(f: Frame)
    requires Legal(f)
    ensures f.opcode == PING || f.opcode == PONG || f.opcode == CLOSE || f.opcode < 8
  {
  }

  lemma ClosesDone(s: State, p: bytes)
    requires s.consumed <= |s.rx|
    ensures TakeClose(s, p).phase == Done
  {
  }

  lemma FailsDone(s: State, code: nat, text: string)
    requires s.consumed <= |s.rx|
    ensures FailProtocol(s, code, text).consumed <= |FailProtocol(s, code, text).rx|
    ensures Erase(FailProtocol(s, code, text)).phase == Done
  {
    hide ClosePayload, TextBytes;
  }

  /** The effect on the flags of a turn that goes on, read off the code. */
  lemma TurnLeavesFlags(s: State, max: nat)
    requires s.consumed <= |s.rx| && s.phase == Draining
    ensures var t := DrainTurn(s, max); t.phase != Done ==> FlagsAlike(s, t) && PongAtMost(s, t)
  {
    var data := s.rx[s.consumed..];
    if FrameReady(data) {
      TakingLeavesFlags(s, data, max);
    }
    hide TakeFrame, FailProtocol, FrameReady, ParseHeader;
    match ParseHeader(data)
    case Bad(text) => FailsDone(s, PROTOCOL_ERROR, text);
    case _ =>
  }

  lemma ControlTurn(s: State, data: bytes, max: nat, shutdown: bool, begun: bool, granted: nat, input: bytes)
    requires s.consumed <= |s.rx| && data == s.rx[s.consumed..] && FrameReady(data) && s.phase == Draining
    requires FlagInv(s, shutdown, begun, granted, input) && !LastIs(s.emitted, 255) && !LastIs(s.emitted, 8)
    requires TakeFrame(s, data, max).phase == Done
    ensures FlagInv(TakeFrame(s, data, max), shutdown, begun, granted, input)
  {
    var f := FrontFrame(data);
    FrontIsLegal(data);
    var t := s.(consumed := s.consumed + FrontSize(data));
    hide FrameReady, FrontSize, FrontFrame, ClosePayload, TextBytes, FlagInv, MirroredClose, LastIs, FailProtocol, TakeClose;
    SameFlags(s, t, shutdown, begun, granted, input);
    if f.opcode == CLOSE {
      CloseFlags(t, f.payload, shutdown, begun, granted, input);
    } else if f.opcode < 8 {
      match OnFrame(f, s.reasm, max)
      case Stop(e) => FailureFlags(t, e.code, e.text, shutdown, begun, granted, input);
      case Continue(_, _) =>
    }
  }

  lemma SameFlags(s: State, t: State, shutdown: bool, begun: bool, granted: nat, input: bytes)
    requires FlagInv(s, shutdown, begun, granted, input) && t == s.(consumed := t.consumed)
    ensures FlagInv(t, shutdown, begun, granted, input)
  {
  }

  lemma EndTurn(s: State, max: nat, shutdown: bool, begun: bool, granted: nat, input: bytes)
    requires Inv(s, max) && s.phase == Draining && FlagInv(s, shutdown, begun, granted, input)
    requires DrainTurn(s, max).phase == Done
    ensures FlagInv(DrainTurn(s, max), shutdown, begun, granted, input)
  {
    var data := s.rx[s.consumed..];
    OpenIsQuiet(s, max);
    hide Inv, FlagInv, TakeFrame, FailProtocol, FrameReady, LastIs;
    if s.credits <= 0 {
      DrainedFlags(s, shutdown, begun, granted, input);
    } else {
      match ParseHeader(data)
      case NeedMore => DrainedFlags(s, shutdown, begun, granted, input);
      case Bad(text) => FailureFlags(s, PROTOCOL_ERROR, text, shutdown, begun, granted, input);
      case Head(_, _, _, _) =>
        if FrameReady(data) {
          ControlTurn(s, data, max, shutdown, begun, granted, input);
        } else {
          DrainedFlags(s, shutdown, begun, granted, input);
        }
    }
  }

  lemma DrainedFlags(s: State, shutdown: bool, begun: bool, granted: nat, input: bytes)
    requires s.consumed <= |s.rx| && FlagInv(s, shutdown, begun, granted, input)
    ensures FlagInv(EndDrain(s), shutdown, begun, granted, input)
  {
  }

  lemma DrainFlags(s: State, max: nat, shutdown: bool, begun: bool, granted: nat, input: bytes)
    requires Inv(s, max) && s.phase == Draining && FlagInv(s, shutdown, begun, granted, input)
    ensures FlagInv(DrainTurn(s, max), shutdown, begun, granted, input)
  {
    var t := DrainTurn(s, max);
    assert s.consumed <= |s.rx|;
    DrainKeepsInv(s, max);
    hide Inv, FlagInv, DrainTurn;
    if t.phase == Done {
      EndTurn(s, max, shutdown, begun, granted, input);
    } else {
      TurnLeavesFlags(s, max);
      if t.replies != s.replies {
        ClosesGrow(s.replies, t.replies[|t.replies| - 1]);
      }
      StaysOpen(s, t, max, shutdown, begun, granted, input);
    }
  }

  lemma EndingFlags(s: State, step: Step, max: nat, shutdown: bool, begun: bool, granted: nat, input: bytes)
    requires Inv(s, max) && FlagInv(s, shutdown, begun, granted, input)
    requires step.FlushFails? || step.DeadlinePasses? || step.ReadFails? || step.PeerGone?
    ensures FlagInv(Apply(s, step, max), shutdown, begun, granted, input)
  {
    if s.phase != Done {
      OpenIsQuiet(s, max);
    }
    hide Inv, Closes, ClosePayload;
    match step {
      case FlushFails(_) =>
      case DeadlinePasses(_, _) =>
      case ReadFails(_) =>
      case PeerGone(_, _, _) =>
    }
  }

  lemma OtherFlags(s: State, step: Step, max: nat, shutdown: bool, begun: bool, granted: nat, input: bytes)
    requires s.consumed <= |s.rx| && FlagInv(s, shutdown, begun, granted, input)
    requires Quiet(step) || step.Read?
    ensures FlagInv(Apply(s, step, max), shutdown || step.Shutdown?, begun || step.OurClose?,
                    granted + (if step.Grant? then step.count else 0), input + ReadNow(s, step))
  {
    NilRight(input);
    hide Closes;
    match step {
      case Read(_) =>
      case _ =>
    }
  }

  lemma StepFlags(s: State, step: Step, max: nat, shutdown: bool, begun: bool, granted: nat, input: bytes)
    requires Inv(s, max) && FlagInv(s, shutdown, begun, granted, input)
    ensures FlagInv(Apply(s, step, max), shutdown || step.Shutdown?, begun || step.OurClose?,
                    granted + (if step.Grant? then step.count else 0), input + ReadNow(s, step))
  {
    NilRight(input);
    assert s.consumed <= |s.rx|;
    hide Inv, FlagInv, DrainTurn;
    if step.DrainOne? {
      if s.phase == Draining {
        DrainFlags(s, max, shutdown, begun, granted, input);
      }
    } else if Quiet(step) || step.Read? {
      OtherFlags(s, step, max, shutdown, begun, granted, input);
    } else {
      EndingFlags(s, step, max, shutdown, begun, granted, input);
    }
  }

  lemma AtFirst(leftover: bytes)
    ensures FlagInv(Init(leftover), ShutdownCalled([]), Begun([], 0), 0, leftover)
  {
  }

  lemma {:induction false} RunFlags(leftover: bytes, steps: seq<Step>, max: nat)
    ensures FlagInv(Run(leftover, steps, max), ShutdownCalled(steps), Begun(steps, |steps|), GrantedBy(steps),
                    leftover + ReadBy(leftover, steps, max))
  {
    hide FlagInv, Inv, ShutdownCalled, Begun, Apply, Init, ReadNow;
    if |steps| == 0 {
      AtFirst(leftover);
      NilRight(leftover);
    } else {
      var before, step := steps[..|steps| - 1], steps[|steps| - 1];
      var s := Run(leftover, before, max);
      RunFlags(leftover, before, max);
      RunKeepsInv(leftover, before, max);
      StepFlags(s, step, max, ShutdownCalled(before), Begun(before, |before|), GrantedBy(before), leftover + ReadBy(leftover, before, max));
      CallsGrow(before, step);
      assert steps == before + [step];
      Assoc(leftover, ReadBy(leftover, before, max), ReadNow(s, step));
    }
  }

  lemma CallsGrow(before: seq<Step>, step: Step)
    ensures ShutdownCalled(before + [step]) <==> ShutdownCalled(before) || step.Shutdown?
    ensures Begun(before + [step], |before| + 1) <==> Begun(before, |before|) || step.OurClose?
  {
    var steps := before + [step];
    assert steps[|before|] == step && forall i | 0 <= i < |before| :: steps[i] == before[i];
  }

  /** Over every run: the input is what came with the handshake and what the socket gave; the credit left is 16 and what
      was granted, less the frames shown; the session stops when it was shut down or an error was shown, has its close
      when one was shown, and refuses data once a close of ours was begun or sent. */
  lemma FlagsTellTheCalls(leftover: bytes, steps: seq<Step>, max: nat)
    ensures var s := Run(leftover, steps, max);
      && s.history.input == leftover + ReadBy(leftover, steps, max)
      && s.credits == 16 + GrantedBy(steps) - |s.emitted|
      && (s.stopping <==> ShutdownCalled(steps) || LastIs(s.emitted, 255))
      && (s.closeReceived <==> LastIs(s.emitted, 8))
      && (s.closeSent <==> Begun(steps, |steps|) || |Closes(s.replies)| > 0)
  {
    RunFlags(leftover, steps, max);
    RunKeepsInv(leftover, steps, max);
    hide Run, FlatMap, HistoryInv, BufferInv, PhaseInv;
  }

  /** So the loop is never left without a terminal frame unless Dart asked for it. */
  lemma LeftOnlyWhenAsked(leftover: bytes, steps: seq<Step>, max: nat)
    requires Run(leftover, steps, max).phase == Done && !ShutdownCalled(steps)
    ensures var s := Run(leftover, steps, max); LastIs(s.emitted, 255) || LastIs(s.emitted, 8)
  {
    RunFlags(leftover, steps, max);
    EmittedFramesAreWellFormed(leftover, steps, max);
    hide Run;
  }

  // ----- One pass -----

  /** A pass up to the read: the test, the servicing, the drain. */
  function Drained(s: State, max: nat): State
    requires s.consumed <= |s.rx|
  {
    DrainAll(Apply(Apply(s, TestLoop, max), BeginDrain, max), max)
  }


  /** Where a turn of the drain leaves the loop: still draining, ended by the peer's bytes, or at the end of the drain. */
  predicate Turned(s: State, t: State) {
    || (t.phase == Draining && |t.history.verdict| == 0)
    || (t.phase == Done && |t.history.verdict| == 1)
    || (t.phase == (if s.stopping then Done else Reading) && |t.history.verdict| == 0 && t.stopping == s.stopping)
  }

  lemma TakingTurns(s: State, data: bytes, max: nat)
    requires s.consumed <= |s.rx| && data == s.rx[s.consumed..] && FrameReady(data) && s.phase == Draining && |s.history.verdict| == 0
    ensures Turned(s, TakeFrame(s, data, max))
  {
    FrontIsLegal(data);
    TakesOpcode(FrontFrame(data));
    if FrontFrame(data).opcode < 8 && OnFrame(FrontFrame(data), s.reasm, max).Stop? {
      DataVerdict(data, s.reasm, max);
    }
    hide FrameReady, FrontFrame, FrontSize, FrontForm, OnFrame, ClosePayload, TextBytes, MirroredClose;
  }

  lemma TurnTurns(s: State, max: nat)
    requires s.consumed <= |s.rx| && s.phase == Draining && |s.history.verdict| == 0
    ensures Turned(s, DrainTurn(s, max))
  {
    var data := s.rx[s.consumed..];
    if FrameReady(data) {
      TakingTurns(s, data, max);
    }
    hide TakeFrame, FrameReady, ParseHeader, ClosePayload, TextBytes;
  }

  /** The drain ends with the session, or with the loop about to read, or left because it was to stop. */
  lemma {:induction false} DrainTurnsOut(s: State, max: nat)
    requires s.consumed <= |s.rx| && s.phase == Draining && |s.history.verdict| == 0
    ensures var t := DrainAll(s, max);
      && (|t.history.verdict| == 0 ==> t.phase == if s.stopping then Done else Reading)
      && (|t.history.verdict| == 1 ==> t.phase == Done) && |t.history.verdict| <= 1
    decreases |s.rx| - s.consumed
  {
    var t := DrainTurn(s, max);
    TurnTurns(s, max);
    TurnLeavesFlags(s, max);
    DrainTurnAdvances(s, max);
    DrainAllOnce(s, max);
    hide DrainTurn, DrainAll;
    if t.phase == Draining {
      DrainTurnsOut(t, max);
    }
  }

  /** From every reachable state at the top of the loop: it is left if it was to stop, and else it drains and goes on to
      read, unless the peer's bytes end the session. */
  lemma OnePass(leftover: bytes, steps: seq<Step>, max: nat)
    requires Run(leftover, steps, max).phase == LoopTest
    ensures var s := Run(leftover, steps, max);
      if s.stopping then Apply(s, TestLoop, max) == s.(phase := Done)
      else Drained(s, max).phase == if |Drained(s, max).history.verdict| == 0 then Reading else Done
  {
    var s := Run(leftover, steps, max);
    RunKeepsInv(leftover, steps, max);
    hide Run, DrainAll, HistoryInv, AccountInv;
    if !s.stopping {
      DrainTurnsOut(Apply(Apply(s, TestLoop, max), BeginDrain, max), max);
    }
  }

  /** In every state about to read: without credit nothing is read and nothing can end the session, the loop goes round;
      with credit a read of 1 to 16384 bytes joins the unread bytes, and it goes round too. */
  lemma ReadsOnlyWithCredit(s: State, step: Step, max: nat)
    requires s.consumed <= |s.rx| && s.phase == Reading
    requires step.SkipRead? || step.ReadAgain? || step.Read? || step.ReadFails? || step.PeerGone?
    ensures var t := Apply(s, step, max);
      && (step.SkipRead? ==> t == if s.credits <= 0 then s.(phase := LoopTest) else s)
      && (step.ReadAgain? ==> t == if s.credits > 0 then s.(phase := LoopTest) else s)
      && (step.Read? && s.credits > 0 && 1 <= |step.chunk| <= 16384 ==>
            t.phase == LoopTest && t.rx == s.rx + step.chunk && t.history.tail == s.history.tail + step.chunk)
      && (step.Read? && (s.credits <= 0 || |step.chunk| == 0 || |step.chunk| > 16384) ==> t == s)
      && ((step.ReadFails? || step.PeerGone?) && s.credits <= 0 ==> t == s)
  {
    hide EndWith, EndWithError, ClosePayload;
  }

  /** A failed write, the deadline of a close of ours, a failed read and a dropped connection end the session at once,
      with the one frame that `EndedAt` describes. */
  lemma EndingsTakeEffect(leftover: bytes, steps: seq<Step>, step: Step, max: nat)
    requires var s := Run(leftover, steps, max);
      || (s.phase == Servicing && (step.FlushFails? || (step.DeadlinePasses? && Begun(steps, |steps|))))
      || (s.phase == Reading && s.credits > 0 && (step.ReadFails? || step.PeerGone?))
    ensures var s, t := Run(leftover, steps, max), Run(leftover, steps + [step], max);
      && t.phase == Done && |t.emitted| == |s.emitted| + 1 && t.emitted[..|s.emitted|] == s.emitted
      && EndedAt(steps + [step], |steps|, t.emitted[|s.emitted|])
  {
    var s := Run(leftover, steps, max);
    RunThen(leftover, steps, step, max);
    RunKeepsInv(leftover, steps, max);
    RunEnds(leftover, steps, max);
    EndsNow(s, steps, step, max);
    hide Run, Begun, EndedAt, ClosePayload, HistoryInv, AccountInv;
  }
}
