/** The receive thread of a WebSocket session as a machine of atomic steps, interleaved in any
    order with credit grants, closes and shutdowns from the Dart thread and with every outcome the
    socket can have. Every run shows Dart a prefix of the one-shot reading of the peer's bytes. */
module WsReceive {
  import opened Bytes
  import opened Seqs
  import opened WsFrame
  import opened WsMessages

  const INITIAL_CREDITS := 16
  const MAX_CLOSE_REASON := 123
  const RECV_CHUNK := 16384

  /** A frame posted to Dart. */
  datatype Emitted = Emitted(opcode: nat, payload: bytes)

  /** A call of `send` made by the receive thread. */
  datatype Reply = Reply(opcode: nat, payload: bytes)

  datatype Phase = LoopTest | Servicing | Draining | Reading | Done

  datatype State = State(
    rx: bytes,
    consumed: nat,
    reasm: Reasm,
    credits: int,
    closeSent: bool,
    closeReceived: bool,
    stopping: bool,
    phase: Phase,
    emitted: seq<Emitted>,
    replies: seq<Reply>,
    history: History)

  /** What has happened, for stating properties only: no step reads it.
      `tail` is the input that was unread when `verdict` fell, or still is unread. */
  datatype History = History(
    input: bytes,
    frames: seq<Frame>,
    forms: seq<LenForm>,
    tail: bytes,
    verdict: seq<Event>,
    ending: seq<Emitted>,
    granted: nat,
    shutdown: bool)

  datatype Step =
    // The Dart thread.
    | Grant(count: nat)
    | OurClose
    | Shutdown
    // The receive thread, one step per atomic action of the loop.
    | TestLoop
    | FlushFails(text: bytes)
    | DeadlinePasses(code: nat, reason: bytes)
    | BeginDrain
    | DrainOne
    | SkipRead
    | ReadAgain
    | Read(chunk: bytes)
    | ReadFails(text: bytes)
    | PeerGone(code: nat, reason: bytes, text: bytes)

  function TextBytes(text: string): (b: bytes)
    ensures |b| == |text|
  {
    seq(|text|, i requires 0 <= i < |text| => (text[i] as int) % 256)
  }

  /** A close frame's payload: the status code and as much of the reason as fits. */
  function ClosePayload(code: nat, reason: bytes): (p: bytes)
    ensures |p| <= MAX_CONTROL
  {
    [code / 256 % 256, code % 256] + (if |reason| > MAX_CLOSE_REASON then reason[..MAX_CLOSE_REASON] else reason)
  }

  function MirroredClose(payload: bytes): bytes {
    if |payload| >= 2 then payload[..2] else []
  }

  function Init(leftover: bytes): State {
    State(leftover, 0, IDLE, INITIAL_CREDITS, false, false, false, LoopTest, [], [],
          History(leftover, [], [], leftover, [], [], 0, false))
  }

  function Emit(s: State, f: Emitted): State {
    s.(emitted := s.emitted + [f], credits := s.credits - 1)
  }

  /** The loop is left with a frame the peer did not send. */
  function EndWith(s: State, f: Emitted): State {
    Emit(s, f).(phase := Done, history := s.history.(ending := s.history.ending + [f]))
  }

  function EndWithError(s: State, text: bytes): State {
    EndWith(s, Emitted(TRANSPORT_ERROR, text)).(stopping := true)
  }

  /** `failProtocol`: tell the peer why, then give Dart its terminal event. */
  function FailProtocol(s: State, code: nat, text: string): State {
    Emit(s.(replies := s.replies + [Reply(CLOSE, ClosePayload(code, TextBytes(text)))], closeSent := true),
         Emitted(TRANSPORT_ERROR, TextBytes(text)))
      .(stopping := true, phase := Done,
        history := s.history.(verdict := [Violation(code, text)]))
  }

  /** What is left of the buffer once the drain loop is over. */
  function Erase(s: State): State
    requires s.consumed <= |s.rx|
  {
    s.(rx := s.rx[s.consumed..], consumed := 0)
  }

  function EndDrain(s: State): State
    requires s.consumed <= |s.rx|
  {
    Erase(s).(phase := if s.stopping then Done else Reading)
  }

  function Render(e: Event): seq<Emitted> {
    match e
    case Deliver(opcode, payload) => [Emitted(opcode, payload)]
    case PeerClose(payload) => [Emitted(CLOSE, payload)]
    case Violation(_, text) => [Emitted(TRANSPORT_ERROR, TextBytes(text))]
    case GotPing(_) => []
    case GotPong(_) => []
  }

  function Rendered(es: seq<Event>): seq<Emitted> {
    FlatMap(Render, es)
  }

  /** The history once the frame at the front of `data` has been taken. */
  function Grown(h: History, data: bytes): History
    requires FrameReady(data)
  {
    h.(frames := h.frames + [FrontFrame(data)], forms := h.forms + [FrontForm(data)], tail := data[FrontSize(data)..])
  }

  function TakePing(s: State, payload: bytes): State {
    s.(replies := s.replies + [Reply(PONG, payload)])
  }

  function TakeClose(s: State, payload: bytes): State
    requires s.consumed <= |s.rx|
  {
    var told := Emit(s.(closeReceived := true), Emitted(CLOSE, payload));
    var replied := if s.closeSent then told
                   else told.(replies := told.replies + [Reply(CLOSE, MirroredClose(payload))], closeSent := true);
    Erase(replied).(phase := Done, history := s.history.(verdict := [PeerClose(payload)]))
  }

  function TakeData(s: State, es: seq<Event>, next: Reasm): State {
    var r := s.(reasm := next);
    if |es| > 0 && es[0].Deliver? then Emit(r, Emitted(es[0].opcode, es[0].payload)) else r
  }

  /** A whole frame is taken from the buffer. */
  function TakeFrame(s: State, data: bytes, max: nat): State
    requires s.consumed <= |s.rx| && data == s.rx[s.consumed..] && FrameReady(data)
  {
    var f := FrontFrame(data);
    var t := s.(consumed := s.consumed + FrontSize(data));
    var read := t.(history := Grown(s.history, data));
    if f.opcode == PING then TakePing(read, f.payload)
    else if f.opcode == PONG then read
    else if f.opcode == CLOSE then TakeClose(t, f.payload)
    else
      match OnFrame(f, s.reasm, max)
      case Stop(e) => if e.Violation? then Erase(FailProtocol(t, e.code, e.text)) else t
      case Continue(es, next) => TakeData(read, es, next)
  }

  /** One turn of the inner loop. */
  function DrainTurn(s: State, max: nat): State
    requires s.consumed <= |s.rx|
  {
    var data := s.rx[s.consumed..];
    if s.credits <= 0 then EndDrain(s) else
    match ParseHeader(data)
    case NeedMore => EndDrain(s)
    case Bad(text) => Erase(FailProtocol(s, PROTOCOL_ERROR, text))
    case Head(_, _, _, _) => if FrameReady(data) then TakeFrame(s, data, max) else EndDrain(s)
  }

  /** A frame that is taken leaves fewer unread bytes, or the session has ended. */
  lemma TakingAdvances(s: State, data: bytes, max: nat)
    requires s.consumed <= |s.rx| && data == s.rx[s.consumed..] && FrameReady(data)
    ensures var t := TakeFrame(s, data, max);
      t.consumed <= |t.rx| && (t.phase == s.phase == Draining ==> |t.rx| - t.consumed < |s.rx| - s.consumed)
  {
    hide Grown, ClosePayload, TextBytes, MirroredClose, FrontFrame, OnFrame, ParseHeader;
  }

  lemma DrainTurnAdvances(s: State, max: nat)
    requires s.consumed <= |s.rx|
    ensures var t := DrainTurn(s, max);
      t.consumed <= |t.rx| && (t.phase == s.phase == Draining ==> |t.rx| - t.consumed < |s.rx| - s.consumed)
  {
    hide TakeFrame, ClosePayload, TextBytes, ParseHeader, FrameReady;
    var data := s.rx[s.consumed..];
    if FrameReady(data) {
      TakingAdvances(s, data, max);
    }
  }

  /** Steps that are not enabled change nothing. */
  function Apply(s: State, step: Step, max: nat): (t: State)
    requires s.consumed <= |s.rx|
    ensures t.consumed <= |t.rx|
  {
    match step
    case Grant(n) => s.(credits := s.credits + n, history := s.history.(granted := s.history.granted + n))
    case OurClose => s.(closeSent := true)
    case Shutdown => s.(stopping := true, history := s.history.(shutdown := true))
    case TestLoop => if s.phase != LoopTest then s else s.(phase := if s.stopping then Done else Servicing)
    case FlushFails(text) => if s.phase != Servicing then s else EndWithError(s, text)
    case DeadlinePasses(code, reason) =>
      if s.phase == Servicing && s.closeSent && !s.closeReceived
      then EndWith(s.(closeReceived := true), Emitted(CLOSE, ClosePayload(code, reason)))
      else s
    case BeginDrain => if s.phase != Servicing then s else s.(phase := Draining)
    case DrainOne => if s.phase != Draining then s else DrainTurnAdvances(s, max); DrainTurn(s, max)
    case SkipRead => if s.phase == Reading && s.credits <= 0 then s.(phase := LoopTest) else s
    case ReadAgain => if s.phase == Reading && s.credits > 0 then s.(phase := LoopTest) else s
    case Read(chunk) =>
      if s.phase == Reading && s.credits > 0 && 0 < |chunk| <= RECV_CHUNK
      then s.(rx := s.rx + chunk, phase := LoopTest,
              history := s.history.(input := s.history.input + chunk, tail := s.history.tail + chunk))
      else s
    case ReadFails(text) => if s.phase == Reading && s.credits > 0 then EndWithError(s, text) else s
    case PeerGone(code, reason, text) =>
      if s.phase != Reading || s.credits <= 0 then s
      else if s.closeReceived then s.(phase := Done)
      else if s.closeSent then EndWith(s.(closeReceived := true), Emitted(CLOSE, ClosePayload(code, reason)))
      else EndWithError(s, text)
  }

  // ----- The invariant -----

  /** `tail` begins with what ended the session, and no further bytes can change that. */
  predicate Condemns(tail: bytes, r: Reasm, verdict: Event, max: nat) {
    match ParseHeader(tail)
    case NeedMore => false
    case Bad(text) => verdict == Violation(PROTOCOL_ERROR, text)
    case Head(_, _, _, _) => FrameReady(tail) && OnFrame(FrontFrame(tail), r, max) == Stop(verdict)
  }

  /** The events of the frames read so far. */
  function Heard(h: History, max: nat): seq<Event> {
    OnFrames(h.frames, IDLE, max).events
  }

  predicate HistoryInv(h: History, r: Reasm, max: nat) {
    && |h.frames| == |h.forms| && AllLegal(h.frames)
    && (forall i | 0 <= i < |h.frames| :: Fits(|h.frames[i].payload|, h.forms[i]))
    && !OnFrames(h.frames, IDLE, max).stopped
    && OnFrames(h.frames, IDLE, max).next == r
    && h.input == ServerStream(h.frames, h.forms) + h.tail
    && |h.verdict| + |h.ending| <= 1
    && (|h.verdict| == 1 ==> Condemns(h.tail, r, h.verdict[0], max))
  }

  function PongOf(r: Reply): seq<bytes> {
    if r.opcode == PONG then [r.payload] else []
  }

  function Pongs(replies: seq<Reply>): seq<bytes> {
    FlatMap(PongOf, replies)
  }

  predicate Terminal(f: Emitted) {
    f.opcode == CLOSE || f.opcode == TRANSPORT_ERROR
  }

  /** The buffer is the unread input. */
  predicate BufferInv(s: State) {
    && s.consumed <= |s.rx|
    && (s.phase != Draining ==> s.consumed == 0)
    && (|s.history.verdict| == 0 ==> s.history.tail == s.rx[s.consumed..])
  }

  /** Everything emitted and answered is accounted for, and paid for with credit. */
  predicate AccountInv(s: State, max: nat) {
    var shown := Rendered(Heard(s.history, max));
    && s.emitted == shown + Rendered(s.history.verdict) + s.history.ending
    && Pongs(s.replies) == PingEvents(Heard(s.history, max))
    && s.credits == INITIAL_CREDITS + s.history.granted - |s.emitted|
    && |shown| <= INITIAL_CREDITS + s.history.granted
  }

  /** The loop is left exactly when the session has ended. */
  predicate PhaseInv(s: State) {
    && (s.phase != Done ==> |s.history.verdict| == 0 && |s.history.ending| == 0 && !s.closeReceived)
    && (s.phase == Done ==> |s.history.verdict| + |s.history.ending| == 1 || s.history.shutdown)
    && (s.stopping ==> s.history.shutdown || s.phase == Done)
    && (|s.history.ending| == 1 ==> Terminal(s.history.ending[0]))
    && (|s.history.verdict| == 1 ==> s.history.verdict[0].PeerClose? || s.history.verdict[0].Violation?)
  }

  predicate Inv(s: State, max: nat) {
    HistoryInv(s.history, s.reasm, max) && BufferInv(s) && AccountInv(s, max) && PhaseInv(s)
  }

  lemma {:induction false} ServerStreamSnoc(fs: seq<Frame>, forms: seq<LenForm>, f: Frame, form: LenForm)
    requires |fs| == |forms| && Fits(|f.payload|, form)
    requires forall i | 0 <= i < |fs| :: Fits(|fs[i].payload|, forms[i])
    ensures ServerStream(fs + [f], forms + [form]) == ServerStream(fs, forms) + ServerWire(f, form)
  {
    if |fs| == 0 {
      assert (fs + [f])[1..] == [] && (forms + [form])[1..] == [];
      NilRight(ServerWire(f, form));
    } else {
      ServerStreamSnoc(fs[1..], forms[1..], f, form);
      assert (fs + [f])[1..] == fs[1..] + [f] && (forms + [form])[1..] == forms[1..] + [form];
      Assoc(ServerWire(fs[0], forms[0]), ServerStream(fs[1..], forms[1..]), ServerWire(f, form));
    }
  }

  lemma HistoryGrows(h: History, r: Reasm, max: nat)
    requires HistoryInv(h, r, max) && |h.verdict| == 0 && FrameReady(h.tail)
    requires OnFrame(FrontFrame(h.tail), r, max).Continue?
    ensures var reaction := OnFrame(FrontFrame(h.tail), r, max);
      HistoryInv(Grown(h, h.tail), reaction.next, max) && Heard(Grown(h, h.tail), max) == Heard(h, max) + reaction.events
  {
    WireOfParse(h.tail);
    var f, form := FrontFrame(h.tail), FrontForm(h.tail);
    ServerStreamSnoc(h.frames, h.forms, f, form);
    OnFramesThenOne(h.frames, f, IDLE, max);
    Assoc(ServerStream(h.frames, h.forms), ServerWire(f, form), h.tail[FrontSize(h.tail)..]);
  }

  lemma HistoryCondemned(h: History, r: Reasm, e: Event, max: nat)
    requires HistoryInv(h, r, max) && |h.verdict| == 0 && |h.ending| == 0 && Condemns(h.tail, r, e, max)
    ensures HistoryInv(h.(verdict := [e]), r, max)
  {
  }

  /** What the events of one frame add to what is shown and answered. */
  lemma AccountGrows(h: History, es: seq<Event>, h': History, max: nat)
    requires Heard(h', max) == Heard(h, max) + es
    ensures Rendered(Heard(h', max)) == Rendered(Heard(h, max)) + Rendered(es)
    ensures PingEvents(Heard(h', max)) == PingEvents(Heard(h, max)) + PingEvents(es)
  {
    FlatMapAppend(Render, Heard(h, max), es);
    FlatMapAppend(PingOnly, Heard(h, max), es);
  }

  /** A drain turn that ends the session for what the peer sent. */
  lemma VerdictKeepsInv(s: State, t: State, e: Event, max: nat)
    requires Inv(s, max) && s.phase == Draining && s.credits > 0
    requires (e.PeerClose? || e.Violation?) && Condemns(s.history.tail, s.reasm, e, max)
    requires t.phase == Done && t.history == s.history.(verdict := [e]) && t.reasm == s.reasm && t.consumed == 0
    requires t.emitted == s.emitted + Render(e) && t.credits == s.credits - 1
    requires Pongs(t.replies) == Pongs(s.replies)
    ensures Inv(t, max)
  {
    HistoryCondemned(s.history, s.reasm, e, max);
    FlatMapOne(Render, e);
    var shown := Rendered(Heard(s.history, max));
    assert s.emitted == shown;
    NilRight(shown + Render(e));
  }

  /** A drain turn that takes a frame and goes on. */
  lemma GrowthKeepsInv(s: State, t: State, max: nat)
    requires Inv(s, max) && s.phase == Draining && s.credits > 0 && FrameReady(s.history.tail)
    requires var reaction := OnFrame(FrontFrame(s.history.tail), s.reasm, max);
      && reaction.Continue? && |Rendered(reaction.events)| <= 1
      && t.history == Grown(s.history, s.history.tail) && t.reasm == reaction.next
      && t.emitted == s.emitted + Rendered(reaction.events)
      && t.credits == s.credits - |Rendered(reaction.events)|
      && Pongs(t.replies) == Pongs(s.replies) + PingEvents(reaction.events)
    requires BufferInv(t)
    requires t.phase == Draining && t.stopping == s.stopping && t.closeReceived == s.closeReceived
    ensures Inv(t, max)
  {
    var es := OnFrame(FrontFrame(s.history.tail), s.reasm, max).events;
    HistoryGrows(s.history, s.reasm, max);
    AccountGrows(s.history, es, t.history, max);
    var shown := Rendered(Heard(s.history, max));
    assert s.emitted == shown;
    assert |shown| == |s.emitted|;
  }

  lemma StoppingFrameKeepsInv(s: State, max: nat)
    requires Inv(s, max) && s.phase == Draining && s.credits > 0 && FrameReady(s.history.tail)
    requires OnFrame(FrontFrame(s.history.tail), s.reasm, max).Stop?
    ensures Inv(DrainTurn(s, max), max)
  {
    hide FlatMap, ParseHeader, HistoryInv;
    var data := s.history.tail;
    var f := FrontFrame(data);
    FrontIsLegal(data);
    var e := OnFrame(f, s.reasm, max).event;
    FlatMapSnoc(PongOf, s.replies, Reply(CLOSE, MirroredClose(f.payload)));
    if e.Violation? {
      FlatMapSnoc(PongOf, s.replies, Reply(CLOSE, ClosePayload(e.code, TextBytes(e.text))));
    }
    NilRight(Pongs(s.replies));
    VerdictKeepsInv(s, DrainTurn(s, max), e, max);
  }

  lemma FrameKeepsInv(s: State, max: nat)
    requires Inv(s, max) && s.phase == Draining && s.credits > 0 && FrameReady(s.history.tail)
    requires OnFrame(FrontFrame(s.history.tail), s.reasm, max).Continue?
    ensures Inv(DrainTurn(s, max), max)
  {
    var t := DrainTurn(s, max);
    FrameTaken(s, max);
    GrowthKeepsInv(s, t, max);
  }

  /** The effect of a frame that does not end the session, read off the code. */
  lemma FrameTaken(s: State, max: nat)
    requires s.consumed <= |s.rx| && s.history.tail == s.rx[s.consumed..]
    requires s.phase == Draining && s.credits > 0 && FrameReady(s.history.tail)
    requires OnFrame(FrontFrame(s.history.tail), s.reasm, max).Continue?
    ensures var t, reaction := DrainTurn(s, max), OnFrame(FrontFrame(s.history.tail), s.reasm, max);
      && |Rendered(reaction.events)| <= 1
      && t.history == Grown(s.history, s.history.tail) && t.reasm == reaction.next
      && t.emitted == s.emitted + Rendered(reaction.events)
      && t.credits == s.credits - |Rendered(reaction.events)|
      && Pongs(t.replies) == Pongs(s.replies) + PingEvents(reaction.events)
      && t.phase == Draining && t.stopping == s.stopping && t.closeReceived == s.closeReceived
      && t.consumed <= |t.rx| && t.history.tail == t.rx[t.consumed..]
      && |t.rx| - t.consumed < |s.rx| - s.consumed
  {
    hide FlatMap, ParseHeader;
    var data := s.history.tail;
    var f := FrontFrame(data);
    assert s.rx[s.consumed + FrontSize(data)..] == data[FrontSize(data)..];
    FrontIsLegal(data);
    if IsControl(f.opcode) {
      FlatMapSnoc(PongOf, s.replies, Reply(PONG, f.payload));
    }
    Shows(f, s.reasm, s, max);
  }

  /** What one reaction adds to the emitted frames and the pongs. */
  lemma Shows(f: Frame, r: Reasm, s: State, max: nat)
    requires Legal(f) && OnFrame(f, r, max).Continue?
    ensures var es := OnFrame(f, r, max).events;
      && Rendered(es) == (if IsControl(f.opcode) || |es| == 0 then [] else [Emitted(es[0].opcode, es[0].payload)])
      && PingEvents(es) == PingOf(f)
    ensures s.emitted + [] == s.emitted && Pongs(s.replies) + [] == Pongs(s.replies)
  {
    var es := OnFrame(f, r, max).events;
    ReactionShows(f, r, max);
    if |es| > 0 {
      assert es == [es[0]];
      FlatMapOne(Render, es[0]);
    }
  }

  lemma DrainKeepsInv(s: State, max: nat)
    requires Inv(s, max) && s.phase == Draining
    ensures Inv(DrainTurn(s, max), max)
  {
    hide FlatMap, ParseHeader, HistoryInv;
    var data := s.rx[s.consumed..];
    var h := ParseHeader(data);
    if s.credits > 0 && h.Bad? {
      FlatMapSnoc(PongOf, s.replies, Reply(CLOSE, ClosePayload(PROTOCOL_ERROR, TextBytes(h.text))));
      NilRight(Pongs(s.replies));
      VerdictKeepsInv(s, DrainTurn(s, max), Violation(PROTOCOL_ERROR, h.text), max);
    } else if s.credits > 0 && FrameReady(data) {
      if OnFrame(FrontFrame(data), s.reasm, max).Stop? {
        StoppingFrameKeepsInv(s, max);
      } else {
        FrameKeepsInv(s, max);
      }
    }
  }

  lemma ReadKeepsInv(s: State, chunk: bytes, max: nat)
    requires Inv(s, max)
    ensures Inv(Apply(s, Read(chunk), max), max)
  {
    assert s.consumed == 0 ==> (s.rx + chunk)[0..] == s.rx[0..] + chunk;
    Assoc(ServerStream(s.history.frames, s.history.forms), s.history.tail, chunk);
  }

  /** The loop is left for a reason of its own. */
  lemma EndKeepsInv(s: State, t: State, f: Emitted, max: nat)
    requires Inv(s, max) && s.phase != Done && s.phase != Draining && Terminal(f)
    requires t == EndWith(s, f).(closeReceived := t.closeReceived, stopping := t.stopping)
    ensures Inv(t, max)
  {
    var shown := Rendered(Heard(s.history, max));
    NilRight(shown);
    assert s.history.ending + [f] == [f];
  }

  /** A step that neither reads nor emits. */
  lemma QuietStepKeepsInv(s: State, t: State, max: nat)
    requires Inv(s, max)
    requires t == s.(credits := t.credits, closeSent := t.closeSent, stopping := t.stopping, phase := t.phase,
                     history := s.history.(granted := t.history.granted, shutdown := t.history.shutdown))
    requires t.credits - s.credits == t.history.granted - s.history.granted >= 0
    requires (s.history.shutdown ==> t.history.shutdown) && (t.stopping && !s.stopping ==> t.history.shutdown)
    requires t.phase == s.phase || (s.phase != Done && s.phase != Draining && (t.phase == Done ==> s.stopping))
    ensures Inv(t, max)
  {
  }

  lemma EndStepKeepsInv(s: State, step: Step, max: nat)
    requires Inv(s, max) && (step.FlushFails? || step.ReadFails? || step.DeadlinePasses? || step.PeerGone?)
    ensures Inv(Apply(s, step, max), max)
  {
    var t := Apply(s, step, max);
    if t != s {
      EndKeepsInv(s, t, t.emitted[|t.emitted| - 1], max);
    }
  }

  predicate Quiet(step: Step) {
    step.Grant? || step.OurClose? || step.Shutdown? || step.TestLoop? || step.BeginDrain? || step.SkipRead? || step.ReadAgain?
  }

  lemma QuietKeepsInv(s: State, step: Step, max: nat)
    requires Inv(s, max) && Quiet(step)
    ensures Inv(Apply(s, step, max), max)
  {
    hide DrainTurn, HistoryInv, AccountInv, FlatMap;
    QuietStepKeepsInv(s, Apply(s, step, max), max);
  }

  lemma StepKeepsInv(s: State, step: Step, max: nat)
    requires Inv(s, max)
    ensures Inv(Apply(s, step, max), max)
  {
    assert s.consumed <= |s.rx|;
    hide Inv, DrainTurn, Rendered;
    if Quiet(step) {
      QuietKeepsInv(s, step, max);
    } else if step.Read? {
      ReadKeepsInv(s, step.chunk, max);
    } else if step.DrainOne? {
      if s.phase == Draining {
        DrainKeepsInv(s, max);
      }
    } else {
      EndStepKeepsInv(s, step, max);
    }
  }

  /** The state after any schedule of steps. */
  function Run(leftover: bytes, steps: seq<Step>, max: nat): (s: State)
    ensures s.consumed <= |s.rx|
  {
    if |steps| == 0 then Init(leftover)
    else Apply(Run(leftover, steps[..|steps| - 1], max), steps[|steps| - 1], max)
  }

  lemma {:induction false} RunKeepsInv(leftover: bytes, steps: seq<Step>, max: nat)
    ensures Inv(Run(leftover, steps, max), max)
  {
    if |steps| == 0 {
      NilLeft(leftover);
    } else {
      RunKeepsInv(leftover, steps[..|steps| - 1], max);
      StepKeepsInv(Run(leftover, steps[..|steps| - 1], max), steps[|steps| - 1], max);
    }
  }

  // ----- What Dart sees, over every run -----

  /** The emitted frames that the peer's bytes account for. */
  function PeerShown(s: State): (shown: seq<Emitted>)
    requires |s.history.ending| <= |s.emitted|
  {
    s.emitted[..|s.emitted| - |s.history.ending|]
  }

  lemma CondemnedForGood(tail: bytes, r: Reasm, verdict: Event, future: bytes, max: nat)
    requires Condemns(tail, r, verdict, max)
    ensures Decode(tail + future, r, max) == [verdict]
  {
    ParseStable(tail, future);
    if FrameReady(tail) {
      FrameReadyStable(tail, future);
    }
  }

  lemma DecodeFromHere(h: History, r: Reasm, future: bytes, max: nat)
    requires HistoryInv(h, r, max)
    ensures Decode(h.input + future, IDLE, max) == Heard(h, max) + Decode(h.tail + future, r, max)
    ensures |h.verdict| == 1 ==> Decode(h.input + future, IDLE, max) == Heard(h, max) + h.verdict
  {
    DecodeOfFrames(h.frames, h.forms, h.tail + future, IDLE, max);
    Assoc(ServerStream(h.frames, h.forms), h.tail, future);
    if |h.verdict| == 1 {
      CondemnedForGood(h.tail, r, h.verdict[0], future, max);
      assert h.verdict == [h.verdict[0]];
    }
  }

  lemma ShownIsPrefix(s: State, future: bytes, max: nat)
    requires Inv(s, max)
    ensures var whole := Rendered(Decode(s.history.input + future, IDLE, max));
      && |s.history.ending| <= |s.emitted|
      && s.emitted == PeerShown(s) + s.history.ending
      && PeerShown(s) <= whole
      && (|s.history.verdict| == 1 ==> |s.history.ending| == 0 && s.emitted == whole)
  {
    DecodeFromHere(s.history, s.reasm, future, max);
    var shown := Heard(s.history, max);
    FlatMapAppend(Render, shown, Decode(s.history.tail + future, s.reasm, max));
    FlatMapAppend(Render, shown, s.history.verdict);
    if |s.history.verdict| == 0 {
      NilRight(Rendered(shown));
    } else {
      NilRight(Rendered(shown) + Rendered(s.history.verdict));
    }
  }

  /** However the peer's stream is split into reads and whenever credit arrives, Dart has seen a prefix of
      what one reading of the whole stream yields; once the stream itself ended the session, all of it. */
  lemma EmittedIsPrefixOfOneShot(leftover: bytes, steps: seq<Step>, future: bytes, max: nat)
    ensures var s := Run(leftover, steps, max);
      var whole := Rendered(Decode(s.history.input + future, IDLE, max));
      && |s.history.ending| <= |s.emitted|
      && s.emitted == PeerShown(s) + s.history.ending
      && PeerShown(s) <= whole
      && (|s.history.verdict| == 1 ==> |s.history.ending| == 0 && s.emitted == whole)
  {
    RunKeepsInv(leftover, steps, max);
    ShownIsPrefix(Run(leftover, steps, max), future, max);
  }

  /** No whole frame and no protocol error stands at the front of `data`. */
  predicate Unreadable(data: bytes) {
    ParseHeader(data).NeedMore? || (ParseHeader(data).Head? && !FrameReady(data))
  }

  lemma AllEmitted(t: State, max: nat)
    requires Inv(t, max) && |t.history.ending| == 0
    requires |t.history.verdict| == 0 ==> Unreadable(t.history.tail)
    ensures t.emitted == Rendered(Decode(t.history.input, IDLE, max))
  {
    DecodeFromHere(t.history, t.reasm, [], max);
    NilRight(t.history.input);
    NilRight(t.history.tail);
    var shown := Heard(t.history, max);
    FlatMapAppend(Render, shown, t.history.verdict);
    NilRight(shown);
    NilRight(Rendered(shown) + Rendered(t.history.verdict));
  }

  /** The turn that ends the drain. */
  lemma DrainStops(s: State, max: nat)
    requires s.consumed <= |s.rx| && s.history.tail == s.rx[s.consumed..] && |s.history.verdict| == 0
    requires s.phase == Draining && DrainTurn(s, max).phase != Draining
    ensures var t := DrainTurn(s, max);
      && t.history == s.history.(verdict := t.history.verdict)
      && (|t.history.verdict| == 0 && s.credits > 0 ==> Unreadable(t.history.tail))
      && (t.phase == Reading ==> |t.history.verdict| == 0 && t.credits == s.credits)
  {
    hide ParseHeader, OnFrame;
    if s.credits <= 0 {
    } else if !FrameReady(s.history.tail) {
    } else {
    }
  }

  /** When a drain ends with credit in hand, nothing readable is held back: with no more input,
      Dart has exactly the one-shot reading of everything received. */
  lemma DrainLeavesNothing(leftover: bytes, steps: seq<Step>, max: nat)
    ensures var s := Run(leftover, steps, max);
      var t := Apply(s, DrainOne, max);
      s.phase == Draining && t.phase == Reading && t.credits > 0 ==>
        t.emitted == Rendered(Decode(t.history.input, IDLE, max))
  {
    var s := Run(leftover, steps, max);
    RunKeepsInv(leftover, steps, max);
    StepKeepsInv(s, DrainOne, max);
    var t := Apply(s, DrainOne, max);
    if s.phase == Draining && t.phase == Reading && t.credits > 0 {
      DrainStops(s, max);
      AllEmitted(t, max);
    }
  }

  /** The whole drain loop, when nothing interrupts it. */
  function DrainAll(s: State, max: nat): (t: State)
    requires s.consumed <= |s.rx|
    ensures t.consumed <= |t.rx|
    decreases |s.rx| - s.consumed
  {
    DrainTurnAdvances(s, max);
    var t := DrainTurn(s, max);
    if s.phase == t.phase == Draining then DrainAll(t, max) else t
  }

  /** What the drain loop still has to emit. */
  function Owed(s: State, max: nat): nat {
    |Rendered(Decode(s.history.tail, s.reasm, max))|
  }

  lemma OwedFalls(s: State, max: nat)
    requires s.consumed <= |s.rx| && s.history.tail == s.rx[s.consumed..]
    requires s.phase == Draining && s.credits > 0 && FrameReady(s.history.tail)
    requires OnFrame(FrontFrame(s.history.tail), s.reasm, max).Continue?
    ensures var t := DrainTurn(s, max); t.credits - Owed(t, max) == s.credits - Owed(s, max)
  {
    var t := DrainTurn(s, max);
    FrameTaken(s, max);
    FlatMapAppend(Render, OnFrame(FrontFrame(s.history.tail), s.reasm, max).events,
                  Decode(t.history.tail, t.reasm, max));
  }

  predicate Drained(s: State, t: State, max: nat) {
    t.phase != Draining && t.history.input == s.history.input && t.emitted == Rendered(Decode(s.history.input, IDLE, max))
  }

  lemma LastTurnDrains(s: State, max: nat)
    requires Inv(s, max) && s.phase == Draining && s.credits > 0
    requires FrameReady(s.history.tail) ==> OnFrame(FrontFrame(s.history.tail), s.reasm, max).Stop?
    ensures Drained(s, DrainTurn(s, max), max)
  {
    DrainKeepsInv(s, max);
    DrainStops(s, max);
    AllEmitted(DrainTurn(s, max), max);
  }

  /** A frame can be taken that leaves the session open. */
  predicate GoesOn(s: State, max: nat) {
    FrameReady(s.history.tail) && OnFrame(FrontFrame(s.history.tail), s.reasm, max).Continue?
  }

  lemma TurnGoesOn(s: State, max: nat)
    requires Inv(s, max) && s.phase == Draining && s.credits > 0 && GoesOn(s, max)
    ensures var t := DrainTurn(s, max);
      Inv(t, max) && t.phase == Draining && t.credits - Owed(t, max) == s.credits - Owed(s, max) && t.history.input == s.history.input
  {
    DrainKeepsInv(s, max);
    FrameTaken(s, max);
    OwedFalls(s, max);
    hide Owed, FlatMap, Inv, DrainTurn;
  }

  lemma AtMostOneOwed(s: State, max: nat)
    requires !GoesOn(s, max)
    ensures Owed(s, max) <= 1
  {
    var events := Decode(s.history.tail, s.reasm, max);
    assert |events| <= 1;
    hide Decode;
    if |events| == 1 {
      assert events == [events[0]];
      FlatMapOne(Render, events[0]);
    }
  }

  /** Without credit the drain emits nothing, which is everything only if nothing is owed. */
  lemma NoCreditNoDrain(s: State, max: nat)
    requires Inv(s, max) && s.phase == Draining && s.credits <= 0
    ensures s.credits == 0 && (Drained(s, DrainTurn(s, max), max) <==> Owed(s, max) == 0)
  {
    assert DrainTurn(s, max) == EndDrain(s);
    DecodeFromHere(s.history, s.reasm, [], max);
    NilRight(s.history.input);
    NilRight(s.history.tail);
    var shown, rest := Heard(s.history, max), Decode(s.history.tail, s.reasm, max);
    FlatMapAppend(Render, shown, rest);
    NilRight(Rendered(shown));
    hide Decode, FlatMap, HistoryInv, DrainTurn;
    assert |Rendered(shown) + Rendered(rest)| == |Rendered(shown)| + |Rendered(rest)|;
  }

  /** The drain loop emits everything readable if and only if there is credit for everything readable. */
  lemma {:induction false} EnoughCreditDrainsAll(s: State, max: nat)
    requires Inv(s, max) && s.phase == Draining
    ensures Drained(s, DrainAll(s, max), max) <==> s.credits >= Owed(s, max)
    decreases |s.rx| - s.consumed
  {
    assert s.consumed <= |s.rx|;
    var t := DrainTurn(s, max);
    DrainAllOnce(s, max);
    DrainTurnAdvances(s, max);
    hide Inv, DrainTurn, DrainAll, Owed, GoesOn, Decode, FlatMap, Drained;
    if s.credits <= 0 {
      NoCreditNoDrain(s, max);
      DrainingEnds(s, t, max);
    } else if GoesOn(s, max) {
      TurnGoesOn(s, max);
      EnoughCreditDrainsAll(t, max);
      SameInput(s, t, DrainAll(t, max), max);
    } else {
      TurnStops(s, max);
      DrainingEnds(s, t, max);
      AtMostOneOwed(s, max);
    }
  }

  lemma DrainAllOnce(s: State, max: nat)
    requires s.consumed <= |s.rx|
    ensures DrainTurn(s, max).consumed <= |DrainTurn(s, max).rx|
    ensures var t := DrainTurn(s, max);
      DrainAll(s, max) == if s.phase == t.phase == Draining then DrainAll(t, max) else t
  {
    DrainTurnAdvances(s, max);
    hide DrainTurn;
  }

  lemma DrainingEnds(s: State, t: State, max: nat)
    requires s.consumed <= |s.rx| && t == DrainTurn(s, max)
    requires s.credits <= 0 || Drained(s, t, max)
    ensures t.phase != Draining
  {
    hide TakeFrame, FailProtocol, ParseHeader, Decode, FlatMap;
  }

  lemma SameInput(s: State, t: State, u: State, max: nat)
    requires s.history.input == t.history.input
    ensures Drained(s, u, max) <==> Drained(t, u, max)
  {
    hide Decode, FlatMap;
  }

  lemma TurnStops(s: State, max: nat)
    requires Inv(s, max) && s.phase == Draining && s.credits > 0 && !GoesOn(s, max)
    ensures Drained(s, DrainTurn(s, max), max)
  {
    LastTurnDrains(s, max);
  }

  predicate IsMessage(opcode: nat, payload: bytes, max: nat) {
    (opcode == TEXT || opcode == BINARY) && |payload| <= max
  }

  predicate IsMessageEvent(e: Event, max: nat) {
    match e
    case Deliver(opcode, payload) => IsMessage(opcode, payload, max)
    case GotPing(_) => true
    case GotPong(_) => true
    case PeerClose(_) => false
    case Violation(_, _) => false
  }

  predicate ReasmOk(r: Reasm, max: nat) {
    (r.opcode == 0 ==> |r.buf| == 0) && (r.opcode == 0 || r.opcode == TEXT || r.opcode == BINARY) && |r.buf| <= max
  }

  lemma {:induction false} OnlyMessages(fs: seq<Frame>, r: Reasm, max: nat)
    requires AllLegal(fs) && ReasmOk(r, max) && !OnFrames(fs, r, max).stopped
    ensures forall e | e in OnFrames(fs, r, max).events :: IsMessageEvent(e, max)
  {
    if |fs| > 0 {
      OnlyMessages(fs[1..], OnFrame(fs[0], r, max).next, max);
    }
  }

  lemma {:induction false} RenderedMessages(es: seq<Event>, max: nat)
    requires forall e | e in es :: IsMessageEvent(e, max)
    ensures forall i | 0 <= i < |Rendered(es)| :: IsMessage(Rendered(es)[i].opcode, Rendered(es)[i].payload, max)
  {
    if |es| > 0 {
      assert IsMessageEvent(es[0], max);
      RenderedMessages(es[1..], max);
      var first, rest := Render(es[0]), Rendered(es[1..]);
      assert |first| <= 1 && (|first| == 1 ==> IsMessage(first[0].opcode, first[0].payload, max));
      assert Rendered(es) == first + rest;
    }
  }

  /** Emitted frames are messages, then at most one terminal frame. */
  lemma MessagesThenTerminal(s: State, max: nat)
    requires Inv(s, max)
    ensures var n := |Rendered(Heard(s.history, max))|;
      && n <= |s.emitted| <= n + 1 && n <= INITIAL_CREDITS + s.history.granted
      && (forall i | 0 <= i < n :: IsMessage(s.emitted[i].opcode, s.emitted[i].payload, max))
      && (|s.emitted| == n + 1 ==> Terminal(s.emitted[n]) && s.phase == Done)
      && (|s.emitted| == n && s.phase == Done ==> s.history.shutdown)
  {
    var shown, v := Heard(s.history, max), s.history.verdict;
    OnlyMessages(s.history.frames, IDLE, max);
    RenderedMessages(shown, max);
    if |v| == 1 {
      assert v == [v[0]];
      FlatMapOne(Render, v[0]);
    }
  }

  /** Over every run: messages are whole text or binary payloads within the limit and never outnumber the
      credit; a terminal frame can only be the last; and the loop is never left without one unless Dart
      shut the session down. */
  lemma EmittedFramesAreWellFormed(leftover: bytes, steps: seq<Step>, max: nat)
    ensures var s := Run(leftover, steps, max);
      && (forall i | 0 <= i < |s.emitted| && Terminal(s.emitted[i]) :: i == |s.emitted| - 1 && s.phase == Done)
      && (forall i | 0 <= i < |s.emitted| && !Terminal(s.emitted[i]) ::
            IsMessage(s.emitted[i].opcode, s.emitted[i].payload, max) && i < INITIAL_CREDITS + s.history.granted)
      && (s.phase == Done && !s.history.shutdown ==> |s.emitted| > 0 && Terminal(s.emitted[|s.emitted| - 1]))
  {
    RunKeepsInv(leftover, steps, max);
    hide Inv, Run, FlatMap;
    MessagesThenTerminal(Run(leftover, steps, max), max);
  }

  /** Every ping read has been answered by one pong with the same payload, in order. */
  lemma PingsAreAnswered(leftover: bytes, steps: seq<Step>, max: nat)
    ensures var s := Run(leftover, steps, max); Pongs(s.replies) == Pings(s.history.frames)
  {
    RunKeepsInv(leftover, steps, max);
    var msgs, open := FramesExplained(Run(leftover, steps, max).history.frames, max);
  }

  function ShownAs(m: Message): seq<Emitted> {
    [Emitted(m.opcode, Concat(m.chunks))]
  }

  function Shown(msgs: seq<Message>): seq<Emitted> {
    FlatMap(ShownAs, msgs)
  }

  lemma {:induction false} ShownIsRendered(msgs: seq<Message>)
    ensures Shown(msgs) == Rendered(Delivered(msgs))
  {
    if |msgs| > 0 {
      ShownIsRendered(msgs[1..]);
      FlatMapAppend(Render, DeliveryOf(msgs[0]), Delivered(msgs[1..]));
      FlatMapOne(Render, DeliveryOf(msgs[0])[0]);
    }
  }

  lemma {:induction false} RenderedDeliveries(es: seq<Event>, max: nat)
    requires forall e | e in es :: IsMessageEvent(e, max)
    ensures Rendered(es) == Rendered(Deliveries(es))
  {
    if |es| > 0 {
      assert IsMessageEvent(es[0], max);
      RenderedDeliveries(es[1..], max);
      FlatMapAppend(Render, DeliverOnly(es[0]), Deliveries(es[1..]));
      if es[0].Deliver? {
        FlatMapOne(Render, es[0]);
      }
    }
  }

  /** End to end: while a peer is part way through any legal conversation within the limit, Dart has been
      shown its first so many messages, whole and in order. */
  lemma ConversationReachesDart(leftover: bytes, steps: seq<Step>, future: bytes, max: nat,
                                fs: seq<Frame>, forms: seq<LenForm>, msgs: seq<Message>)
    requires |fs| == |forms| && AllLegal(fs) && NoClose(fs) && ValidMessages(msgs, max)
    requires forall i | 0 <= i < |fs| :: Fits(|fs[i].payload|, forms[i])
    requires DataFrames(fs) == Flat(msgs)
    requires Run(leftover, steps, max).history.input + future == ServerStream(fs, forms)
    ensures var s := Run(leftover, steps, max);
      |s.history.ending| <= |s.emitted| && PeerShown(s) <= Shown(msgs)
  {
    EmittedIsPrefixOfOneShot(leftover, steps, future, max);
    ConversationDelivered(fs, forms, msgs, max);
    OnlyMessages(fs, IDLE, max);
    RenderedDeliveries(OnFrames(fs, IDLE, max).events, max);
    ShownIsRendered(msgs);
  }
}
