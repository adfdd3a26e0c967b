/** From frames to messages: the receiver's reassembly (RFC 6455 section 5.4), the one-shot
    reading of a whole byte stream, and the legal conversations it is measured against. */
module WsMessages {
  import opened Bytes
  import opened Seqs
  import opened WsFrame

  /** A message in progress; opcode 0 means none. */
  datatype Reasm = Reasm(opcode: nat, buf: bytes)

  const IDLE := Reasm(0, [])

  datatype Event =
    | Deliver(opcode: nat, payload: bytes)
    | GotPing(payload: bytes)
    | GotPong(payload: bytes)
    | PeerClose(payload: bytes)
    | Violation(code: nat, text: string)

  datatype Reaction = Continue(events: seq<Event>, next: Reasm) | Stop(event: Event)

  const PROTOCOL_ERROR := 1002
  const MESSAGE_TOO_BIG := 1009
  const STRAY_CONTINUATION := "continuation frame with no message in progress"
  const INTERRUPTED_MESSAGE := "new data frame while a message is still fragmented"
  const OVERSIZED_MESSAGE := "message exceeds the configured maximum size"

  /** What one legal frame does to the session. */
  function OnFrame(f: Frame, r: Reasm, max: nat): Reaction {
    if f.opcode == PING then Continue([GotPing(f.payload)], r)
    else if f.opcode == PONG then Continue([GotPong(f.payload)], r)
    else if f.opcode == CLOSE then Stop(PeerClose(f.payload))
    else
      var continuation := f.opcode == CONTINUATION;
      if continuation && r.opcode == 0 then Stop(Violation(PROTOCOL_ERROR, STRAY_CONTINUATION))
      else if !continuation && r.opcode != 0 then Stop(Violation(PROTOCOL_ERROR, INTERRUPTED_MESSAGE))
      else if |r.buf| + |f.payload| > max then Stop(Violation(MESSAGE_TOO_BIG, OVERSIZED_MESSAGE))
      else if !continuation && f.fin then Continue([Deliver(f.opcode, f.payload)], r)
      else
        var opcode := if continuation then r.opcode else f.opcode;
        if f.fin then Continue([Deliver(opcode, r.buf + f.payload)], IDLE)
        else Continue([], Reasm(opcode, r.buf + f.payload))
  }

  // ----- The one-shot reading of a byte stream -----

  function Decode(stream: bytes, r: Reasm, max: nat): seq<Event>
    decreases |stream|
  {
    match ParseHeader(stream)
    case NeedMore => []
    case Bad(text) => [Violation(PROTOCOL_ERROR, text)]
    case Head(_, _, _, _) =>
      if !FrameReady(stream) then [] else
      match OnFrame(FrontFrame(stream), r, max)
      case Stop(e) => [e]
      case Continue(es, next) => es + Decode(stream[FrontSize(stream)..], next, max)
  }

  datatype Progress = Progress(events: seq<Event>, next: Reasm, stopped: bool)

  function OnFrames(fs: seq<Frame>, r: Reasm, max: nat): Progress {
    if |fs| == 0 then Progress([], r, false) else
    match OnFrame(fs[0], r, max)
    case Stop(e) => Progress([e], r, true)
    case Continue(es, next) =>
      var p := OnFrames(fs[1..], next, max);
      Progress(es + p.events, p.next, p.stopped)
  }

  lemma {:induction false} OnFramesThenOne(fs: seq<Frame>, f: Frame, r: Reasm, max: nat)
    requires !OnFrames(fs, r, max).stopped
    ensures var p := OnFrames(fs, r, max);
      match OnFrame(f, p.next, max)
      case Stop(e) => OnFrames(fs + [f], r, max) == Progress(p.events + [e], p.next, true)
      case Continue(es, next) => OnFrames(fs + [f], r, max) == Progress(p.events + es, next, false)
  {
    if |fs| == 0 {
      assert (fs + [f])[1..] == [];
    } else {
      var next := OnFrame(fs[0], r, max).next;
      OnFramesThenOne(fs[1..], f, next, max);
      assert (fs + [f])[1..] == fs[1..] + [f];
    }
  }

  /** Reading bytes in one go is reading the frames they spell, however each length was written. */
  lemma {:induction false} DecodeOfFrames(fs: seq<Frame>, forms: seq<LenForm>, tail: bytes, r: Reasm, max: nat)
    requires |fs| == |forms| && AllLegal(fs)
    requires forall i | 0 <= i < |fs| :: Fits(|fs[i].payload|, forms[i])
    ensures var p := OnFrames(fs, r, max);
      Decode(ServerStream(fs, forms) + tail, r, max)
        == p.events + (if p.stopped then [] else Decode(tail, p.next, max))
  {
    if |fs| == 0 {
      assert ServerStream(fs, forms) + tail == tail;
    } else {
      var rest := ServerStream(fs[1..], forms[1..]) + tail;
      var stream := ServerStream(fs, forms) + tail;
      assert stream == ServerWire(fs[0], forms[0]) + rest;
      ParseOfWire(fs[0], forms[0], rest);
      match OnFrame(fs[0], r, max) {
        case Stop(e) =>
        case Continue(es, next) =>
          DecodeOfFrames(fs[1..], forms[1..], tail, next, max);
          assert stream[FrontSize(stream)..] == rest;
      }
    }
  }

  // ----- Legal conversations: section 5.4 stated from the sender's side -----

  /** A message cut into fragments. */
  datatype Message = Message(opcode: nat, chunks: seq<bytes>)

  predicate ValidMessage(m: Message, max: nat) {
    (m.opcode == TEXT || m.opcode == BINARY) && |m.chunks| > 0 && |Concat(m.chunks)| <= max
  }

  predicate ValidMessages(msgs: seq<Message>, max: nat) {
    forall i | 0 <= i < |msgs| :: ValidMessage(msgs[i], max)
  }

  function MoreFrames(chunks: seq<bytes>): seq<Frame> {
    if |chunks| == 0 then [] else [Frame(|chunks| == 1, CONTINUATION, chunks[0])] + MoreFrames(chunks[1..])
  }

  function MessageFrames(m: Message): seq<Frame> {
    if |m.chunks| == 0 then []
    else [Frame(|m.chunks| == 1, m.opcode, m.chunks[0])] + MoreFrames(m.chunks[1..])
  }

  function Flat(msgs: seq<Message>): seq<Frame> {
    FlatMap(MessageFrames, msgs)
  }

  function DeliveryOf(m: Message): seq<Event> {
    [Deliver(m.opcode, Concat(m.chunks))]
  }

  function Delivered(msgs: seq<Message>): seq<Event> {
    FlatMap(DeliveryOf, msgs)
  }

  function DataOf(f: Frame): seq<Frame> {
    if IsControl(f.opcode) then [] else [f]
  }

  /** The data frames of a run, with the control frames between them taken out. */
  function DataFrames(fs: seq<Frame>): seq<Frame> {
    FlatMap(DataOf, fs)
  }

  function PingOf(f: Frame): seq<bytes> {
    if f.opcode == PING then [f.payload] else []
  }

  function Pings(fs: seq<Frame>): seq<bytes> {
    FlatMap(PingOf, fs)
  }

  function DeliverOnly(e: Event): seq<Event> {
    if e.Deliver? then [e] else []
  }

  function Deliveries(es: seq<Event>): seq<Event> {
    FlatMap(DeliverOnly, es)
  }

  function PingOnly(e: Event): seq<bytes> {
    if e.GotPing? then [e.payload] else []
  }

  function PingEvents(es: seq<Event>): seq<bytes> {
    FlatMap(PingOnly, es)
  }

  predicate NoClose(fs: seq<Frame>) {
    forall i | 0 <= i < |fs| :: fs[i].opcode != CLOSE
  }

  /** The message the receiver has open still lacks `pend`. */
  predicate Awaiting(r: Reasm, pend: seq<bytes>, max: nat) {
    if |pend| == 0 then r == IDLE
    else (r.opcode == TEXT || r.opcode == BINARY) && |r.buf| + |Concat(pend)| <= max
  }

  function Completion(r: Reasm, pend: seq<bytes>): seq<Event> {
    if |pend| == 0 then [] else [Deliver(r.opcode, r.buf + Concat(pend))]
  }

  lemma LastChunk(chunks: seq<bytes>)
    requires |chunks| == 1
    ensures Concat(chunks) == chunks[0]
  {
    assert chunks == [chunks[0]];
    ConcatOne(chunks[0]);
  }

  /** A fragment of a message under way: what it does, and what remains to come. */
  lemma NextFragment(f: Frame, r: Reasm, pend: seq<bytes>, max: nat)
    requires |pend| > 0 && Awaiting(r, pend, max)
    requires f == Frame(|pend| == 1, CONTINUATION, pend[0])
    ensures var next := if f.fin then IDLE else Reasm(r.opcode, r.buf + f.payload);
      && OnFrame(f, r, max) == Continue(if f.fin then Completion(r, pend) else [], next)
      && Awaiting(next, pend[1..], max)
      && (!f.fin ==> Completion(r, pend) == Completion(next, pend[1..]))
  {
    Assoc(r.buf, pend[0], Concat(pend[1..]));
    if f.fin {
      LastChunk(pend);
    }
  }

  lemma FirstFragment(f: Frame, m: Message, max: nat)
    requires ValidMessage(m, max)
    requires f == Frame(|m.chunks| == 1, m.opcode, m.chunks[0])
    ensures var next := if f.fin then IDLE else Reasm(m.opcode, f.payload);
      && OnFrame(f, IDLE, max) == Continue(if f.fin then DeliveryOf(m) else [], next)
      && Awaiting(next, m.chunks[1..], max)
      && (!f.fin ==> Completion(next, m.chunks[1..]) == DeliveryOf(m))
  {
    NilLeft(f.payload);
    if f.fin {
      LastChunk(m.chunks);
    }
  }

  /** The rest of a run is read without incident and yields these messages and pings. */
  predicate Yields(p: Progress, deliveries: seq<Event>, pings: seq<bytes>) {
    !p.stopped && p.next == IDLE && Deliveries(p.events) == deliveries && PingEvents(p.events) == pings
  }

  lemma YieldsAfter(fs: seq<Frame>, r: Reasm, max: nat, deliveries: seq<Event>, pings: seq<bytes>)
    requires |fs| > 0 && OnFrame(fs[0], r, max).Continue?
    requires Yields(OnFrames(fs[1..], OnFrame(fs[0], r, max).next, max), deliveries, pings)
    ensures var es := OnFrame(fs[0], r, max).events;
      Yields(OnFrames(fs, r, max), Deliveries(es) + deliveries, PingEvents(es) + pings)
  {
    var reaction := OnFrame(fs[0], r, max);
    var rest := OnFrames(fs[1..], reaction.next, max).events;
    FlatMapAppend(DeliverOnly, reaction.events, rest);
    FlatMapAppend(PingOnly, reaction.events, rest);
  }

  lemma {:induction false} ConversationFrom(fs: seq<Frame>, r: Reasm, pend: seq<bytes>, msgs: seq<Message>, max: nat)
    requires AllLegal(fs) && NoClose(fs) && ValidMessages(msgs, max) && Awaiting(r, pend, max)
    requires DataFrames(fs) == MoreFrames(pend) + Flat(msgs)
    ensures Yields(OnFrames(fs, r, max), Completion(r, pend) + Delivered(msgs), Pings(fs))
  {
    if |fs| == 0 {
      assert |MoreFrames(pend)| == 0 && |Flat(msgs)| == 0;
      assert |msgs| > 0 ==> ValidMessage(msgs[0], max);
    } else if IsControl(fs[0].opcode) {
      NilLeft(DataFrames(fs[1..]));
      ConversationFrom(fs[1..], r, pend, msgs, max);
      ControlStep(fs, r, max, Completion(r, pend) + Delivered(msgs));
    } else {
      var next, more, msgs' := DataStep(fs, r, pend, msgs, max);
      ConversationFrom(fs[1..], next, more, msgs', max);
      YieldsAfter(fs, r, max, Completion(next, more) + Delivered(msgs'), Pings(fs[1..]));
    }
  }

  lemma ControlStep(fs: seq<Frame>, r: Reasm, max: nat, deliveries: seq<Event>)
    requires |fs| > 0 && IsControl(fs[0].opcode) && Legal(fs[0]) && fs[0].opcode != CLOSE
    requires Yields(OnFrames(fs[1..], r, max), deliveries, Pings(fs[1..]))
    ensures Yields(OnFrames(fs, r, max), deliveries, Pings(fs))
  {
    var e := OnFrame(fs[0], r, max).events[0];
    FlatMapOne(DeliverOnly, e);
    FlatMapOne(PingOnly, e);
    YieldsAfter(fs, r, max, deliveries, Pings(fs[1..]));
  }

  /** A data frame is one fragment of the conversation: what it does, and what is left of the conversation. */
  lemma DataStep(fs: seq<Frame>, r: Reasm, pend: seq<bytes>, msgs: seq<Message>, max: nat)
      returns (next: Reasm, more: seq<bytes>, msgs': seq<Message>)
    requires |fs| > 0 && Legal(fs[0]) && !IsControl(fs[0].opcode)
    requires ValidMessages(msgs, max) && Awaiting(r, pend, max)
    requires DataFrames(fs) == MoreFrames(pend) + Flat(msgs)
    ensures ValidMessages(msgs', max) && Awaiting(next, more, max)
    ensures DataFrames(fs[1..]) == MoreFrames(more) + Flat(msgs')
    ensures OnFrame(fs[0], r, max).Continue? && OnFrame(fs[0], r, max).next == next
    ensures Deliveries(OnFrame(fs[0], r, max).events) + (Completion(next, more) + Delivered(msgs'))
         == Completion(r, pend) + Delivered(msgs)
    ensures PingEvents(OnFrame(fs[0], r, max).events) + Pings(fs[1..]) == Pings(fs)
  {
    var f := fs[0];
    assert DataFrames(fs)[0] == f && DataFrames(fs[1..]) == DataFrames(fs)[1..];
    next := OnFrame(f, r, max).next;
    if |pend| == 0 {
      assert |msgs| > 0 && ValidMessage(msgs[0], max);
      more, msgs' := msgs[0].chunks[1..], msgs[1..];
      FirstOfFlat(DataFrames(fs), f, msgs);
      FirstFragment(f, msgs[0], max);
    } else {
      more, msgs' := pend[1..], msgs;
      FirstOfMore(DataFrames(fs), f, pend, Flat(msgs));
      NextFragment(f, r, pend, max);
    }
    OneDelivery(OnFrame(f, r, max).events);
  }

  lemma FirstOfFlat(fs: seq<Frame>, f: Frame, msgs: seq<Message>)
    requires |msgs| > 0 && |msgs[0].chunks| > 0 && fs == Flat(msgs) && |fs| > 0 && fs[0] == f
    ensures f == Frame(|msgs[0].chunks| == 1, msgs[0].opcode, msgs[0].chunks[0])
    ensures fs[1..] == MoreFrames(msgs[0].chunks[1..]) + Flat(msgs[1..])
  {
    var m := msgs[0];
    FirstAndRest(Frame(|m.chunks| == 1, m.opcode, m.chunks[0]), MoreFrames(m.chunks[1..]), Flat(msgs[1..]));
  }

  lemma FirstOfMore(fs: seq<Frame>, f: Frame, pend: seq<bytes>, rest: seq<Frame>)
    requires |pend| > 0 && fs == MoreFrames(pend) + rest && |fs| > 0 && fs[0] == f
    ensures f == Frame(|pend| == 1, CONTINUATION, pend[0])
    ensures fs[1..] == MoreFrames(pend[1..]) + rest
  {
    FirstAndRest(Frame(|pend| == 1, CONTINUATION, pend[0]), MoreFrames(pend[1..]), rest);
  }

  lemma OneDelivery(es: seq<Event>)
    requires |es| <= 1 && (|es| == 1 ==> es[0].Deliver?)
    ensures Deliveries(es) == es && |PingEvents(es)| == 0
  {
    if |es| == 1 {
      assert es == [es[0]];
      FlatMapOne(DeliverOnly, es[0]);
      FlatMapOne(PingOnly, es[0]);
    }
  }

  /** Completeness: every legal conversation within the size limit is delivered message by message,
      in order and whole, wherever control frames fall between the fragments. */
  lemma ConversationDelivered(fs: seq<Frame>, forms: seq<LenForm>, msgs: seq<Message>, max: nat)
    requires |fs| == |forms| && AllLegal(fs) && NoClose(fs) && ValidMessages(msgs, max)
    requires forall i | 0 <= i < |fs| :: Fits(|fs[i].payload|, forms[i])
    requires DataFrames(fs) == Flat(msgs)
    ensures Decode(ServerStream(fs, forms), IDLE, max) == OnFrames(fs, IDLE, max).events
    ensures Deliveries(Decode(ServerStream(fs, forms), IDLE, max)) == Delivered(msgs)
    ensures PingEvents(Decode(ServerStream(fs, forms), IDLE, max)) == Pings(fs)
    ensures !OnFrames(fs, IDLE, max).stopped
  {
    NilLeft(Flat(msgs));
    NilLeft(Delivered(msgs));
    ConversationFrom(fs, IDLE, [], msgs, max);
    DecodeOfFrames(fs, forms, [], IDLE, max);
    NilRight(ServerStream(fs, forms));
    NilRight(OnFrames(fs, IDLE, max).events);
  }

  // ----- Soundness: whatever is delivered was a message of the conversation -----

  /** The frames of a message that has begun but not ended. */
  function OpenFrames(opcode: nat, chunks: seq<bytes>): seq<Frame> {
    if |chunks| == 0 then [] else
    var last := Frame(false, if |chunks| == 1 then opcode else CONTINUATION, chunks[|chunks| - 1]);
    OpenFrames(opcode, chunks[..|chunks| - 1]) + [last]
  }

  lemma {:induction false} OpenIsMore(opcode: nat, chunks: seq<bytes>, pend: seq<bytes>)
    requires |chunks| > 0 && |pend| > 0
    ensures OpenFrames(opcode, chunks) + MoreFrames(pend) == MessageFrames(Message(opcode, chunks + pend))
  {
    var init, c := chunks[..|chunks| - 1], chunks[|chunks| - 1];
    var all := chunks + pend;
    if |init| == 0 {
      assert all[1..] == pend && all[0] == c;
      assert OpenFrames(opcode, chunks) == [Frame(false, opcode, c)];
    } else {
      assert all == init + ([c] + pend);
      OpenIsMore(opcode, init, [c] + pend);
      assert ([c] + pend)[1..] == pend;
      Assoc(OpenFrames(opcode, init), [Frame(false, CONTINUATION, c)], MoreFrames(pend));
    }
  }

  /** `fs` is a run of messages followed by the beginning of one more. */
  predicate Explains(fs: seq<Frame>, msgs: seq<Message>, open: seq<bytes>, p: Progress, max: nat) {
    && ValidMessages(msgs, max)
    && DataFrames(fs) == Flat(msgs) + OpenFrames(p.next.opcode, open)
    && Deliveries(p.events) == Delivered(msgs)
    && PingEvents(p.events) == Pings(fs)
    && Holds(p.next, open, max)
  }

  /** The receiver holds the fragments `open` of a message under way. */
  predicate Holds(r: Reasm, open: seq<bytes>, max: nat) {
    && r.buf == Concat(open) && |r.buf| <= max
    && (if |open| == 0 then r.opcode == 0 else r.opcode == TEXT || r.opcode == BINARY)
  }

  /** Soundness: as long as the receiver has not given up, what it delivered is exactly the complete
      messages of the frames read, none longer than the limit, and what it holds is the open one. */
  lemma {:induction false} FramesExplained(fs: seq<Frame>, max: nat) returns (msgs: seq<Message>, open: seq<bytes>)
    requires AllLegal(fs) && !OnFrames(fs, IDLE, max).stopped
    ensures Explains(fs, msgs, open, OnFrames(fs, IDLE, max), max)
  {
    if |fs| == 0 {
      msgs, open := [], [];
    } else {
      var init, f := fs[..|fs| - 1], fs[|fs| - 1];
      assert fs == init + [f];
      NotStoppedEarlier(init, f, IDLE, max);
      msgs, open := FramesExplained(init, max);
      OnFramesThenOne(init, f, IDLE, max);
      msgs, open := ExplainNext(init, f, msgs, open, OnFrames(init, IDLE, max), max);
    }
  }

  lemma ReactionShows(f: Frame, r: Reasm, max: nat)
    requires Legal(f) && OnFrame(f, r, max).Continue?
    ensures var es := OnFrame(f, r, max).events;
      && Deliveries(es) == (if IsControl(f.opcode) then [] else es)
      && PingEvents(es) == PingOf(f)
  {
    var es := OnFrame(f, r, max).events;
    if |es| > 0 {
      assert es == [es[0]];
      FlatMapOne(DeliverOnly, es[0]);
      FlatMapOne(PingOnly, es[0]);
    }
  }

  lemma ExplainNext(fs: seq<Frame>, f: Frame, msgs: seq<Message>, open: seq<bytes>, p: Progress, max: nat)
      returns (msgs': seq<Message>, open': seq<bytes>)
    requires Legal(f) && Explains(fs, msgs, open, p, max) && OnFrame(f, p.next, max).Continue?
    ensures var reaction := OnFrame(f, p.next, max);
      Explains(fs + [f], msgs', open', Progress(p.events + reaction.events, reaction.next, false), max)
  {
    var es := OnFrame(f, p.next, max).events;
    ReactionShows(f, p.next, max);
    FlatMapSnoc(DataOf, fs, f);
    FlatMapSnoc(PingOf, fs, f);
    FlatMapAppend(DeliverOnly, p.events, es);
    FlatMapAppend(PingOnly, p.events, es);
    if IsControl(f.opcode) {
      msgs', open' := msgs, open;
    } else {
      msgs', open' := ExplainData(f, msgs, open, p.next, max);
    }
  }

  lemma ExplainData(f: Frame, msgs: seq<Message>, open: seq<bytes>, r: Reasm, max: nat)
      returns (msgs': seq<Message>, open': seq<bytes>)
    requires Legal(f) && !IsControl(f.opcode) && Holds(r, open, max) && OnFrame(f, r, max).Continue?
    requires ValidMessages(msgs, max)
    ensures ValidMessages(msgs', max) && Holds(OnFrame(f, r, max).next, open', max)
    ensures Flat(msgs') + OpenFrames(OnFrame(f, r, max).next.opcode, open')
         == Flat(msgs) + OpenFrames(r.opcode, open) + [f]
    ensures Delivered(msgs') == Delivered(msgs) + OnFrame(f, r, max).events
  {
    if f.fin {
      open' := [];
      msgs' := ExplainFinal(f, msgs, open, r, max);
      NilRight(Flat(msgs'));
    } else {
      msgs', open' := msgs, open + [f.payload];
      ExplainFragment(f, open, r, max);
      Assoc(Flat(msgs), OpenFrames(r.opcode, open), [f]);
      NilRight(Delivered(msgs));
    }
  }

  lemma ExplainFragment(f: Frame, open: seq<bytes>, r: Reasm, max: nat)
    requires Legal(f) && !IsControl(f.opcode) && !f.fin && Holds(r, open, max) && OnFrame(f, r, max).Continue?
    ensures var next := OnFrame(f, r, max).next;
      && Holds(next, open + [f.payload], max)
      && OpenFrames(next.opcode, open + [f.payload]) == OpenFrames(r.opcode, open) + [f]
  {
    ConcatSnoc(open, f.payload);
    assert (open + [f.payload])[..|open|] == open;
  }

  lemma ExplainFinal(f: Frame, msgs: seq<Message>, open: seq<bytes>, r: Reasm, max: nat)
      returns (msgs': seq<Message>)
    requires Legal(f) && !IsControl(f.opcode) && f.fin && Holds(r, open, max) && OnFrame(f, r, max).Continue?
    requires ValidMessages(msgs, max)
    ensures ValidMessages(msgs', max)
    ensures Flat(msgs') == Flat(msgs) + OpenFrames(r.opcode, open) + [f]
    ensures Delivered(msgs') == Delivered(msgs) + OnFrame(f, r, max).events
    ensures Holds(OnFrame(f, r, max).next, [], max)
  {
    var m := Message(if |open| == 0 then f.opcode else r.opcode, open + [f.payload]);
    ConcatSnoc(open, f.payload);
    NilLeft(f.payload);
    assert OpenFrames(r.opcode, open) + [f] == MessageFrames(m) by {
      if |open| == 0 {
        assert m.chunks[1..] == [];
      } else {
        assert MoreFrames([f.payload]) == [f] by {
          assert MoreFrames([f.payload][1..]) == [];
        }
        OpenIsMore(r.opcode, open, [f.payload]);
      }
    }
    msgs' := msgs + [m];
    FlatMapSnoc(MessageFrames, msgs, m);
    FlatMapSnoc(DeliveryOf, msgs, m);
    Assoc(Flat(msgs), OpenFrames(r.opcode, open), [f]);
  }

  lemma {:induction false} NotStoppedEarlier(fs: seq<Frame>, f: Frame, r: Reasm, max: nat)
    requires !OnFrames(fs + [f], r, max).stopped
    ensures !OnFrames(fs, r, max).stopped
    ensures OnFrame(f, OnFrames(fs, r, max).next, max).Continue?
  {
    if |fs| > 0 {
      assert (fs + [f])[1..] == fs[1..] + [f];
      NotStoppedEarlier(fs[1..], f, OnFrame(fs[0], r, max).next, max);
    }
  }
}
