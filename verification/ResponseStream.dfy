/** A streamed response: what curl hands over, block by block, becomes a head, DATA chunks paid for with
    credit, and one terminal chunk. Every step runs on the loop thread, in any order. */
module ResponseStream {
  import opened Bytes
  import opened Seqs

  const REPLAY_CHUNK := 65536
  const AUTO_CHUNK := 131072
  const DEFAULT_MIN_LENGTH := 1048576

  /** A block curl delivers, and what the content decoder makes of it. */
  datatype Block = Block(raw: bytes, decoded: bytes, bad: bool)

  datatype Cached = Gone | Stored(body: bytes)

  /** Everything the peer, the decoder, the cache and the client's settings decide.
      `notModified` is a 304 that answers a revalidation; `contentLength` is -1 when unknown. */
  datatype Config = Config(
    blocks: seq<Block>,
    decoding: bool,
    tail: bytes,
    tailBad: bool,
    contentLength: int,
    chunkBytes: int,
    minLength: int,
    maxBytes: int,
    notModified: bool,
    cached: Cached)

  datatype Emitted = Head(ok: bool) | Data(payload: bytes) | Terminal(ok: bool)

  /** `next` is the block curl will deliver, again if it was refused with a pause. `granted`, `accepted`,
      `tailTaken` and `replayed` only record. */
  datatype State = State(
    next: nat,
    ended: bool,
    headSent: bool,
    completed: bool,
    cancelled: bool,
    credits: int,
    writePaused: bool,
    coalesceBuf: bytes,
    coalesceTarget: nat,
    bodyBytes: nat,
    emitted: seq<Emitted>,
    granted: nat,
    accepted: bytes,
    tailTaken: bool,
    replayed: bool)

  function Init(credits: nat): State {
    State(0, false, false, false, false, credits, false, [], 0, 0, [], credits, [], false, false)
  }

  datatype Step =
    | HeadersEnd
    | Deliver(aged: bool)
    | Grant(count: int)
    | FlushAged
    | Cancel
    | Fail
    | Finish(ok: bool)

  /** How large coalesced chunks are to be; 0 means no coalescing. A decoded body has no known length. */
  function Target(c: Config): (n: nat)
    ensures c.decoding ==> n == 0
  {
    var length := if c.decoding then -1 else c.contentLength;
    var least := if c.minLength >= 0 then c.minLength else DEFAULT_MIN_LENGTH;
    if c.chunkBytes < 0 || length < least then 0
    else if c.chunkBytes > 0 then c.chunkBytes else AUTO_CHUNK
  }

  function EmitHead(c: Config, s: State): State {
    if s.headSent then s
    else s.(headSent := true, coalesceTarget := Target(c), emitted := s.emitted + [Head(true)])
  }

  function Flush(s: State): State {
    if |s.coalesceBuf| == 0 then s
    else s.(emitted := s.emitted + [Data(s.coalesceBuf)], credits := s.credits - 1, coalesceBuf := [])
  }

  function EmitTerminal(s: State, ok: bool): State {
    var t := Flush(s);
    t.(emitted := t.emitted + [Terminal(ok)])
  }

  function CompleteWithError(s: State): State {
    if s.completed then s else
    var t := s.(completed := true, ended := true);
    EmitTerminal(if t.headSent then t else t.(headSent := true, emitted := t.emitted + [Head(false)]), false)
  }

  function OutOf(c: Config, b: Block): bytes {
    if |b.raw| == 0 then [] else if c.decoding then b.decoded else b.raw
  }

  /** The end of `handleWrite`, for bytes that may be shown. */
  function Show(s: State, out: bytes, aged: bool): State {
    if |out| == 0 then s
    else if s.coalesceTarget > 0 then
      var t := s.(coalesceBuf := s.coalesceBuf + out);
      if |t.coalesceBuf| >= t.coalesceTarget || aged then Flush(t) else t
    else s.(emitted := s.emitted + [Data(out)], credits := s.credits - 1)
  }

  function Accept(c: Config, s: State, b: Block, aged: bool): State {
    var out := OutOf(c, b);
    var count := if c.maxBytes > 0 then s.bodyBytes + |out| else s.bodyBytes;
    if c.decoding && b.bad then CompleteWithError(s)
    else if c.maxBytes > 0 && count > c.maxBytes then CompleteWithError(s.(bodyBytes := count))
    else Show(s.(next := s.next + 1, bodyBytes := count, accepted := s.accepted + out), out, aged)
  }

  /** `handleWrite`. Curl delivers nothing while paused, and nothing more after a short count. */
  function WriteBlock(c: Config, s: State, aged: bool): State {
    if s.ended || s.writePaused || s.next >= |c.blocks| then s else
    var b := c.blocks[s.next];
    if |b.raw| == 0 then s.(next := s.next + 1)
    else if s.cancelled then s.(ended := true)
    else if c.notModified then s.(next := s.next + 1)
    else
      var t := EmitHead(c, s);
      if t.credits <= 0 then t.(writePaused := true) else Accept(c, t, b, aged)
  }

  /** `grantCredit`, and the unpause the engine makes of its answer. */
  function GrantTo(s: State, count: int): State {
    var more := if count > 0 then count else 0;
    var t := s.(credits := s.credits + more, granted := s.granted + more);
    if t.credits > 0 then t.(writePaused := false) else t
  }

  function Pieces(body: bytes): seq<Emitted>
    decreases |body|
  {
    if |body| == 0 then []
    else if |body| <= REPLAY_CHUNK then [Data(body)]
    else [Data(body[..REPLAY_CHUNK])] + Pieces(body[REPLAY_CHUNK..])
  }

  /** A stored body is what a 304 stands for. It is not held back by credit: the task is already complete. */
  function Replay(s: State, body: bytes): State {
    var pieces := Pieces(body);
    EmitTerminal(s.(headSent := true, completed := true, ended := true, replayed := true, accepted := body,
                    emitted := s.emitted + [Head(true)] + pieces, credits := s.credits - |pieces|), true)
  }

  function FinishBody(c: Config, s: State): State {
    var t := EmitHead(c, s);
    if c.decoding && c.tailBad then CompleteWithError(t) else
    var u := if c.decoding && |c.tail| > 0
             then t.(emitted := t.emitted + [Data(c.tail)], accepted := t.accepted + c.tail, tailTaken := true) else t;
    EmitTerminal(u.(completed := true, ended := true), true)
  }

  /** `finish`. Curl reports success only when it has delivered everything. */
  function FinishWith(c: Config, s: State, ok: bool): State {
    if s.completed || (ok && (s.next < |c.blocks| || s.writePaused)) then s
    else if s.cancelled || !ok then CompleteWithError(s)
    else if c.notModified && c.cached.Stored? then Replay(s, c.cached.body)
    else FinishBody(c, s)
  }

  function Apply(c: Config, s: State, step: Step): State {
    match step
    case HeadersEnd => if s.ended || c.notModified then s else EmitHead(c, s)
    case Deliver(aged) => WriteBlock(c, s, aged)
    case Grant(count) => GrantTo(s, count)
    case FlushAged => if s.credits <= 0 then s else Flush(s)
    case Cancel => s.(cancelled := true)
    case Fail => CompleteWithError(s)
    case Finish(ok) => FinishWith(c, s, ok)
  }

  function Run(c: Config, credits: nat, steps: seq<Step>): State {
    if |steps| == 0 then Init(credits)
    else Apply(c, Run(c, credits, steps[..|steps| - 1]), steps[|steps| - 1])
  }

  // ----- What every run keeps -----

  function PayloadOf(e: Emitted): bytes {
    if e.Data? then e.payload else []
  }

  function Payloads(emitted: seq<Emitted>): bytes {
    FlatMap(PayloadOf, emitted)
  }

  /** The body curl has handed over and the engine has not refused. */
  function Body(c: Config, n: nat): bytes
    requires n <= |c.blocks|
  {
    if n == 0 then [] else Body(c, n - 1) + OutOf(c, c.blocks[n - 1])
  }

  /** A head first, then DATA, then exactly one terminal chunk once completed. */
  predicate Shape(emitted: seq<Emitted>, headSent: bool, completed: bool) {
    && (headSent <==> |emitted| > 0)
    && (completed ==> |emitted| >= 2 && emitted[|emitted| - 1].Terminal?)
    && (|emitted| > 0 ==> emitted[0].Head?)
    && forall i | 0 < i < (if completed then |emitted| - 1 else |emitted|) :: emitted[i].Data?
  }

  function DataCount(s: State): int {
    if |s.emitted| == 0 then 0 else if s.completed then |s.emitted| - 2 else |s.emitted| - 1
  }

  predicate ContentInv(c: Config, s: State) {
    && s.next <= |c.blocks|
    && Payloads(s.emitted) + s.coalesceBuf == s.accepted
    && (!s.replayed && !c.notModified ==>
          s.accepted == Body(c, s.next) + (if s.tailTaken then c.tail else []))
    && (s.tailTaken ==> c.decoding && s.completed)
    && (s.completed || !s.headSent ==> |s.coalesceBuf| == 0)
    && (c.notModified && !s.completed ==> !s.headSent)
    && (s.replayed ==> c.notModified && s.completed)
  }

  predicate CreditInv(c: Config, s: State) {
    && (!s.completed ==> s.credits == s.granted - DataCount(s) && s.credits >= 0 && !s.tailTaken)
    && (|s.coalesceBuf| > 0 ==> s.credits > 0)
    && (c.decoding ==> s.coalesceTarget == 0)
    && (s.coalesceTarget == 0 ==> |s.coalesceBuf| == 0)
    && (s.completed && !s.replayed ==> DataCount(s) <= s.granted + (if s.tailTaken then 1 else 0))
    && (s.writePaused && !s.completed ==> s.credits <= 0)
    && (s.completed ==> s.ended)
  }

  predicate Inv(c: Config, s: State) {
    Shape(s.emitted, s.headSent, s.completed) && ContentInv(c, s) && CreditInv(c, s)
  }

  lemma PayloadsSnoc(emitted: seq<Emitted>, e: Emitted)
    ensures Payloads(emitted + [e]) == Payloads(emitted) + PayloadOf(e)
  {
    FlatMapSnoc(PayloadOf, emitted, e);
  }

  lemma EmitHeadKeeps(c: Config, s: State)
    requires Inv(c, s) && !c.notModified
    ensures Inv(c, EmitHead(c, s))
  {
    PayloadsSnoc(s.emitted, Head(true));
    NilRight(Payloads(s.emitted));
  }

  lemma FlushKeeps(c: Config, s: State)
    requires Inv(c, s) && !s.completed
    ensures Inv(c, Flush(s)) && |Flush(s).coalesceBuf| == 0
  {
    PayloadsSnoc(s.emitted, Data(s.coalesceBuf));
    NilRight(s.accepted);
  }

  /** The last chunk: everything accepted has been shown before it. */
  lemma TerminalKeeps(c: Config, s: State, ok: bool)
    requires Inv(c, s) && !s.completed && s.headSent && !c.notModified
    ensures Inv(c, EmitTerminal(s.(completed := true, ended := true), ok))
  {
    FlushKeeps(c, s);
    PayloadsSnoc(Flush(s).emitted, Terminal(ok));
    NilRight(Payloads(Flush(s).emitted));
  }

  lemma CompleteWithErrorKeeps(c: Config, s: State)
    requires Inv(c, s)
    ensures Inv(c, CompleteWithError(s))
  {
    if !s.completed {
      if s.headSent {
        TerminalKeeps(c, s, false);
      } else {
        PayloadsSnoc([], Head(false));
        PayloadsSnoc([Head(false)], Terminal(false));
        assert s.emitted == [] && [] + [Head(false)] == [Head(false)];
      }
    }
  }

  lemma ShowKeeps(c: Config, s: State, b: Block, aged: bool)
    requires Inv(c, s) && !s.completed && s.headSent && !c.notModified && s.credits > 0
    requires s.next < |c.blocks| && b == c.blocks[s.next] && !s.writePaused
    ensures var out := OutOf(c, b);
      Inv(c, Show(s.(next := s.next + 1, accepted := s.accepted + out), out, aged))
  {
    var out := OutOf(c, b);
    var t := s.(next := s.next + 1, accepted := s.accepted + out);
    NilRight(s.accepted);
    NilRight(Body(c, s.next));
    NilRight(Body(c, s.next + 1));
    Assoc(Payloads(s.emitted), s.coalesceBuf, out);
    if s.coalesceTarget > 0 {
      FlushKeeps(c, t.(coalesceBuf := t.coalesceBuf + out));
    } else {
      PayloadsSnoc(s.emitted, Data(out));
      NilRight(Payloads(s.emitted));
      NilRight(Payloads(s.emitted) + out);
    }
  }

  lemma CountsAreFree(c: Config, s: State, n: nat)
    requires Inv(c, s)
    ensures Inv(c, s.(bodyBytes := n))
  {
  }

  lemma AcceptKeeps(c: Config, s: State, aged: bool)
    requires Inv(c, s) && !s.completed && s.headSent && !c.notModified && s.credits > 0
    requires s.next < |c.blocks| && !s.writePaused
    ensures Inv(c, Accept(c, s, c.blocks[s.next], aged))
  {
    hide Inv, Show, CompleteWithError, OutOf;
    var b := c.blocks[s.next];
    var count := if c.maxBytes > 0 then s.bodyBytes + |OutOf(c, b)| else s.bodyBytes;
    CountsAreFree(c, s, count);
    CompleteWithErrorKeeps(c, s);
    CompleteWithErrorKeeps(c, s.(bodyBytes := count));
    ShowKeeps(c, s.(bodyBytes := count), b, aged);
  }

  lemma SkipKeeps(c: Config, s: State)
    requires Inv(c, s) && s.next < |c.blocks| && !s.completed
    requires c.notModified || OutOf(c, c.blocks[s.next]) == []
    ensures Inv(c, s.(next := s.next + 1))
  {
    if !c.notModified {
      NilRight(Body(c, s.next));
    }
  }

  lemma WriteKeeps(c: Config, s: State, aged: bool)
    requires Inv(c, s)
    ensures Inv(c, WriteBlock(c, s, aged))
  {
    if !s.ended && !s.writePaused && s.next < |c.blocks| {
      var b := c.blocks[s.next];
      assert !s.completed;
      hide Inv, Accept;
      if |b.raw| == 0 || (!s.cancelled && c.notModified) {
        SkipKeeps(c, s);
      } else if s.cancelled {
        EndedKeeps(c, s);
      } else {
        EmitHeadKeeps(c, s);
        var t := EmitHead(c, s);
        if t.credits <= 0 {
          PauseKeeps(c, t);
        } else {
          AcceptKeeps(c, t, aged);
        }
      }
    }
  }

  lemma EndedKeeps(c: Config, s: State)
    requires Inv(c, s)
    ensures Inv(c, s.(ended := true))
  {
  }

  lemma PauseKeeps(c: Config, s: State)
    requires Inv(c, s) && s.credits <= 0
    ensures Inv(c, s.(writePaused := true))
  {
  }

  lemma GrantKeeps(c: Config, s: State, count: int)
    requires Inv(c, s)
    ensures Inv(c, GrantTo(s, count))
  {
  }

  lemma {:induction false} PiecesAreBody(body: bytes)
    ensures Payloads(Pieces(body)) == body
    ensures forall i | 0 <= i < |Pieces(body)| :: Pieces(body)[i].Data?
    decreases |body|
  {
    if |body| == 0 {
    } else if |body| <= REPLAY_CHUNK {
      FlatMapOne(PayloadOf, Data(body));
    } else {
      PiecesAreBody(body[REPLAY_CHUNK..]);
      FlatMapAppend(PayloadOf, [Data(body[..REPLAY_CHUNK])], Pieces(body[REPLAY_CHUNK..]));
      FlatMapOne(PayloadOf, Data(body[..REPLAY_CHUNK]));
      assert body == body[..REPLAY_CHUNK] + body[REPLAY_CHUNK..];
    }
  }

  lemma ReplayKeeps(c: Config, s: State, body: bytes)
    requires Inv(c, s) && !s.completed && c.notModified
    ensures Inv(c, Replay(s, body))
  {
    assert s.emitted == [];
    var pieces := Pieces(body);
    PiecesAreBody(body);
    FlatMapAppend(PayloadOf, [Head(true)], pieces);
    FlatMapOne(PayloadOf, Head(true));
    NilLeft(body);
    NilLeft([Head(true)]);
    PayloadsSnoc([Head(true)] + pieces, Terminal(true));
    NilRight(body);
  }

  /** A decoder's last bytes come after everything else, because a decoded body is never coalesced. */
  lemma TailKeeps(c: Config, s: State)
    requires Inv(c, s) && !s.completed && s.headSent && !c.notModified && c.decoding
    ensures Inv(c, EmitTerminal(s.(emitted := s.emitted + [Data(c.tail)], accepted := s.accepted + c.tail,
                                   tailTaken := true, completed := true, ended := true), true))
  {
    PayloadsSnoc(s.emitted, Data(c.tail));
    PayloadsSnoc(s.emitted + [Data(c.tail)], Terminal(true));
    assert s.coalesceBuf == [];
    NilRight(Payloads(s.emitted));
    NilRight(Payloads(s.emitted) + c.tail);
    NilRight(Body(c, s.next));
  }

  /** A 304 whose stored entry is gone is shown as it is. */
  lemma BareKeeps(c: Config, s: State)
    requires Inv(c, s) && !s.completed && c.notModified
    ensures Inv(c, FinishBody(c, s))
  {
    assert s.emitted == [] && s.coalesceBuf == [];
    PayloadsSnoc([], Head(true));
    assert [] + [Head(true)] == [Head(true)];
    var t := EmitHead(c, s);
    assert t.emitted == [Head(true)];
    if c.decoding && c.tailBad {
      PayloadsSnoc([Head(true)], Terminal(false));
    } else if c.decoding && |c.tail| > 0 {
      BareTailKeeps(c, t);
    } else {
      PayloadsSnoc([Head(true)], Terminal(true));
    }
  }

  lemma BareTailKeeps(c: Config, t: State)
    requires c.notModified && c.decoding && t.emitted == [Head(true)] && t.headSent && !t.replayed
    requires t.coalesceBuf == [] && t.accepted == [] && t.next <= |c.blocks| && t.coalesceTarget == 0
    ensures Inv(c, EmitTerminal(t.(emitted := t.emitted + [Data(c.tail)], accepted := t.accepted + c.tail, tailTaken := true,
                                   completed := true, ended := true), true))
  {
    PayloadsSnoc([], Head(true));
    assert [] + [Head(true)] == [Head(true)];
    PayloadsSnoc([Head(true)], Data(c.tail));
    PayloadsSnoc([Head(true)] + [Data(c.tail)], Terminal(true));
    NilLeft(c.tail);
    NilRight(c.tail);
  }

  lemma FinishBodyKeeps(c: Config, s: State)
    requires Inv(c, s) && !s.completed && !c.notModified
    ensures Inv(c, FinishBody(c, s))
  {
    EmitHeadKeeps(c, s);
    var t := EmitHead(c, s);
    hide Inv, CompleteWithError;
    CompleteWithErrorKeeps(c, t);
    if c.decoding && |c.tail| > 0 {
      TailKeeps(c, t);
    } else {
      TerminalKeeps(c, t, true);
    }
  }

  lemma FinishKeeps(c: Config, s: State, ok: bool)
    requires Inv(c, s)
    ensures Inv(c, FinishWith(c, s, ok))
  {
    hide Inv, CompleteWithError, FinishBody, Replay;
    if !s.completed {
      CompleteWithErrorKeeps(c, s);
      if c.notModified {
        BareKeeps(c, s);
        if c.cached.Stored? {
          ReplayKeeps(c, s, c.cached.body);
        }
      } else {
        FinishBodyKeeps(c, s);
      }
    }
  }

  lemma StepKeepsInv(c: Config, s: State, step: Step)
    requires Inv(c, s)
    ensures Inv(c, Apply(c, s, step))
  {
    match step {
      case HeadersEnd =>
        if !c.notModified {
          EmitHeadKeeps(c, s);
        }
      case Deliver(aged) => WriteKeeps(c, s, aged);
      case Grant(count) => GrantKeeps(c, s, count);
      case FlushAged =>
        if s.completed {
          assert Flush(s) == s;
        } else {
          FlushKeeps(c, s);
        }
      case Cancel => CancelKeeps(c, s);
      case Fail => CompleteWithErrorKeeps(c, s);
      case Finish(ok) => FinishKeeps(c, s, ok);
    }
    hide Inv, WriteBlock, FinishWith, CompleteWithError, EmitHead, Flush, GrantTo;
  }

  lemma CancelKeeps(c: Config, s: State)
    requires Inv(c, s)
    ensures Inv(c, s.(cancelled := true))
  {
  }

  lemma {:induction false} RunKeepsInv(c: Config, credits: nat, steps: seq<Step>)
    ensures Inv(c, Run(c, credits, steps))
  {
    hide Apply;
    if |steps| > 0 {
      RunKeepsInv(c, credits, steps[..|steps| - 1]);
      StepKeepsInv(c, Run(c, credits, steps[..|steps| - 1]), steps[|steps| - 1]);
    }
  }

  // ----- The main results -----

  /** In every reachable state: the head comes first, then DATA, then exactly one terminal chunk if the
      request is complete; and the DATA payloads, followed by what coalescing still holds, are exactly the
      blocks curl has handed over, each once, however often it was refused with a pause, whatever the
      coalescing and whenever it was flushed. */
  lemma StreamedInOrder(c: Config, credits: nat, steps: seq<Step>)
    ensures var s := Run(c, credits, steps);
      && Shape(s.emitted, s.headSent, s.completed) && s.next <= |c.blocks|
      && (!c.notModified ==>
            Payloads(s.emitted) + s.coalesceBuf == Body(c, s.next) + (if s.tailTaken then c.tail else []))
      && (s.completed ==> |s.coalesceBuf| == 0)
  {
    RunKeepsInv(c, credits, steps);
  }

  predicate Succeeded(s: State) {
    |s.emitted| > 0 && s.emitted[|s.emitted| - 1] == Terminal(true)
  }

  /** The whole of what the caller is to receive. */
  function Whole(c: Config): bytes {
    if c.notModified && c.cached.Stored? then c.cached.body
    else (if c.notModified then [] else Body(c, |c.blocks|)) + (if c.decoding then c.tail else [])
  }

  predicate WholeInv(c: Config, s: State) {
    Succeeded(s) ==> s.completed && s.accepted == Whole(c)
  }

  lemma ErrorIsNoSuccess(s: State)
    requires !s.completed
    ensures !Succeeded(CompleteWithError(s))
  {
  }

  lemma StepKeepsWhole(c: Config, s: State, step: Step)
    requires Inv(c, s) && WholeInv(c, s)
    ensures WholeInv(c, Apply(c, s, step))
  {
    if s.completed {
      CompletedStays(c, s, step);
    } else {
      NotYetSucceeded(s);
      hide Inv, WriteBlock, FinishWith, CompleteWithError;
      match step {
        case Finish(ok) => FinishIsWhole(c, s, ok);
        case Fail => ErrorIsNoSuccess(s);
        case Deliver(aged) => DeliverIsNoSuccess(c, s, aged);
        case _ =>
      }
    }
  }

  lemma NotYetSucceeded(s: State)
    requires Shape(s.emitted, s.headSent, s.completed) && !s.completed
    ensures !Succeeded(s)
  {
  }

  lemma CompletedStays(c: Config, s: State, step: Step)
    requires Inv(c, s) && s.completed
    ensures var t := Apply(c, s, step); t.emitted == s.emitted && t.completed && t.accepted == s.accepted
  {
  }

  lemma DeliverIsNoSuccess(c: Config, s: State, aged: bool)
    requires Shape(s.emitted, s.headSent, s.completed) && !s.completed
    ensures !Succeeded(WriteBlock(c, s, aged))
  {
    hide Payloads, CompleteWithError, Target, OutOf;
    NotYetSucceeded(s);
    if s.next < |c.blocks| {
      var t := EmitHead(c, s);
      var b := c.blocks[s.next];
      var count := if c.maxBytes > 0 then t.bodyBytes + |OutOf(c, b)| else t.bodyBytes;
      ErrorIsNoSuccess(t);
      ErrorIsNoSuccess(t.(bodyBytes := count));
    }
  }

  lemma FinishIsWhole(c: Config, s: State, ok: bool)
    requires Inv(c, s) && !s.completed
    ensures WholeInv(c, FinishWith(c, s, ok))
  {
    NotYetSucceeded(s);
    ErrorIsNoSuccess(s);
    ErrorIsNoSuccess(EmitHead(c, s));
    NilRight(Body(c, s.next));
    assert c.notModified ==> s.emitted == [] && s.coalesceBuf == [] && s.accepted == [];
    assert !c.notModified ==> s.accepted == Body(c, s.next);
    NilLeft(c.tail);
    hide Inv, CompleteWithError, Payloads, Body;
    if !c.decoding || |c.tail| == 0 {
      assert c.decoding ==> c.tail == [];
      NilRight(s.accepted);
    }
  }

  lemma {:induction false} RunKeepsWhole(c: Config, credits: nat, steps: seq<Step>)
    ensures WholeInv(c, Run(c, credits, steps))
  {
    hide Apply;
    if |steps| > 0 {
      RunKeepsWhole(c, credits, steps[..|steps| - 1]);
      RunKeepsInv(c, credits, steps[..|steps| - 1]);
      StepKeepsWhole(c, Run(c, credits, steps[..|steps| - 1]), steps[|steps| - 1]);
    }
  }

  /** A stream that ends in success has carried the whole body and nothing else. */
  lemma SuccessIsWhole(c: Config, credits: nat, steps: seq<Step>)
    requires Succeeded(Run(c, credits, steps))
    ensures Payloads(Run(c, credits, steps).emitted) == Whole(c)
  {
    RunKeepsInv(c, credits, steps);
    RunKeepsWhole(c, credits, steps);
    NilRight(Payloads(Run(c, credits, steps).emitted));
  }

  /** Coalescing cannot be told from the bytes: two runs of the same response under any two chunk settings
      and any schedules of credit, pauses and aged flushes carry the same body if both succeed. */
  lemma CoalescingIsInvisible(c: Config, chunkBytes: int, minLength: int, credits: nat, steps: seq<Step>,
                              credits': nat, steps': seq<Step>)
    requires var c' := c.(chunkBytes := chunkBytes, minLength := minLength);
      Succeeded(Run(c, credits, steps)) && Succeeded(Run(c', credits', steps'))
    ensures var c' := c.(chunkBytes := chunkBytes, minLength := minLength);
      Payloads(Run(c, credits, steps).emitted) == Payloads(Run(c', credits', steps').emitted)
  {
    var c' := c.(chunkBytes := chunkBytes, minLength := minLength);
    SuccessIsWhole(c, credits, steps);
    SuccessIsWhole(c', credits', steps');
    SameBody(c, c', |c.blocks|);
  }

  lemma {:induction false} SameBody(c: Config, c': Config, n: nat)
    requires c'.blocks == c.blocks && c'.decoding == c.decoding && n <= |c.blocks|
    ensures Body(c', n) == Body(c, n)
  {
    if n > 0 {
      SameBody(c, c', n - 1);
    }
  }

  /** Until it completes, a stream never shows more DATA chunks than Dart has granted, and a transfer is
      paused only for want of credit. At completion a decoder's last bytes may go one beyond; only the
      replay of a stored body is not held back at all. */
  lemma CreditIsKept(c: Config, credits: nat, steps: seq<Step>)
    ensures var s := Run(c, credits, steps);
      && (!s.completed ==> DataCount(s) <= s.granted && s.credits == s.granted - DataCount(s))
      && (!s.completed && s.writePaused ==> s.credits <= 0)
      && (s.completed && !s.replayed ==> DataCount(s) <= s.granted + (if c.decoding then 1 else 0))
      && (|s.coalesceBuf| > 0 ==> s.credits > 0)
  {
    RunKeepsInv(c, credits, steps);
  }
}
