/** The session object itself: the fields and loops of the source, proved step for step against the
    receiving and the sending machine. Curl's answers and the Dart thread are arbitrary. */
module WsSession {
  import opened Bytes
  import opened Seqs
  import opened WsFrame
  import opened WsMessages
  import opened WsSend
  import R = WsReceive
  import Q = WsOutbox
  import A = WsAnswers

  /** The receive thread, among those that call `send`. */
  const RECEIVER: nat := 0

  datatype CurlCode = Ok | Again | Failed(text: bytes)

  lemma RanOneMore(leftover: bytes, steps: seq<R.Step>, step: R.Step, max: nat)
    ensures R.Run(leftover, steps + [step], max) == R.Apply(R.Run(leftover, steps, max), step, max)
  {
    assert (steps + [step])[..|steps|] == steps;
  }

  lemma {:induction false} OfferedOneMore(s: Q.State, steps: seq<Q.Step>, step: Q.Step, maxFrameBytes: int)
    requires Q.Sized(s)
    ensures Q.Run(s, steps + [step], maxFrameBytes) == Q.Apply(Q.Run(s, steps, maxFrameBytes), step, maxFrameBytes)
    decreases |steps|
  {
    if |steps| == 0 {
      assert ([] + [step])[1..] == [];
    } else {
      assert (steps + [step])[1..] == steps[1..] + [step];
      OfferedOneMore(Q.Apply(s, steps[0], maxFrameBytes), steps[1..], step, maxFrameBytes);
    }
  }

  /** What one call of `curl_easy_send` answers. */
  datatype SendResult = SendResult(rc: CurlCode, sent: nat)

  /** Curl never takes more than it was given. */
  function TakenOf(s: Q.State, sent: nat): nat {
    if |s.queue| == 0 || s.headOffset > |s.queue[0]| then 0
    else if sent < |s.queue[0]| - s.headOffset then sent else |s.queue[0]| - s.headOffset
  }

  /** `flushOutbox`, against the answers curl will give; when they run out the socket is full. */
  function Flushed(s: Q.State, curl: seq<SendResult>): Q.State
    decreases |curl|
  {
    if |s.queue| == 0 || |curl| == 0 then s else
    var t := Q.WriteTo(s, TakenOf(s, curl[0].sent));
    if curl[0].rc.Ok? then Flushed(t, curl[1..]) else t
  }

  predicate FlushFails(s: Q.State, curl: seq<SendResult>)
    decreases |curl|
  {
    if |s.queue| == 0 || |curl| == 0 then false
    else if curl[0].rc.Ok? then FlushFails(Q.WriteTo(s, TakenOf(s, curl[0].sent)), curl[1..])
    else curl[0].rc.Failed?
  }

  /** The receive thread has passed its test with this frame and not yet queued it. */
  ghost predicate InHand(steps: seq<Q.Step>, reply: R.Reply, maxFrameBytes: int) {
    var s := Q.Run(Q.EMPTY, steps, maxFrameBytes);
    RECEIVER in s.admitted && s.admitted[RECEIVER] == Q.Call(reply.opcode, reply.payload)
  }

  /** The step at `at` queues the frames of this reply. */
  ghost predicate QueuedAt(offered: seq<Q.Step>, at: nat, reply: R.Reply, maxFrameBytes: int) {
    && at < |offered| && offered[at].Queue? && offered[at].thread == RECEIVER
    && InHand(offered[..at], reply, maxFrameBytes)
  }

  /** `asked` says which of the steps queued each answer of the receive thread. */
  ghost predicate AnsweredBy(offered: seq<Q.Step>, replies: seq<R.Reply>, asked: seq<nat>, maxFrameBytes: int) {
    && |asked| == |replies|
    && (forall i | 0 <= i < |asked| :: QueuedAt(offered, asked[i], replies[i], maxFrameBytes))
    && (forall i, j | 0 <= i < j < |asked| :: asked[i] < asked[j])
  }

  lemma AnswersStay(before: seq<Q.Step>, offered: seq<Q.Step>, replies: seq<R.Reply>, asked: seq<nat>, maxFrameBytes: int)
    requires AnsweredBy(before, replies, asked, maxFrameBytes) && before <= offered
    ensures AnsweredBy(offered, replies, asked, maxFrameBytes)
  {
    hide InHand;
    forall i | 0 <= i < |asked|
      ensures QueuedAt(offered, asked[i], replies[i], maxFrameBytes)
    {
      assert QueuedAt(before, asked[i], replies[i], maxFrameBytes);
      assert offered[..asked[i]] == before[..asked[i]];
    }
  }

  lemma OneMoreAnswer(before: seq<Q.Step>, offered: seq<Q.Step>, replies: seq<R.Reply>, asked: seq<nat>,
                      at: nat, reply: R.Reply, maxFrameBytes: int)
    requires AnsweredBy(before, replies, asked, maxFrameBytes) && before <= offered
    requires |before| <= at && QueuedAt(offered, at, reply, maxFrameBytes)
    ensures AnsweredBy(offered, replies + [reply], asked + [at], maxFrameBytes)
  {
    AnswersStay(before, offered, replies, asked, maxFrameBytes);
    assert forall i | 0 <= i < |asked| :: QueuedAt(before, asked[i], replies[i], maxFrameBytes) && asked[i] < |before|;
    hide InHand, QueuedAt;
  }

  predicate OnlyWrites(steps: seq<Q.Step>) {
    forall i | 0 <= i < |steps| :: steps[i].Write?
  }

  class Session {
    const maxFrameBytes: int
    var outbox: seq<bytes>
    var outboxHeadOffset: nat
    var outboxBytes: int
    var fragment: bytes
    var fragmentOpcode: nat
    var credits: int
    var connected: bool
    /** What each thread holds in hand inside `send`; local to the thread. */
    var admitted: map<nat, Q.Admitted>
    var closeSent: bool
    var closeReceived: bool
    var stopping: bool
    var posted: seq<R.Emitted>

    /** Everything this object has done, as steps of the two machines. */
    ghost const leftover: bytes
    ghost var received: seq<R.Step>
    ghost var offered: seq<Q.Step>
    ghost var replies: seq<R.Reply>
    ghost var asked: seq<nat>
    ghost var sending: Q.State
    ghost var receiving: R.State

    /** The limit as an unsigned machine word, as the source compares it. */
    function Max(): nat {
      maxFrameBytes % (SIZE_MAX + 1)
    }

    ghost predicate Logged()
      reads `offered, `sending, `replies, `asked
    {
      sending == Q.Run(Q.EMPTY, offered, maxFrameBytes) && AnsweredBy(offered, replies, asked, maxFrameBytes)
    }

    ghost predicate OutboxValid()
      reads `outbox, `outboxHeadOffset, `outboxBytes, `closeSent, `admitted, `offered, `sending, `replies, `asked
    {
      && Logged()
      && sending.queue == outbox && sending.headOffset == outboxHeadOffset
      && sending.unsentBytes == outboxBytes && sending.closeSent == closeSent && sending.admitted == admitted
    }

    /** The receive thread is not inside a call of `send`. */
    ghost predicate Quiet()
      reads `outbox, `outboxHeadOffset, `outboxBytes, `closeSent, `admitted, `offered, `sending, `replies, `asked
    {
      OutboxValid() && RECEIVER !in admitted
    }

    /** The receiving machine is where this object is, but for a close that another thread has just begun; the
        buffer is local to the receive thread. */
    ghost predicate Near(rx: bytes, consumed: nat, phase: R.Phase)
      reads `fragment, `fragmentOpcode, `credits, `closeSent, `closeReceived, `stopping, `posted, `replies, `receiving
    {
      && receiving.rx == rx && receiving.consumed == consumed && receiving.phase == phase
      && receiving.reasm == Reasm(fragmentOpcode, fragment)
      && receiving.credits == credits && receiving.emitted == posted && receiving.replies == replies
      && (receiving.closeSent ==> closeSent) && receiving.closeReceived == closeReceived
      && receiving.stopping == stopping
    }

    ghost predicate At(rx: bytes, consumed: nat, phase: R.Phase)
      reads `fragment, `fragmentOpcode, `credits, `closeSent, `closeReceived, `stopping, `posted, `replies, `receiving
    {
      Near(rx, consumed, phase) && receiving.closeSent == closeSent
    }

    ghost predicate Valid()
      reads this
    {
      Quiet() && receiving == R.Run(leftover, received, Max())
    }

    constructor (maxFrameBytes: int, ghost leftover: bytes)
      ensures Valid() && At(leftover, 0, R.LoopTest) && this.maxFrameBytes == maxFrameBytes && this.leftover == leftover
    {
      this.maxFrameBytes, this.leftover := maxFrameBytes, leftover;
      outbox, outboxHeadOffset, outboxBytes := [], 0, 0;
      fragment, fragmentOpcode := [], 0;
      credits, connected, closeSent, closeReceived, stopping := R.INITIAL_CREDITS, false, false, false, false;
      posted, admitted := [], map[];
      received, offered, replies, asked := [], [], [], [];
      sending, receiving := Q.EMPTY, R.Init(leftover);
    }

    /** The handshake is over; what was sent before it waits in the outbox. */
    method Connect()
      requires OutboxValid()
      modifies `connected
      ensures OutboxValid() && connected
    {
      connected := true;
    }

    // ----- Sending -----

    ghost predicate Extends(before: seq<Q.Step>)
      reads `offered
    {
      |offered| >= |before| && offered[..|before|] == before && OnlyWrites(offered[|before|..])
    }

    /** Ghost bookkeeping: the sending machine has made one more step. */
    ghost method Took(step: Q.Step)
      requires Logged()
      modifies `offered, `sending
      ensures Logged() && offered == old(offered) + [step]
      ensures Q.Sized(old(sending)) && sending == Q.Apply(old(sending), step, maxFrameBytes)
    {
      hide Q.Run, Q.Apply, AnsweredBy;
      OfferedOneMore(Q.EMPTY, offered, step, maxFrameBytes);
      AnswersStay(offered, offered + [step], replies, asked, maxFrameBytes);
      sending, offered := Q.Apply(sending, step, maxFrameBytes), offered + [step];
    }

    /** What curl has taken off the head comes off the outbox. */
    method Advance(sent: nat)
      requires OutboxValid() && |outbox| > 0 && outboxHeadOffset + sent <= |outbox[0]|
      modifies `outbox, `outboxHeadOffset, `outboxBytes, `offered, `sending
      ensures OutboxValid() && offered == old(offered) + [Q.Write(sent)] && sending == Q.WriteTo(old(sending), sent)
      ensures if old(outboxHeadOffset) + sent == |old(outbox)[0]| then outbox == old(outbox)[1..]
              else outbox == old(outbox) && outboxHeadOffset == old(outboxHeadOffset) + sent
    {
      hide Logged;
      Took(Q.Write(sent));
      outboxHeadOffset := outboxHeadOffset + sent;
      outboxBytes := outboxBytes - sent;
      if outboxHeadOffset >= |outbox[0]| {
        outbox, outboxHeadOffset := outbox[1..], 0;
      }
    }

    lemma HeadUnfinished()
      requires OutboxValid()
      ensures sending.queue == outbox && sending.headOffset == outboxHeadOffset
      ensures |outbox| > 0 ==> outboxHeadOffset < |outbox[0]|
    {
      Q.RunKeepsInv(Q.EMPTY, offered, maxFrameBytes);
    }

    method FlushOutbox(curl: seq<SendResult>) returns (ok: bool)
      requires OutboxValid()
      modifies `outbox, `outboxHeadOffset, `outboxBytes, `offered, `sending
      ensures OutboxValid() && Extends(old(offered))
      ensures sending == Flushed(old(sending), curl) && ok == !FlushFails(old(sending), curl)
    {
      hide Q.Run, Q.WriteTo, TakenOf;
      var i := 0;
      HeadUnfinished();
      while |outbox| > 0 && i < |curl|
        invariant OutboxValid() && Extends(old(offered)) && i <= |curl| && sending.queue == outbox
        invariant Flushed(sending, curl[i..]) == Flushed(old(sending), curl)
        invariant FlushFails(sending, curl[i..]) == FlushFails(old(sending), curl)
      {
        hide OutboxValid;
        HeadUnfinished();
        var remaining := |outbox[0]| - outboxHeadOffset;
        var sent := if curl[i].sent < remaining then curl[i].sent else remaining;
        TakenIs(sending, curl[i].sent);
        assert curl[i..][0] == curl[i] && curl[i..][1..] == curl[i + 1..];
        Advance(sent);
        if curl[i].rc.Again? {
          return true;
        }
        if !curl[i].rc.Ok? {
          return false;
        }
        i := i + 1;
        HeadUnfinished();
      }
      return true;
    }

    method EncodeMessage(opcode: nat, payload: bytes) returns (wires: seq<bytes>, keys: seq<nat>)
      requires Sendable(opcode) && |payload| < HIGH_BIT
      ensures AreClientFrames(wires, SentFrames(opcode, payload, maxFrameBytes), keys)
    {
      var limit := if maxFrameBytes > 0 then maxFrameBytes else |payload|;
      if IsControl(opcode) || |payload| <= limit {
        var key: nat :| key < 0x1_0000_0000;
        var wire := EncodeFrame(opcode, true, payload, key);
        wires, keys := [wire], [key];
        SentFramesLegal(opcode, payload, maxFrameBytes);
        assert SentFrames(opcode, payload, maxFrameBytes) == [EncodedFrame(opcode, true, payload)];
      } else {
        wires, keys := EncodeFragments(opcode, payload, limit);
      }
    }

    /** Control frames jump the queue, but never ahead of a half-written head. */
    method Enqueue(wires: seq<bytes>, control: bool)
      requires control ==> |wires| == 1
      modifies `outbox, `outboxBytes
      ensures var at := if !control then |old(outbox)| else if outboxHeadOffset > 0 && |old(outbox)| > 0 then 1 else 0;
        outbox == Q.Insert(old(outbox), at, wires)
      ensures outboxBytes == old(outboxBytes) + |Concat(wires)|
    {
      var i := 0;
      while i < |wires|
        invariant i <= |wires|
        invariant !control ==> outbox == old(outbox) + wires[..i]
        invariant control && i == 0 ==> outbox == old(outbox)
        invariant control && i == 1 ==>
          outbox == Q.Insert(old(outbox), if outboxHeadOffset > 0 && |old(outbox)| > 0 then 1 else 0, wires)
        invariant outboxBytes == old(outboxBytes) + |Concat(wires[..i])|
      {
        assert wires[..i + 1] == wires[..i] + [wires[i]];
        ConcatSnoc(wires[..i], wires[i]);
        outboxBytes := outboxBytes + |wires[i]|;
        if control {
          var at := if outboxHeadOffset > 0 && |outbox| > 0 then 1 else 0;
          outbox := outbox[..at] + [wires[i]] + outbox[at..];
          assert wires == [wires[i]];
        } else {
          outbox := outbox + [wires[i]];
        }
        i := i + 1;
      }
      assert wires[..|wires|] == wires;
    }

    /** The first half of `send`: the test of the opcode and of `closeSent`, or its store. */
    method Test(thread: nat, opcode: nat, payload: bytes) returns (passed: bool)
      requires OutboxValid() && thread !in admitted && |payload| < HIGH_BIT
      modifies `closeSent, `admitted, `offered, `sending
      ensures OutboxValid() && offered == old(offered) + [Q.Test(thread, opcode, payload)]
      ensures sending == Q.TestOf(old(sending), thread, opcode, payload)
      ensures passed == (Sendable(opcode) && (IsControl(opcode) || !old(closeSent)))
      ensures closeSent == (old(closeSent) || opcode == CLOSE)
      ensures admitted == if passed then old(admitted)[thread := Q.Call(opcode, payload)] else old(admitted)
    {
      hide Logged;
      Took(Q.Test(thread, opcode, payload));
      passed := false;
      if Sendable(opcode) && (IsControl(opcode) || !closeSent) {
        if opcode == CLOSE {
          closeSent := true;
        }
        passed, admitted := true, admitted[thread := Q.Call(opcode, payload)];
      }
    }

    /** The second half, up to the flush: the frames are encoded, and queued under the lock. */
    method Queue(thread: nat)
      requires OutboxValid() && thread in admitted
      modifies `outbox, `outboxBytes, `admitted, `offered, `sending
      ensures OutboxValid() && admitted == old(admitted) - {thread}
      ensures |offered| == |old(offered)| + 1 && offered[..|old(offered)|] == old(offered)
      ensures var step := offered[|old(offered)|];
        && step.Queue? && step.thread == thread && Q.Sized(old(sending))
        && sending == Q.QueueOf(old(sending), thread, step.keys, maxFrameBytes)
    {
      assert Q.Sized(sending);
      hide Logged, SentFrames, AreClientFrames, Concat, Q.Insert, Q.QueueOf;
      var call := admitted[thread];
      var wires, keys := EncodeMessage(call.opcode, call.payload);
      QueuedAsSpecified(sending, thread, wires, keys, maxFrameBytes);
      Took(Q.Queue(thread, keys));
      admitted := admitted - {thread};
      Enqueue(wires, IsControl(call.opcode));
    }

    /** One action of another thread that is inside `send`, or begins it, or flushes. */
    method OtherSend()
      requires OutboxValid()
      modifies `outbox, `outboxHeadOffset, `outboxBytes, `closeSent, `admitted, `offered, `sending
      ensures OutboxValid() && old(offered) <= offered && (old(closeSent) ==> closeSent)
      ensures RECEIVER in admitted <==> RECEIVER in old(admitted)
      ensures RECEIVER in admitted ==> admitted[RECEIVER] == old(admitted)[RECEIVER]
    {
      hide OutboxValid;
      var thread: nat := *;
      if thread == RECEIVER {
        return;
      }
      if thread in admitted {
        Queue(thread);
      } else if * {
        var opcode: nat := *;
        var payload: bytes :| |payload| < HIGH_BIT;
        var _ := Test(thread, opcode, payload);
      } else if connected {
        var curl: seq<SendResult> := *;
        var _ := FlushOutbox(curl);
      }
    }

    /** Any number of such actions. */
    method OtherSends()
      requires OutboxValid()
      modifies `outbox, `outboxHeadOffset, `outboxBytes, `closeSent, `admitted, `offered, `sending
      ensures OutboxValid() && old(offered) <= offered && (old(closeSent) ==> closeSent)
      ensures RECEIVER in admitted <==> RECEIVER in old(admitted)
      ensures RECEIVER in admitted ==> admitted[RECEIVER] == old(admitted)[RECEIVER]
    {
      hide OutboxValid;
      var n: nat :| n >= 0;
      for i := 0 to n
        invariant OutboxValid() && old(offered) <= offered && (old(closeSent) ==> closeSent)
        invariant RECEIVER in admitted <==> RECEIVER in old(admitted)
        invariant RECEIVER in admitted ==> admitted[RECEIVER] == old(admitted)[RECEIVER]
      {
        OtherSend();
      }
    }

    /** `send` on the receive thread. Other threads do what they like between its test and the lock; the step at
        `at` queues its frames. */
    method Send(opcode: nat, payload: bytes, curl: seq<SendResult>) returns (waiting: int, ghost at: nat)
      requires Quiet() && |payload| < HIGH_BIT
      modifies `outbox, `outboxHeadOffset, `outboxBytes, `closeSent, `admitted, `offered, `sending
      ensures Quiet() && waiting == outboxBytes && old(offered) + [Q.Test(RECEIVER, opcode, payload)] <= offered
      ensures old(closeSent) || opcode == CLOSE ==> closeSent
      ensures Sendable(opcode) && (IsControl(opcode) || !old(closeSent)) ==>
        && |old(offered)| < at && QueuedAt(offered, at, R.Reply(opcode, payload), maxFrameBytes)
        && OnlyWrites(offered[at + 1..])
        && var mid := Q.Run(Q.EMPTY, offered[..at], maxFrameBytes);
           var queued := Q.QueueOf(mid, RECEIVER, offered[at].keys, maxFrameBytes);
           sending == if connected then Flushed(queued, curl) else queued
      ensures !(Sendable(opcode) && (IsControl(opcode) || !old(closeSent))) ==>
        sending == old(sending) && offered == old(offered) + [Q.Test(RECEIVER, opcode, payload)]
    {
      hide OutboxValid, Q.Run, Q.QueueOf, Flushed, FlushFails, Q.TestOf;
      at := 0;
      RefusedStays(sending, RECEIVER, opcode, payload);
      SameClose();
      var passed := Test(RECEIVER, opcode, payload);
      if !passed {
        return outboxBytes, at;
      }
      OtherSends();
      at := |offered|;
      IsInHand(opcode, payload);
      ghost var mid := offered;
      Queue(RECEIVER);
      assert offered[..at] == mid;
      ghost var queued := offered;
      if connected {
        var _ := FlushOutbox(curl);
        assert offered[..at] == mid && offered[at] == queued[at] && offered[at + 1..] == offered[|queued|..];
      }
      waiting := outboxBytes;
    }

    lemma SameClose()
      requires OutboxValid()
      ensures sending.closeSent == closeSent
    {
    }

    /** A control frame, which is never refused, whatever the socket answers. */
    method SendNow(opcode: nat, payload: bytes) returns (ghost at: nat)
      requires Quiet() && |payload| < HIGH_BIT && Sendable(opcode) && IsControl(opcode)
      modifies `outbox, `outboxHeadOffset, `outboxBytes, `closeSent, `admitted, `offered, `sending
      ensures Quiet() && old(offered) <= offered && |old(offered)| < at
      ensures QueuedAt(offered, at, R.Reply(opcode, payload), maxFrameBytes) && OnlyWrites(offered[at + 1..])
      ensures old(closeSent) || opcode == CLOSE ==> closeSent
    {
      hide OutboxValid, QueuedAt, Q.QueueOf, Flushed, Q.Run;
      var curl: seq<SendResult> := *;
      var _, place := Send(opcode, payload, curl);
      at := place;
    }

    lemma IsInHand(opcode: nat, payload: bytes)
      requires OutboxValid() && RECEIVER in admitted && admitted[RECEIVER] == Q.Call(opcode, payload)
      ensures InHand(offered, R.Reply(opcode, payload), maxFrameBytes) && offered[..|offered|] == offered
      ensures sending == Q.Run(Q.EMPTY, offered, maxFrameBytes)
    {
    }

    // ----- Emitting -----

    method EmitFrame(opcode: nat, payload: bytes)
      modifies `posted, `credits
      ensures posted == old(posted) + [R.Emitted(opcode, payload)] && credits == old(credits) - 1
    {
      posted := posted + [R.Emitted(opcode, payload)];
      credits := credits - 1;
    }

    method EmitTransportError(text: bytes)
      modifies `posted, `credits, `stopping
      ensures posted == old(posted) + [R.Emitted(TRANSPORT_ERROR, text)] && credits == old(credits) - 1 && stopping
    {
      EmitFrame(TRANSPORT_ERROR, text);
      stopping := true;
    }

    method CloseFramePayload(code: nat, reason: bytes) returns (payload: bytes)
      ensures payload == R.ClosePayload(code, reason)
    {
      var take := if |reason| < R.MAX_CLOSE_REASON then |reason| else R.MAX_CLOSE_REASON;
      payload := [code / 256 % 256, code % 256] + reason[..take];
      assert reason[..|reason|] == reason;
    }

    /** `emitSyntheticClose`: only the first close is shown. */
    method EmitSyntheticClose(code: nat, reason: bytes)
      modifies `posted, `credits, `closeReceived
      ensures closeReceived
      ensures if old(closeReceived) then posted == old(posted) && credits == old(credits)
              else posted == old(posted) + [R.Emitted(CLOSE, R.ClosePayload(code, reason))] && credits == old(credits) - 1
    {
      if !closeReceived {
        closeReceived := true;
        var payload := CloseFramePayload(code, reason);
        EmitFrame(CLOSE, payload);
      }
    }

    /** A frame the receive thread sends on its own account; a close is flushed once more. */
    method Answer(opcode: nat, payload: bytes)
      requires Quiet() && |payload| < HIGH_BIT && Sendable(opcode) && IsControl(opcode)
      modifies `outbox, `outboxHeadOffset, `outboxBytes, `closeSent, `admitted, `offered, `sending, `replies, `asked
      ensures Quiet() && (old(closeSent) || opcode == CLOSE ==> closeSent) && old(offered) <= offered
      ensures replies == old(replies) + [R.Reply(opcode, payload)]
    {
      hide Q.Run, QueuedAt, AnsweredBy;
      ghost var at := SendNow(opcode, payload);
      ghost var sent := offered;
      if opcode == CLOSE {
        var curl: seq<SendResult> := *;
        var _ := FlushOutbox(curl);
        StillQueuedAt(sent, offered, at, R.Reply(opcode, payload), maxFrameBytes);
      }
      OneMoreAnswer(old(offered), offered, replies, asked, at, R.Reply(opcode, payload), maxFrameBytes);
      replies, asked := replies + [R.Reply(opcode, payload)], asked + [at];
    }

    /** An answer leaves the receive thread where it was. */
    method Reply(opcode: nat, payload: bytes, ghost rx: bytes, ghost consumed: nat)
      requires Quiet() && Near(rx, consumed, R.Draining) && |payload| < HIGH_BIT && Sendable(opcode) && IsControl(opcode)
      modifies this
      ensures Quiet() && received == old(received) && Near(rx, consumed, R.Draining) && (opcode == CLOSE ==> closeSent)
      ensures receiving == old(receiving).(replies := old(receiving).replies + [R.Reply(opcode, payload)],
                                           closeSent := old(receiving).closeSent || opcode == CLOSE)
    {
      hide OutboxValid;
      Answer(opcode, payload);
      receiving := receiving.(replies := replies, closeSent := receiving.closeSent || opcode == CLOSE);
    }

    /** `failProtocol`: tell the peer why, then give Dart its terminal event. */
    method FailProtocol(code: nat, text: string, ghost rx: bytes, ghost consumed: nat)
      requires Quiet() && At(rx, consumed, R.Draining)
      modifies this
      ensures Quiet() && received == old(received)
      ensures receiving == R.FailProtocol(old(receiving), code, text) && At(rx, consumed, R.Done)
    {
      hide OutboxValid, R.ClosePayload, R.TextBytes;
      ghost var s := receiving;
      var payload := CloseFramePayload(code, R.TextBytes(text));
      Reply(CLOSE, payload, rx, consumed);
      EmitTransportError(R.TextBytes(text));
      receiving := R.FailProtocol(s, code, text);
    }

    // ----- Receiving -----

    /** A data frame: fragment sequencing, the size limit, and delivery of what it completes. */
    method OnDataFrame(fin: bool, opcode: nat, payload: bytes, ghost rx: bytes, ghost consumed: nat)
      returns (running: bool)
      requires Quiet() && At(rx, consumed, R.Draining) && opcode < 3
      modifies this
      ensures Quiet() && received == old(received)
      ensures At(rx, consumed, if running then R.Draining else R.Done)
      ensures match OnFrame(Frame(fin, opcode, payload), old(receiving).reasm, Max())
        case Continue(es, next) => running && receiving == R.TakeData(old(receiving), es, next)
        case Stop(e) => !running && e.Violation? && receiving == R.FailProtocol(old(receiving), e.code, e.text)
    {
      hide OutboxValid, R.FailProtocol;
      ghost var s := receiving;
      var continuation := opcode == CONTINUATION;
      if continuation && fragmentOpcode == 0 {
        FailProtocol(PROTOCOL_ERROR, STRAY_CONTINUATION, rx, consumed);
        return false;
      }
      if !continuation && fragmentOpcode != 0 {
        FailProtocol(PROTOCOL_ERROR, INTERRUPTED_MESSAGE, rx, consumed);
        return false;
      }
      if |fragment| + |payload| > Max() {
        FailProtocol(MESSAGE_TOO_BIG, OVERSIZED_MESSAGE, rx, consumed);
        return false;
      }
      running := true;
      if !continuation && fin {
        EmitFrame(opcode, payload);
      } else {
        if !continuation {
          fragmentOpcode := opcode;
        }
        fragment := fragment + payload;
        if fin {
          var complete := fragmentOpcode;
          fragmentOpcode := 0;
          EmitFrame(complete, fragment);
          fragment := [];
        }
      }
      ghost var reaction := OnFrame(Frame(fin, opcode, payload), s.reasm, Max());
      receiving := R.TakeData(s, reaction.events, reaction.next);
    }

    /** The peer's code is sent back, unless a close was already sent; another thread may send one meanwhile. */
    method MirrorClose(payload: bytes, ghost rx: bytes, ghost consumed: nat)
      requires Quiet() && At(rx, consumed, R.Draining) && |payload| < HIGH_BIT
      modifies this
      ensures Quiet() && received == old(received) && At(rx, consumed, R.Draining)
      ensures var s := old(receiving);
        receiving == if old(closeSent) then s
                     else s.(replies := s.replies + [R.Reply(CLOSE, R.MirroredClose(payload))], closeSent := true)
      ensures A.AnswersClose(old(replies), replies, old(closeSent), payload)
    {
      hide OutboxValid;
      if !closeSent {
        OtherSends();
        Reply(CLOSE, if |payload| >= 2 then payload[..2] else [], rx, consumed);
      }
    }

    method OnClose(payload: bytes, ghost rx: bytes, ghost consumed: nat)
      requires Quiet() && At(rx, consumed, R.Draining) && consumed <= |rx| && |payload| < HIGH_BIT
      modifies this
      ensures Quiet() && received == old(received)
      ensures receiving == R.TakeClose(old(receiving), payload) && At(rx[consumed..], 0, R.Done)
      ensures posted == old(posted) + [R.Emitted(8, payload)]
      ensures A.AnswersClose(old(replies), replies, old(closeSent), payload)
    {
      hide OutboxValid, R.MirroredClose, A.AnswersClose;
      ghost var s := receiving;
      closeReceived := true;
      EmitFrame(CLOSE, payload);
      receiving := R.Emit(s.(closeReceived := true), R.Emitted(CLOSE, payload));
      assert At(rx, consumed, R.Draining);
      MirrorClose(payload, rx, consumed);
      receiving := R.TakeClose(s, payload);
    }

    method OnControlFrame(opcode: nat, payload: bytes, ghost data: bytes, ghost rx: bytes, ghost next: nat)
      returns (running: bool)
      requires Quiet() && At(rx, next, R.Draining) && next <= |rx|
      requires FrameReady(data) && IsControl(opcode) && |payload| < HIGH_BIT
      modifies this
      ensures Quiet() && received == old(received)
      ensures running <==> opcode != CLOSE
      ensures if running then Near(rx, next, R.Draining) else At(rx[next..], 0, R.Done)
      ensures var s := old(receiving);
        receiving == match opcode
          case 8 => R.TakeClose(s, payload)
          case 9 => R.TakePing(s.(history := R.Grown(s.history, data)), payload)
          case _ => s.(history := R.Grown(s.history, data))
    {
      hide OutboxValid, FrameReady, R.TakeClose, R.Grown;
      if opcode == CLOSE {
        OnClose(payload, rx, next);
        return false;
      }
      if opcode == PING {
        Reply(PONG, payload, rx, next);
      }
      receiving := receiving.(history := R.Grown(receiving.history, data));
      return true;
    }

    /** A data frame that has been read as a whole. */
    method OnWholeDataFrame(fin: bool, opcode: nat, payload: bytes, ghost data: bytes, ghost rx: bytes, ghost next: nat)
      returns (running: bool)
      requires Quiet() && At(rx, next, R.Draining) && next <= |rx| && FrameReady(data) && opcode < 3
      modifies this
      ensures Quiet() && received == old(received)
      ensures if running then At(rx, next, R.Draining) else At(rx[next..], 0, R.Done)
      ensures match OnFrame(Frame(fin, opcode, payload), old(receiving).reasm, Max())
        case Continue(es, r) =>
          running && receiving == R.TakeData(old(receiving).(history := R.Grown(old(receiving).history, data)), es, r)
        case Stop(e) =>
          !running && e.Violation? && receiving == R.Erase(R.FailProtocol(old(receiving), e.code, e.text))
    {
      hide OutboxValid, FrameReady, R.FailProtocol, R.TakeData, R.Grown;
      if OnFrame(Frame(fin, opcode, payload), Reasm(fragmentOpcode, fragment), Max()).Continue? {
        receiving := receiving.(history := R.Grown(receiving.history, data));
      }
      running := OnDataFrame(fin, opcode, payload, rx, next);
      if !running {
        receiving := R.Erase(receiving);
      }
    }

    /** The frame at the front of the unread bytes, which is complete. */
    method TakeFrame(rx: bytes, consumed: nat, h: Header) returns (next: nat, running: bool)
      requires Quiet() && At(rx, consumed, R.Draining)
      requires consumed <= |rx| && h == ParseHeader(rx[consumed..]) && FrameReady(rx[consumed..])
      modifies this
      ensures Quiet() && received == old(received) && consumed < next <= |rx|
      ensures receiving == R.TakeFrame(old(receiving), rx[consumed..], Max())
      ensures if running then Near(rx, next, R.Draining) else At(rx[next..], 0, R.Done)
    {
      hide OutboxValid, ParseHeader, R.FailProtocol, R.TakeClose, R.TakeData, R.Grown, R.TakePing, R.Erase, OnFrame;
      var data := rx[consumed..];
      FrontIsLegal(data);
      var payload := data[h.headerBytes..h.headerBytes + h.payloadBytes];
      next := consumed + h.headerBytes + h.payloadBytes;
      ghost var s := receiving;
      receiving := s.(consumed := next);
      if IsControl(h.opcode) {
        running := OnControlFrame(h.opcode, payload, data, rx, next);
      } else {
        running := OnWholeDataFrame(h.fin, h.opcode, payload, data, rx, next);
      }
    }

    /** Ghost bookkeeping: the receiving machine has made one more step. */
    ghost method Stepped(step: R.Step, rx: bytes, consumed: nat, phase: R.Phase)
      requires Quiet() && Near(rx, consumed, phase)
      requires receiving == R.Apply(R.Run(leftover, received, Max()), step, Max())
      modifies `received
      ensures Valid() && Near(rx, consumed, phase) && received == old(received) + [step]
      ensures old(At(rx, consumed, phase)) ==> At(rx, consumed, phase)
    {
      RanOneMore(leftover, received, step, Max());
      received := received + [step];
    }

    /** Another thread began a close meanwhile: the receiving machine takes note. */
    ghost method CatchUp(rx: bytes, consumed: nat, phase: R.Phase)
      requires Valid() && Near(rx, consumed, phase)
      modifies `receiving, `received
      ensures Valid() && At(rx, consumed, phase) && old(received) <= received
    {
      hide OutboxValid, R.Run;
      if closeSent && !receiving.closeSent {
        receiving := R.Apply(receiving, R.OurClose, Max());
        Stepped(R.OurClose, rx, consumed, phase);
      }
    }

    /** What other threads may do while the receive thread runs: grant credit, shut down, and any part of a call
        of `send` or `close`. */
    method OtherThread(ghost rx: bytes, ghost consumed: nat, ghost phase: R.Phase)
      requires Valid() && At(rx, consumed, phase)
      modifies this
      ensures Valid() && At(rx, consumed, phase) && old(received) <= received && credits >= old(credits)
    {
      hide OutboxValid, R.Run, R.DrainTurn, R.EndWith, R.EndWithError, R.ClosePayload;
      if * {
        var count: nat :| count >= 0;
        credits := credits + count;
        receiving := R.Apply(receiving, R.Grant(count), Max());
        Stepped(R.Grant(count), rx, consumed, phase);
      } else if * {
        stopping := true;
        receiving := R.Apply(receiving, R.Shutdown, Max());
        Stepped(R.Shutdown, rx, consumed, phase);
      } else {
        OtherSends();
        CatchUp(rx, consumed, phase);
      }
    }

    /** One turn of the inner loop. */
    method DrainTurn(rx: bytes, consumed: nat) returns (next: nat, running: bool, more: bool)
      requires Valid() && At(rx, consumed, R.Draining) && consumed <= |rx|
      modifies this
      ensures Valid() && old(received) + [R.DrainOne] <= received && consumed <= next <= |rx|
      ensures more ==> running && consumed < next && At(rx, next, R.Draining)
      ensures !more ==> At(rx[next..], 0, if running && !stopping then R.Reading else R.Done)
    {
      hide OutboxValid, R.Run, R.TakeFrame, R.FailProtocol, FrameReady, ParseHeader;
      ghost var s := receiving;
      var data := rx[consumed..];
      next, running, more := consumed, true, false;
      var h := ParseFrameHeader(data);
      if credits <= 0 || h.NeedMore? {
        receiving := R.EndDrain(s);
      } else if h.Bad? {
        FailProtocol(PROTOCOL_ERROR, h.text, rx, consumed);
        receiving := R.Erase(receiving);
        running := false;
      } else if |data| < h.headerBytes + h.payloadBytes {
        NotReady(data);
        receiving := R.EndDrain(s);
      } else {
        Ready(data);
        next, running := TakeFrame(rx, consumed, h);
        more := running;
      }
      assert receiving == R.DrainTurn(s, Max());
      ghost var rest, place := if more then rx else rx[next..], if more then next else 0;
      ghost var phase := if more then R.Draining else if running && !stopping then R.Reading else R.Done;
      Stepped(R.DrainOne, rest, place, phase);
      CatchUp(rest, place, phase);
    }

    method Drain(rx: bytes) returns (rest: bytes, running: bool)
      requires Valid() && At(rx, 0, R.Draining)
      modifies this
      ensures Valid() && old(received) <= received
      ensures At(rest, 0, if running && !stopping then R.Reading else R.Done)
    {
      hide Valid, At;
      var consumed, more := 0, true;
      running := true;
      while more
        invariant Valid() && old(received) <= received && consumed <= |rx|
        invariant more ==> running && At(rx, consumed, R.Draining)
        invariant !more ==> At(rx[consumed..], 0, if running && !stopping then R.Reading else R.Done)
        decreases |rx| - consumed, more
      {
        OtherThread(rx, consumed, R.Draining);
        consumed, running, more := DrainTurn(rx, consumed);
      }
      rest := rx[consumed..];
    }

    /** The loop ends because the transport failed. */
    method EndWithError(text: bytes, ghost step: R.Step, ghost rx: bytes, ghost phase: R.Phase)
      requires Valid() && At(rx, 0, phase)
      requires R.Apply(receiving, step, Max()) == R.EndWithError(receiving, text)
      modifies this
      ensures Valid() && received == old(received) + [step] && At(rx, 0, R.Done)
    {
      hide OutboxValid, R.Run, R.Apply;
      receiving := R.Apply(receiving, step, Max());
      EmitTransportError(text);
      Stepped(step, rx, 0, R.Done);
    }

    /** The loop ends with a close the peer did not send. */
    method EndWithClose(code: nat, reason: bytes, ghost step: R.Step, ghost rx: bytes, ghost phase: R.Phase)
      requires Valid() && At(rx, 0, phase) && !closeReceived
      requires R.Apply(receiving, step, Max())
        == R.EndWith(receiving.(closeReceived := true), R.Emitted(CLOSE, R.ClosePayload(code, reason)))
      modifies this
      ensures Valid() && received == old(received) + [step] && At(rx, 0, R.Done)
    {
      hide OutboxValid, R.Run, R.Apply, R.ClosePayload;
      receiving := R.Apply(receiving, step, Max());
      EmitSyntheticClose(code, reason);
      Stepped(step, rx, 0, R.Done);
    }

    /** The peer dropped the connection; whose close it was decides what Dart is told. */
    method PeerGone(ghost rx: bytes)
      requires Valid() && At(rx, 0, R.Reading) && credits > 0
      modifies this
      ensures Valid() && old(received) <= received && At(rx, 0, R.Done)
    {
      hide OutboxValid, R.Run, R.ClosePayload, R.TextBytes;
      var sentCloseCode: nat := *;
      var text := R.TextBytes("peer closed the connection without a close frame");
      var reason := R.TextBytes("peer closed the connection after our close frame");
      ghost var step := R.PeerGone(sentCloseCode, reason, text);
      if closeReceived {
        receiving := R.Apply(receiving, step, Max());
        Stepped(step, rx, 0, R.Done);
      } else if closeSent {
        EndWithClose(sentCloseCode, reason, step, rx, R.Reading);
      } else {
        EndWithError(text, step, rx, R.Reading);
      }
    }

    /** Nothing to tell Dart: the loop goes round again, perhaps with more bytes. */
    method GoRound(chunk: bytes, ghost step: R.Step, ghost rx: bytes)
      requires Valid() && At(rx, 0, R.Reading)
      requires |chunk| <= R.RECV_CHUNK
      requires step == if |chunk| > 0 then R.Read(chunk) else if credits > 0 then R.ReadAgain else R.SkipRead
      requires |chunk| > 0 ==> credits > 0
      modifies `receiving, `received
      ensures Valid() && received == old(received) + [step] && At(rx + chunk, 0, R.LoopTest)
    {
      hide OutboxValid, R.Run;
      NilRight(rx);
      receiving := R.Apply(receiving, step, Max());
      Stepped(step, rx + chunk, 0, R.LoopTest);
    }

    /** `curl_easy_recv`, tried only with credit left. */
    method ReadSocket(rx: bytes) returns (rest: bytes, phase: R.Phase)
      requires Valid() && At(rx, 0, R.Reading) && credits > 0
      modifies this
      ensures Valid() && old(received) <= received && At(rest, 0, phase)
      ensures phase == R.LoopTest || phase == R.Done
    {
      hide Valid, OutboxValid;
      NilRight(rx);
      rest, phase := rx, R.Done;
      var rc: CurlCode := *;
      if rc.Again? {
        var socketOpen, text: bytes := *, *;
        if socketOpen {
          GoRound([], R.ReadAgain, rx);
          phase := R.LoopTest;
        } else {
          EndWithError(text, R.ReadFails(text), rx, R.Reading);
        }
      } else if rc.Failed? {
        EndWithError(rc.text, R.ReadFails(rc.text), rx, R.Reading);
      } else {
        var chunk: bytes :| |chunk| <= R.RECV_CHUNK;
        if |chunk| > 0 {
          GoRound(chunk, R.Read(chunk), rx);
          rest, phase := rx + chunk, R.LoopTest;
        } else {
          PeerGone(rx);
        }
      }
    }

    /** The top of the loop: flush, close deadline, keepalive. */
    method Service(rx: bytes) returns (phase: R.Phase)
      requires Valid() && At(rx, 0, R.Servicing)
      modifies this
      ensures Valid() && old(received) <= received && At(rx, 0, phase)
      ensures phase == R.Draining || phase == R.Done
    {
      hide OutboxValid, R.Run, R.ClosePayload, R.TextBytes, Extends;
      var curl: seq<SendResult> := *;
      var flushed := FlushOutbox(curl);
      if !flushed {
        var text := R.TextBytes("WebSocket send failed");
        EndWithError(text, R.FlushFails(text), rx, R.Servicing);
        return R.Done;
      }
      var deadlinePassed, sentCloseCode: nat := *, *;
      if closeSent && !closeReceived && deadlinePassed {
        var reason := R.TextBytes("no close frame from peer");
        EndWithClose(sentCloseCode, reason, R.DeadlinePasses(sentCloseCode, reason), rx, R.Servicing);
        return R.Done;
      }
      KeepAlive(rx);
      return R.Draining;
    }

    method KeepAlive(ghost rx: bytes)
      requires Valid() && At(rx, 0, R.Servicing)
      modifies this
      ensures Valid() && old(received) <= received && At(rx, 0, R.Draining)
    {
      hide OutboxValid, R.Run, R.DrainTurn, R.EndWith, R.EndWithError, R.ClosePayload, QueuedAt, AnsweredBy;
      var due: bool := *;
      if due {
        ghost var _ := SendNow(PING, []);
        CatchUp(rx, 0, R.Servicing);
      }
      receiving := R.Apply(receiving, R.BeginDrain, Max());
      Stepped(R.BeginDrain, rx, 0, R.Draining);
    }

    method BeginPass(ghost rx: bytes)
      requires Valid() && At(rx, 0, R.LoopTest)
      modifies `receiving, `received
      ensures Valid() && received == old(received) + [R.TestLoop]
      ensures At(rx, 0, if stopping then R.Done else R.Servicing)
    {
      hide OutboxValid, R.Run;
      receiving := R.Apply(receiving, R.TestLoop, Max());
      Stepped(R.TestLoop, rx, 0, if stopping then R.Done else R.Servicing);
    }

    /** One pass of the receive loop. */
    method Pass(rx: bytes) returns (rest: bytes, phase: R.Phase)
      requires Valid() && At(rx, 0, R.LoopTest) && !stopping
      modifies this
      ensures Valid() && old(received) + [R.TestLoop] <= received && At(rest, 0, phase)
      ensures phase == R.LoopTest || phase == R.Done
    {
      hide Valid, OutboxValid, At;
      rest := rx;
      BeginPass(rx);
      OtherThread(rx, 0, R.Servicing);
      phase := Service(rx);
      if phase == R.Done {
        return;
      }
      var running;
      rest, running := Drain(rx);
      if !running || stopping {
        return rest, R.Done;
      }
      OtherThread(rest, 0, R.Reading);
      if credits <= 0 {
        NilRight(rest);
        GoRound([], R.SkipRead, rest);
        return rest, R.LoopTest;
      }
      rest, phase := ReadSocket(rest);
    }

    /** `receiveLoop`, cut off after any number of passes. */
    method ReceiveLoop(buffered: bytes, passes: nat) returns (ghost rx: bytes, phase: R.Phase)
      requires Valid() && At(buffered, 0, R.LoopTest)
      modifies this
      ensures Valid() && old(received) <= received && At(rx, 0, phase)
      ensures phase == R.LoopTest || phase == R.Done
    {
      hide OutboxValid, R.Run;
      var rest, left := buffered, passes;
      phase := R.LoopTest;
      while phase == R.LoopTest && !stopping && left > 0
        invariant Valid() && old(received) <= received && At(rest, 0, phase)
        invariant phase == R.LoopTest || phase == R.Done
        decreases left
      {
        rest, phase := Pass(rest);
        left := left - 1;
      }
      if phase == R.LoopTest && stopping {
        phase := R.Done;
        BeginPass(rest);
      }
      rx := rest;
    }

    /** So, whenever the loop is looked at: Dart has been shown a prefix of the one reading of everything
        the peer has sent and will send, with at most one last frame of the engine's own, which the steps taken
        explain; every ping read has been answered by one pong offered to the outbox, in order; the peer's close
        has been shown and answered by one close with its own two code bytes unless ours came first, and a
        violation by one that says 1002 or 1009; and the peer has read a prefix of the messages accepted here. */
    lemma WhatEachSideSees(rx: bytes, consumed: nat, phase: R.Phase, future: bytes, peerLimit: nat)
      requires Valid() && At(rx, consumed, phase)
      ensures var h := receiving.history;
        && |h.ending| <= |posted| && |h.ending| <= 1
        && posted[..|posted| - |h.ending|] <= R.Rendered(Decode(h.input + future, IDLE, Max()))
      ensures forall i | 0 <= i < |posted| && R.Terminal(posted[i]) :: i == |posted| - 1 && phase == R.Done
      ensures R.Pongs(replies) == Pings(receiving.history.frames) && AnsweredBy(offered, replies, asked, maxFrameBytes)
      ensures receiving.replies == replies && receiving.emitted == posted
      ensures A.Answered(receiving, A.OursFirst(leftover, received, Max()), Max())
      ensures |receiving.history.ending| == 1 ==> A.EndedBy(received, receiving.history.ending[0])
      ensures ValidMessages(sending.accepted, peerLimit) ==>
        Deliveries(Decode(Unmask(sending.wire), IDLE, peerLimit)) <= Delivered(sending.accepted)
    {
      R.RunKeepsInv(leftover, received, Max());
      R.EmittedIsPrefixOfOneShot(leftover, received, future, Max());
      R.EmittedFramesAreWellFormed(leftover, received, Max());
      R.PingsAreAnswered(leftover, received, Max());
      A.ClosesAreAnswered(leftover, received, Max());
      A.EndingsAreExplained(leftover, received, Max());
      if ValidMessages(sending.accepted, peerLimit) {
        Q.PeerReadsInOrder(offered, maxFrameBytes, peerLimit);
      }
    }
  }

  lemma StillQueuedAt(sent: seq<Q.Step>, offered: seq<Q.Step>, at: nat, reply: R.Reply, maxFrameBytes: int)
    requires QueuedAt(sent, at, reply, maxFrameBytes) && sent <= offered
    ensures QueuedAt(offered, at, reply, maxFrameBytes)
  {
    hide InHand;
    assert offered[..at] == sent[..at];
  }

  lemma RefusedStays(s: Q.State, thread: nat, opcode: nat, payload: bytes)
    ensures Q.Refused(s, opcode) ==> Q.TestOf(s, thread, opcode, payload) == s
  {
  }

  lemma TakenIs(s: Q.State, sent: nat)
    requires |s.queue| > 0 && s.headOffset <= |s.queue[0]|
    ensures TakenOf(s, sent) == if sent < |s.queue[0]| - s.headOffset then sent else |s.queue[0]| - s.headOffset
  {
  }

  lemma NotReady(data: bytes)
    requires ParseHeader(data).Head? && |data| < ParseHeader(data).headerBytes + ParseHeader(data).payloadBytes
    ensures !FrameReady(data)
  {
  }

  lemma Ready(data: bytes)
    requires ParseHeader(data).Head? && |data| >= ParseHeader(data).headerBytes + ParseHeader(data).payloadBytes
    ensures FrameReady(data)
  {
  }

  /** What the loop of `send` leaves in the outbox is what the machine leaves. */
  lemma QueuedAsSpecified(s: Q.State, thread: nat, wires: seq<bytes>, keys: seq<nat>, maxFrameBytes: int)
    requires Q.Sized(s) && thread in s.admitted
    requires AreClientFrames(wires, SentFrames(s.admitted[thread].opcode, s.admitted[thread].payload, maxFrameBytes), keys)
    ensures |wires| > 0 && (IsControl(s.admitted[thread].opcode) ==> |wires| == 1)
    ensures var t := Q.QueueOf(s, thread, keys, maxFrameBytes);
      && t.queue == Q.Insert(s.queue, Q.InsertAt(s, IsControl(s.admitted[thread].opcode)), wires)
      && t.headOffset == s.headOffset && t.unsentBytes == s.unsentBytes + |Concat(wires)|
      && t.closeSent == s.closeSent && t.admitted == s.admitted - {thread}
  {
    hide ClientWire;
    var c := s.admitted[thread];
    SentFramesLegal(c.opcode, c.payload, maxFrameBytes);
    Q.SentFramesCarry(c.opcode, c.payload, maxFrameBytes);
    var frames := SentFrames(c.opcode, c.payload, maxFrameBytes);
    assert Q.ClientWires(frames, keys) == wires;
  }
}
