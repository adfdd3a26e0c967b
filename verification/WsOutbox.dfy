/** The outbox between `send` and the socket. A call of `send` first tests whether a close was sent, and later
    queues its frames under the lock, control frames ahead of waiting data; the socket takes any part of the
    head at a time. Whatever threads call it, however these actions interleave and whatever the socket takes,
    the peer reads the messages that were accepted, in order. */
module WsOutbox {
  import opened Bytes
  import opened Seqs
  import opened WsFrame
  import opened WsMessages
  import opened WsSend

  /** A call of `send` that has passed its test and not yet queued its frames. */
  datatype Call = Call(opcode: nat, payload: bytes)

  predicate MayBeSent(c: Call) {
    Sendable(c.opcode) && |c.payload| < HIGH_BIT
  }

  type Admitted = c: Call | MayBeSent(c) witness Call(PING, [])

  /** `admitted` holds the calls in hand, by thread. `sent`, `order`, `keys` and `accepted` are for stating
      properties: no step reads them. */
  datatype State = State(
    queue: seq<bytes>,
    headOffset: nat,
    unsentBytes: int,
    closeSent: bool,
    admitted: map<nat, Admitted>,
    wire: bytes,
    sent: seq<bytes>,
    order: seq<Frame>,
    keys: seq<nat>,
    accepted: seq<Message>)

  const EMPTY := State([], 0, 0, false, map[], [], [], [], [], [])

  /** `Test` is the atomic load or store of `closeSent_`, `Queue` the region under the lock. */
  datatype Step =
    | Test(thread: nat, opcode: nat, payload: bytes)
    | Queue(thread: nat, keys: seq<nat>)
    | Write(taken: nat)

  /** Data that finds a close sent, and opcodes that do not exist, are refused. */
  predicate Refused(s: State, opcode: nat) {
    !Sendable(opcode) || (!IsControl(opcode) && s.closeSent)
  }

  /** A thread is in one call at a time. */
  predicate Passes(s: State, thread: nat, opcode: nat, payload: bytes) {
    thread !in s.admitted && !Refused(s, opcode) && |payload| < HIGH_BIT
  }

  function TestOf(s: State, thread: nat, opcode: nat, payload: bytes): State {
    if !Passes(s, thread, opcode, payload) then s
    else s.(admitted := s.admitted[thread := Call(opcode, payload)], closeSent := s.closeSent || opcode == CLOSE)
  }

  /** Where `send` puts new frames: control frames jump the queue, but not a half-written head. */
  function InsertAt(s: State, control: bool): (at: nat) {
    if !control then |s.queue| else if s.headOffset > 0 && |s.queue| > 0 then 1 else 0
  }

  function Insert<T>(all: seq<T>, at: nat, some: seq<T>): seq<T>
    requires at <= |all|
  {
    all[..at] + some + all[at..]
  }

  function Enqueue(s: State, opcode: nat, wires: seq<bytes>, frames: seq<Frame>, keys: seq<nat>, m: seq<Message>): State
    requires |s.sent| + |s.queue| == |s.order| == |s.keys|
  {
    var at := InsertAt(s, IsControl(opcode));
    s.(queue := Insert(s.queue, at, wires),
       unsentBytes := s.unsentBytes + |Concat(wires)|,
       order := Insert(s.order, |s.sent| + at, frames),
       keys := Insert(s.keys, |s.sent| + at, keys),
       accepted := s.accepted + m)
  }

  function KeyAt(keys: seq<nat>, i: nat): nat {
    if i < |keys| then keys[i] else 0
  }

  function ClientWires(frames: seq<Frame>, keys: seq<nat>): (wires: seq<bytes>)
    requires AllLegal(frames)
    ensures |wires| == |frames|
  {
    seq(|frames|, i requires 0 <= i < |frames| => ClientWire(frames[i], KeyAt(keys, i)))
  }

  function AllKeys(n: nat, keys: seq<nat>): (all: seq<nat>)
    ensures |all| == n
  {
    seq(n, i requires 0 <= i < n => KeyAt(keys, i))
  }

  function AcceptedMessage(opcode: nat, payload: bytes, maxFrameBytes: int): seq<Message> {
    if IsControl(opcode) then [] else [Outgoing(opcode, payload, maxFrameBytes)]
  }

  function QueueOf(s: State, thread: nat, keys: seq<nat>, maxFrameBytes: int): State
    requires |s.sent| + |s.queue| == |s.order| == |s.keys|
  {
    if thread !in s.admitted then s else
    var c := s.admitted[thread];
    var frames := SentFrames(c.opcode, c.payload, maxFrameBytes);
    SentFramesLegal(c.opcode, c.payload, maxFrameBytes);
    Enqueue(s.(admitted := s.admitted - {thread}), c.opcode, ClientWires(frames, keys), frames, AllKeys(|frames|, keys),
            AcceptedMessage(c.opcode, c.payload, maxFrameBytes))
  }

  /** The socket takes `taken` bytes of what is left of the head. */
  function WriteTo(s: State, taken: nat): State {
    if |s.queue| == 0 || s.headOffset + taken > |s.queue[0]| then s else
    var head := s.queue[0];
    var t := s.(wire := s.wire + head[s.headOffset..s.headOffset + taken],
                headOffset := s.headOffset + taken, unsentBytes := s.unsentBytes - taken);
    if t.headOffset >= |head| then t.(queue := s.queue[1..], headOffset := 0, sent := s.sent + [head]) else t
  }

  function HeadTaken(s: State): bytes {
    if |s.queue| > 0 && s.headOffset <= |s.queue[0]| then s.queue[0][..s.headOffset] else []
  }

  predicate Inv(s: State) {
    && AreClientFrames(s.sent + s.queue, s.order, s.keys)
    && (if |s.queue| == 0 then s.headOffset == 0 else s.headOffset < |s.queue[0]|)
    && s.wire == Concat(s.sent) + HeadTaken(s)
    && s.unsentBytes == |Concat(s.queue)| - s.headOffset
    && DataFrames(s.order) == Flat(s.accepted)
    && forall thread | thread in s.admitted && s.admitted[thread].opcode == CLOSE :: s.closeSent
  }

  /** What is still to be written. */
  function Unsent(s: State): bytes
    requires |s.queue| == 0 || s.headOffset <= |s.queue[0]|
  {
    if |s.queue| == 0 then [] else s.queue[0][s.headOffset..] + Concat(s.queue[1..])
  }

  lemma InsertSplit<T>(a: seq<T>, b: seq<T>, at: nat, some: seq<T>)
    requires at <= |b|
    ensures a + Insert(b, at, some) == Insert(a + b, |a| + at, some)
  {
  }

  lemma InsertClientFrames(wires: seq<bytes>, frames: seq<Frame>, keys: seq<nat>, at: nat,
                           wires': seq<bytes>, frames': seq<Frame>, keys': seq<nat>)
    requires AreClientFrames(wires, frames, keys) && AreClientFrames(wires', frames', keys') && at <= |wires|
    ensures AreClientFrames(Insert(wires, at, wires'), Insert(frames, at, frames'), Insert(keys, at, keys'))
  {
    var w, f := Insert(wires, at, wires'), Insert(frames, at, frames');
    forall i | 0 <= i < |f|
      ensures Legal(f[i])
    {
      if i < at {
        assert f[i] == frames[i];
      } else if i < at + |frames'| {
        assert f[i] == frames'[i - at];
      } else {
        assert f[i] == frames[i - |frames'|];
      }
    }
  }

  lemma InsertConcat(all: seq<bytes>, at: nat, some: seq<bytes>)
    requires at <= |all|
    ensures |Concat(Insert(all, at, some))| == |Concat(all)| + |Concat(some)|
  {
    ConcatAppend(all[..at], some);
    ConcatAppend(all[..at] + some, all[at..]);
    ConcatAppend(all[..at], all[at..]);
    assert all == all[..at] + all[at..];
  }

  lemma InsertData(all: seq<Frame>, at: nat, some: seq<Frame>)
    requires at <= |all|
    ensures |DataFrames(some)| == 0 ==> DataFrames(Insert(all, at, some)) == DataFrames(all)
    ensures at == |all| ==> DataFrames(Insert(all, at, some)) == DataFrames(all) + DataFrames(some)
  {
    FlatMapAppend(DataOf, all[..at], some);
    FlatMapAppend(DataOf, all[..at] + some, all[at..]);
    FlatMapAppend(DataOf, all[..at], all[at..]);
    assert all == all[..at] + all[at..];
    NilRight(DataFrames(all[..at]));
    NilRight(DataFrames(all) + DataFrames(some));
  }

  /** What `send` adds: frames in order, and the message they carry if they carry one. */
  predicate Carries(opcode: nat, frames: seq<Frame>, m: seq<Message>) {
    if IsControl(opcode) then |m| == 0 && |DataFrames(frames)| == 0 else DataFrames(frames) == Flat(m)
  }

  lemma EnqueueKeepsInv(s: State, opcode: nat, wires: seq<bytes>, frames: seq<Frame>, keys: seq<nat>, m: seq<Message>)
    requires Inv(s) && AreClientFrames(wires, frames, keys) && |wires| > 0 && Carries(opcode, frames, m)
    ensures Inv(Enqueue(s, opcode, wires, frames, keys, m))
  {
    hide Concat, FlatMap, ClientWire, Legal;
    var t := Enqueue(s, opcode, wires, frames, keys, m);
    assert |wires[0]| > 0;
    var at := InsertAt(s, IsControl(opcode));
    InsertSplit(s.sent, s.queue, at, wires);
    InsertClientFrames(s.sent + s.queue, s.order, s.keys, |s.sent| + at, wires, frames, keys);
    InsertConcat(s.queue, at, wires);
    InsertData(s.order, |s.sent| + at, frames);
    FlatMapAppend(MessageFrames, s.accepted, m);
    NilRight(s.accepted);
    HeadSurvives(s, at, wires);
  }

  lemma HeadSurvives(s: State, at: nat, wires: seq<bytes>)
    requires at <= |s.queue| && |wires| > 0 && |wires[0]| > 0
    requires if |s.queue| == 0 then s.headOffset == 0 else s.headOffset < |s.queue[0]|
    requires s.headOffset > 0 ==> at > 0
    ensures var q := Insert(s.queue, at, wires);
      |q| > 0 && s.headOffset < |q[0]| && HeadTaken(s.(queue := q)) == HeadTaken(s)
  {
    var q := Insert(s.queue, at, wires);
    assert at > 0 ==> q[0] == s.queue[0];
    assert at == 0 ==> q[0] == wires[0] && q[0][..0] == [];
    assert |s.queue| > 0 ==> s.queue[0][..s.headOffset] == HeadTaken(s);
  }

  lemma SentFramesCarry(opcode: nat, payload: bytes, maxFrameBytes: int)
    requires Sendable(opcode)
    ensures Carries(opcode, SentFrames(opcode, payload, maxFrameBytes), AcceptedMessage(opcode, payload, maxFrameBytes))
    ensures |SentFrames(opcode, payload, maxFrameBytes)| > 0
  {
    if IsControl(opcode) {
      FlatMapOne(DataOf, EncodedFrame(opcode, true, payload));
    } else {
      var m := Outgoing(opcode, payload, maxFrameBytes);
      MessageFramesAreData(m);
      FlatMapOne(MessageFrames, m);
    }
  }

  lemma TestKeepsInv(s: State, thread: nat, opcode: nat, payload: bytes)
    requires Inv(s)
    ensures Inv(TestOf(s, thread, opcode, payload))
  {
    hide AreClientFrames, DataFrames, Flat, Concat;
  }

  lemma QueueKeepsInv(s: State, thread: nat, keys: seq<nat>, maxFrameBytes: int)
    requires Inv(s)
    ensures Inv(QueueOf(s, thread, keys, maxFrameBytes))
  {
    if thread in s.admitted {
      var c := s.admitted[thread];
      var frames := SentFrames(c.opcode, c.payload, maxFrameBytes);
      SentFramesLegal(c.opcode, c.payload, maxFrameBytes);
      SentFramesCarry(c.opcode, c.payload, maxFrameBytes);
      EnqueueKeepsInv(s.(admitted := s.admitted - {thread}), c.opcode, ClientWires(frames, keys), frames,
                      AllKeys(|frames|, keys), AcceptedMessage(c.opcode, c.payload, maxFrameBytes));
    }
  }

  lemma WriteKeepsInv(s: State, taken: nat)
    requires Inv(s)
    ensures Inv(WriteTo(s, taken))
  {
    if |s.queue| > 0 && s.headOffset + taken <= |s.queue[0]| {
      var head, off := s.queue[0], s.headOffset;
      assert head[..off] + head[off..off + taken] == head[..off + taken];
      Assoc(Concat(s.sent), head[..off], head[off..off + taken]);
      if off + taken >= |head| {
        assert s.queue == [head] + s.queue[1..];
        Assoc(s.sent, [head], s.queue[1..]);
        ConcatSnoc(s.sent, head);
        assert head[..off + taken] == head;
        NilRight(Concat(s.sent + [head]));
        if |s.queue| > 1 {
          assert (s.sent + s.queue)[|s.sent| + 1] == s.queue[1];
        }
      }
    }
  }

  predicate Sized(s: State) {
    |s.sent| + |s.queue| == |s.order| == |s.keys|
  }

  function Apply(s: State, step: Step, maxFrameBytes: int): (t: State)
    requires Sized(s)
    ensures Sized(t)
  {
    match step
    case Test(thread, opcode, payload) => TestOf(s, thread, opcode, payload)
    case Queue(thread, keys) => QueueOf(s, thread, keys, maxFrameBytes)
    case Write(taken) => WriteTo(s, taken)
  }

  function Run(s: State, steps: seq<Step>, maxFrameBytes: int): (t: State)
    requires Sized(s)
    ensures Sized(t)
    decreases |steps|
  {
    if |steps| == 0 then s else Run(Apply(s, steps[0], maxFrameBytes), steps[1..], maxFrameBytes)
  }

  lemma {:induction false} RunKeepsInv(s: State, steps: seq<Step>, maxFrameBytes: int)
    requires Inv(s)
    ensures Inv(Run(s, steps, maxFrameBytes))
    decreases |steps|
  {
    assert Sized(s);
    hide Inv;
    if |steps| > 0 {
      match steps[0] {
        case Test(thread, opcode, payload) => TestKeepsInv(s, thread, opcode, payload);
        case Queue(thread, keys) => QueueKeepsInv(s, thread, keys, maxFrameBytes);
        case Write(taken) => WriteKeepsInv(s, taken);
      }
      RunKeepsInv(Apply(s, steps[0], maxFrameBytes), steps[1..], maxFrameBytes);
    }
  }

  // ----- The main results, over every schedule of sends and partial writes -----

  /** What is on the wire followed by what is unsent is always a row of whole legal frames, so no frame is
      ever split by another; and the byte count is exactly what is unsent. */
  lemma WireIsWholeFrames(steps: seq<Step>, maxFrameBytes: int)
    ensures var s := Run(EMPTY, steps, maxFrameBytes);
      && (|s.queue| == 0 || s.headOffset <= |s.queue[0]|)
      && s.wire + Unsent(s) == Concat(s.sent + s.queue)
      && AreClientFrames(s.sent + s.queue, s.order, s.keys)
      && s.unsentBytes == |Unsent(s)|
  {
    RunKeepsInv(EMPTY, steps, maxFrameBytes);
    WireAndUnsent(Run(EMPTY, steps, maxFrameBytes));
  }

  lemma WireAndUnsent(s: State)
    requires Inv(s)
    ensures s.wire + Unsent(s) == Concat(s.sent + s.queue) && s.unsentBytes == |Unsent(s)|
  {
    hide AreClientFrames, DataFrames, Flat;
    ConcatAppend(s.sent, s.queue);
    if |s.queue| > 0 {
      SplitHead(Concat(s.sent), s.queue[0], s.headOffset, Concat(s.queue[1..]));
    } else {
      NilRight(Concat(s.sent));
      NilRight(s.wire);
    }
  }

  lemma SplitHead(before: bytes, head: bytes, off: nat, after: bytes)
    requires off <= |head|
    ensures (before + head[..off]) + (head[off..] + after) == before + (head + after)
  {
  }

  /** The messages accepted: of the data whose test no close preceded, in the order in which it took the lock. */
  function AcceptedBy(steps: seq<Step>, closed: bool, inHand: map<nat, Admitted>, maxFrameBytes: int): seq<Message>
    decreases |steps|
  {
    if |steps| == 0 then []
    else match steps[0]
      case Write(_) => AcceptedBy(steps[1..], closed, inHand, maxFrameBytes)
      case Test(thread, opcode, payload) =>
        if thread in inHand || !MayBeSent(Call(opcode, payload)) || (closed && !IsControl(opcode))
        then AcceptedBy(steps[1..], closed, inHand, maxFrameBytes)
        else AcceptedBy(steps[1..], closed || opcode == CLOSE, inHand[thread := Call(opcode, payload)], maxFrameBytes)
      case Queue(thread, _) =>
        if thread !in inHand then AcceptedBy(steps[1..], closed, inHand, maxFrameBytes)
        else AcceptedMessage(inHand[thread].opcode, inHand[thread].payload, maxFrameBytes)
             + AcceptedBy(steps[1..], closed, inHand - {thread}, maxFrameBytes)
  }

  lemma {:induction false} AcceptedInOrder(s: State, steps: seq<Step>, maxFrameBytes: int)
    requires Sized(s)
    ensures Run(s, steps, maxFrameBytes).accepted == s.accepted + AcceptedBy(steps, s.closeSent, s.admitted, maxFrameBytes)
    decreases |steps|
  {
    if |steps| == 0 {
      NilRight(s.accepted);
    } else {
      var t := Apply(s, steps[0], maxFrameBytes);
      AcceptedInOrder(t, steps[1..], maxFrameBytes);
      QueueAccepts(s, steps[0], maxFrameBytes);
      hide Outgoing, Apply, Run;
      if steps[0].Queue? && steps[0].thread in s.admitted {
        var c := s.admitted[steps[0].thread];
        Assoc(s.accepted, AcceptedMessage(c.opcode, c.payload, maxFrameBytes),
              AcceptedBy(steps[1..], t.closeSent, t.admitted, maxFrameBytes));
      }
    }
  }

  /** What a step does to the messages accepted, the calls in hand and the close. */
  lemma QueueAccepts(s: State, step: Step, maxFrameBytes: int)
    requires Sized(s)
    ensures var t := Apply(s, step, maxFrameBytes);
      match step
      case Write(_) => t.accepted == s.accepted && t.admitted == s.admitted && t.closeSent == s.closeSent
      case Test(thread, opcode, payload) =>
        && t.accepted == s.accepted
        && (if Passes(s, thread, opcode, payload)
            then t.admitted == s.admitted[thread := Call(opcode, payload)] && t.closeSent == (s.closeSent || opcode == CLOSE)
            else t == s)
      case Queue(thread, _) =>
        if thread !in s.admitted then t == s else
        && t.accepted == s.accepted + AcceptedMessage(s.admitted[thread].opcode, s.admitted[thread].payload, maxFrameBytes)
        && t.admitted == s.admitted - {thread} && t.closeSent == s.closeSent
  {
    hide Outgoing, SentFrames, ClientWires, AllKeys, Insert;
  }

  lemma {:induction false} UnmaskOfRun(wires: seq<bytes>, frames: seq<Frame>, keys: seq<nat>, tail: bytes)
    requires AreClientFrames(wires, frames, keys)
    ensures Unmask(Concat(wires) + tail) == ServerStream(frames, ShortestForms(frames)) + Unmask(tail)
  {
    if |wires| == 0 {
      NilLeft(tail);
      NilLeft(Unmask(tail));
    } else {
      Assoc(wires[0], Concat(wires[1..]), tail);
      UnmaskOfClientWire(frames[0], keys[0], Concat(wires[1..]) + tail);
      UnmaskOfRun(wires[1..], frames[1..], keys[1..], tail);
      assert ShortestForms(frames)[1..] == ShortestForms(frames[1..]);
      Assoc(ServerWire(frames[0], ShortestForm(|frames[0].payload|)),
            ServerStream(frames[1..], ShortestForms(frames[1..])), Unmask(tail));
    }
  }

  /** A frame of which only a part has arrived gives the peer nothing yet. */
  lemma PartOfAFrameIsNothing(f: Frame, key: nat, n: nat)
    requires |f.payload| < HIGH_BIT && n < |ClientWire(f, key)|
    ensures Unmask(ClientWire(f, key)[..n]) == []
  {
    var size := |f.payload|;
    var form := ShortestForm(size);
    var w, ext := ClientWire(f, key), LenExt(size, form);
    var masked := Masked(f.payload, BE(key, 4));
    MaskedSlices(FirstByte(f), 128 + LenCode(size, form), ext, BE(key, 4), masked, []);
    LengthRead(size, form);
    assert w == [FirstByte(f), 128 + LenCode(size, form)] + ext + BE(key, 4) + masked + [];
    if n >= 2 + |ext| + 4 {
      TakenSlice(w, n, 2, 2 + |ext|);
    }
  }

  lemma TakenSlice(w: bytes, n: nat, lo: nat, hi: nat)
    requires lo <= hi <= n <= |w|
    ensures w[..n][lo..hi] == w[lo..hi]
  {
  }

  lemma {:induction false} OnFramesPrefix(a: seq<Frame>, b: seq<Frame>, r: Reasm, max: nat)
    requires !OnFrames(a + b, r, max).stopped
    ensures !OnFrames(a, r, max).stopped
    ensures OnFrames(a, r, max).events <= OnFrames(a + b, r, max).events
  {
    if |a| > 0 {
      assert (a + b)[0] == a[0] && (a + b)[1..] == a[1..] + b;
      OnFramesPrefix(a[1..], b, OnFrame(a[0], r, max).next, max);
    }
  }

  lemma DeliveriesPrefix(a: seq<Event>, b: seq<Event>)
    requires a <= b
    ensures Deliveries(a) <= Deliveries(b)
  {
    assert b == a + b[|a|..];
    FlatMapAppend(DeliverOnly, a, b[|a|..]);
  }

  // ----- What the peer reads -----

  function UpToClose(fs: seq<Frame>): seq<Frame> {
    if |fs| == 0 || fs[0].opcode == CLOSE then [] else [fs[0]] + UpToClose(fs[1..])
  }

  function OpenOf(f: Frame): seq<Frame> {
    if f.opcode == CLOSE then [] else [f]
  }

  /** The frames with the closes taken out. */
  function WithoutClose(fs: seq<Frame>): seq<Frame> {
    FlatMap(OpenOf, fs)
  }

  /** The peer delivers nothing of what follows a close. */
  lemma {:induction false} ReadingEndsAtClose(fs: seq<Frame>, r: Reasm, max: nat)
    ensures Deliveries(OnFrames(fs, r, max).events) == Deliveries(OnFrames(UpToClose(fs), r, max).events)
  {
    if |fs| > 0 {
      if fs[0].opcode == CLOSE {
        FlatMapOne(DeliverOnly, PeerClose(fs[0].payload));
      } else {
        assert ([fs[0]] + UpToClose(fs[1..]))[1..] == UpToClose(fs[1..]);
        match OnFrame(fs[0], r, max) {
          case Stop(_) =>
          case Continue(es, next) =>
            ReadingEndsAtClose(fs[1..], next, max);
            FlatMapAppend(DeliverOnly, es, OnFrames(fs[1..], next, max).events);
            FlatMapAppend(DeliverOnly, es, OnFrames(UpToClose(fs[1..]), next, max).events);
        }
      }
    }
  }

  lemma {:induction false} OpenFramesAre(fs: seq<Frame>)
    requires AllLegal(fs)
    ensures AllLegal(WithoutClose(fs)) && NoClose(WithoutClose(fs)) && DataFrames(WithoutClose(fs)) == DataFrames(fs)
  {
    if |fs| > 0 {
      OpenFramesAre(fs[1..]);
      var rest := WithoutClose(fs[1..]);
      assert WithoutClose(fs) == OpenOf(fs[0]) + rest;
      FlatMapAppend(DataOf, OpenOf(fs[0]), rest);
      if fs[0].opcode != CLOSE {
        FlatMapOne(DataOf, fs[0]);
      }
    }
  }

  lemma {:induction false} OpenIsSame(fs: seq<Frame>)
    requires NoClose(fs)
    ensures WithoutClose(fs) == fs && UpToClose(fs) == fs
  {
    if |fs| > 0 {
      OpenIsSame(fs[1..]);
    }
  }

  lemma {:induction false} OpenPrefix(a: seq<Frame>, b: seq<Frame>)
    ensures UpToClose(a) <= WithoutClose(a + b)
  {
    if |a| > 0 {
      assert (a + b)[0] == a[0] && (a + b)[1..] == a[1..] + b;
      OpenPrefix(a[1..], b);
    }
  }

  /** At every moment of every run, closes or not, the peer has read a prefix of the messages accepted: each
      whole, in order, wherever control frames cut in and however the socket cut the bytes; and without a
      close, all of them once the outbox is empty. */
  lemma PeerReadsInOrder(steps: seq<Step>, maxFrameBytes: int, max: nat)
    requires ValidMessages(Run(EMPTY, steps, maxFrameBytes).accepted, max)
    ensures var s := Run(EMPTY, steps, maxFrameBytes);
      var heard := Deliveries(Decode(Unmask(s.wire), IDLE, max));
      && heard <= Delivered(s.accepted)
      && (NoClose(s.order) && |s.queue| == 0 ==> heard == Delivered(s.accepted))
  {
    RunKeepsInv(EMPTY, steps, maxFrameBytes);
    PeerReads(Run(EMPTY, steps, maxFrameBytes), max);
  }

  /** The frames of which every byte has been written. */
  function Written(s: State): seq<Frame>
    requires |s.sent| <= |s.order|
  {
    s.order[..|s.sent|]
  }

  lemma WireUnmasked(s: State)
    requires Inv(s)
    ensures AllLegal(Written(s))
    ensures Unmask(s.wire) == ServerStream(Written(s), ShortestForms(Written(s)))
  {
    var n := |s.sent|;
    var all := s.sent + s.queue;
    assert all[..n] == s.sent;
    UnmaskOfRun(s.sent, Written(s), s.keys[..n], HeadTaken(s));
    if |s.queue| > 0 {
      assert all[n] == s.queue[0];
      PartOfAFrameIsNothing(s.order[n], s.keys[n], s.headOffset);
    }
    NilRight(ServerStream(Written(s), ShortestForms(Written(s))));
  }

  /** The deliveries of the frames written, and of all the frames in their order. */
  lemma WireIsRead(s: State, max: nat)
    requires Inv(s)
    ensures Deliveries(Decode(Unmask(s.wire), IDLE, max)) == Deliveries(OnFrames(UpToClose(Written(s)), IDLE, max).events)
  {
    var written := Written(s);
    WireUnmasked(s);
    DecodeOfFrames(written, ShortestForms(written), [], IDLE, max);
    NilRight(ServerStream(written, ShortestForms(written)));
    NilRight(OnFrames(written, IDLE, max).events);
    ReadingEndsAtClose(written, IDLE, max);
    hide Inv, Unmask, OnFrames, UpToClose;
  }

  lemma OrderIsDelivered(s: State, max: nat)
    requires Inv(s) && ValidMessages(s.accepted, max)
    ensures var p := OnFrames(WithoutClose(s.order), IDLE, max); !p.stopped && Deliveries(p.events) == Delivered(s.accepted)
  {
    OpenFramesAre(s.order);
    NilLeft(Flat(s.accepted));
    NilLeft(Delivered(s.accepted));
    ConversationFrom(WithoutClose(s.order), IDLE, [], s.accepted, max);
    hide OnFrames, WithoutClose;
  }

  lemma ReadPrefix(read: seq<Frame>, all: seq<Frame>, max: nat)
    requires read <= all && !OnFrames(all, IDLE, max).stopped
    ensures Deliveries(OnFrames(read, IDLE, max).events) <= Deliveries(OnFrames(all, IDLE, max).events)
  {
    hide OnFrames, FlatMap;
    assert all == read + all[|read|..];
    OnFramesPrefix(read, all[|read|..], IDLE, max);
    DeliveriesPrefix(OnFrames(read, IDLE, max).events, OnFrames(all, IDLE, max).events);
  }

  lemma PeerReads(s: State, max: nat)
    requires Inv(s) && ValidMessages(s.accepted, max)
    ensures var heard := Deliveries(Decode(Unmask(s.wire), IDLE, max));
      && heard <= Delivered(s.accepted)
      && (NoClose(s.order) && |s.queue| == 0 ==> heard == Delivered(s.accepted))
  {
    assert |s.sent| <= |s.order| && (|s.queue| == 0 ==> Written(s) == s.order);
    assert s.order == Written(s) + s.order[|s.sent|..];
    hide Inv, UpToClose, WithoutClose, OnFrames, Decode, Unmask, Written, FlatMap;
    OpenPrefix(Written(s), s.order[|s.sent|..]);
    WireIsRead(s, max);
    OrderIsDelivered(s, max);
    ReadPrefix(UpToClose(Written(s)), WithoutClose(s.order), max);
    if NoClose(s.order) && |s.queue| == 0 {
      OpenIsSame(s.order);
    }
  }

}
