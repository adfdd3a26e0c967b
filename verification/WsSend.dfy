/** The sending side of a WebSocket session: messages cut into masked frames, and the outbox that
    feeds them to a socket which may take any part of what it is offered. */
module WsSend {
  import opened Bytes
  import opened Seqs
  import opened WsFrame
  import opened WsMessages

  // ----- Fragmentation -----

  /** A payload cut into pieces of at most `limit` bytes; one piece if it fits. */
  function Chunks(payload: bytes, limit: nat): (chunks: seq<bytes>)
    requires limit > 0 || |payload| <= limit
    ensures |chunks| > 0
    decreases |payload|
  {
    if |payload| <= limit then [payload] else [payload[..limit]] + Chunks(payload[limit..], limit)
  }

  lemma {:induction false} ChunksRejoin(payload: bytes, limit: nat)
    requires limit > 0 || |payload| <= limit
    ensures Concat(Chunks(payload, limit)) == payload
    ensures forall i | 0 <= i < |Chunks(payload, limit)| :: |Chunks(payload, limit)[i]| <= limit
    decreases |payload|
  {
    if |payload| <= limit {
      ConcatOne(payload);
    } else {
      ChunksRejoin(payload[limit..], limit);
      assert payload == payload[..limit] + payload[limit..];
    }
  }

  /** The limit `send` works with: a limit that is not positive means none. */
  function Limit(maxFrameBytes: int, n: nat): nat {
    if maxFrameBytes > 0 then maxFrameBytes else n
  }

  function Outgoing(opcode: nat, payload: bytes, maxFrameBytes: int): Message {
    Message(opcode, Chunks(payload, Limit(maxFrameBytes, |payload|)))
  }

  /** Frames that `send` queues for one call. */
  function SentFrames(opcode: nat, payload: bytes, maxFrameBytes: int): seq<Frame> {
    if IsControl(opcode) then [EncodedFrame(opcode, true, payload)]
    else MessageFrames(Outgoing(opcode, payload, maxFrameBytes))
  }

  predicate Sendable(opcode: int) {
    opcode == CONTINUATION || opcode == TEXT || opcode == BINARY ||
    opcode == CLOSE || opcode == PING || opcode == PONG
  }

  lemma {:induction false} MoreFramesLegal(chunks: seq<bytes>)
    requires forall i | 0 <= i < |chunks| :: |chunks[i]| < HIGH_BIT
    ensures AllLegal(MoreFrames(chunks))
  {
    if |chunks| > 0 {
      MoreFramesLegal(chunks[1..]);
    }
  }

  lemma SentFramesLegal(opcode: nat, payload: bytes, maxFrameBytes: int)
    requires Sendable(opcode) && |payload| < HIGH_BIT
    ensures AllLegal(SentFrames(opcode, payload, maxFrameBytes))
  {
    if !IsControl(opcode) {
      var limit := Limit(maxFrameBytes, |payload|);
      ChunksRejoin(payload, limit);
      var chunks := Chunks(payload, limit);
      ChunkSizes(chunks);
      MoreFramesLegal(chunks[1..]);
    }
  }

  lemma {:induction false} ChunkSizes(chunks: seq<bytes>)
    ensures forall i | 0 <= i < |chunks| :: |chunks[i]| <= |Concat(chunks)|
  {
    if |chunks| > 0 {
      ChunkSizes(chunks[1..]);
      forall i | 0 < i < |chunks|
        ensures |chunks[i]| <= |Concat(chunks)|
      {
        assert chunks[i] == chunks[1..][i - 1];
      }
    }
  }

  lemma {:induction false} ChunksAreFull(payload: bytes, limit: nat)
    requires limit > 0
    ensures var chunks := Chunks(payload, limit);
      && (forall i | 0 <= i < |chunks| - 1 :: |chunks[i]| == limit)
      && |chunks[|chunks| - 1]| <= limit && (|payload| > 0 ==> |chunks[|chunks| - 1]| > 0)
      && (|payload| <= limit <==> |chunks| == 1)
    decreases |payload|
  {
    if |payload| > limit {
      ChunksAreFull(payload[limit..], limit);
    }
  }

  lemma {:induction false} FramesOfChunks(chunks: seq<bytes>)
    ensures var fs := MoreFrames(chunks);
      |fs| == |chunks| && forall i | 0 <= i < |fs| :: fs[i] == Frame(i == |fs| - 1, CONTINUATION, chunks[i])
  {
    if |chunks| > 0 {
      FramesOfChunks(chunks[1..]);
    }
  }

  /** A data payload within the limit, or without a positive limit, goes out as one frame; a longer one as frames of
      exactly the limit and a last one of what is left, at least one byte. */
  lemma FramesWithinLimit(opcode: nat, payload: bytes, maxFrameBytes: int)
    requires opcode < 3
    ensures var fs := SentFrames(opcode, payload, maxFrameBytes);
      && |fs| > 0
      && (maxFrameBytes <= 0 || |payload| <= maxFrameBytes ==> fs == [Frame(true, opcode, payload)])
      && (0 < maxFrameBytes < |payload| ==>
            && |fs| > 1 && 0 < |fs[|fs| - 1].payload| <= maxFrameBytes
            && forall i | 0 <= i < |fs| - 1 :: |fs[i].payload| == maxFrameBytes)
  {
    var limit := Limit(maxFrameBytes, |payload|);
    var chunks := Chunks(payload, limit);
    assert !IsControl(opcode);
    if maxFrameBytes <= 0 || |payload| <= maxFrameBytes {
      assert chunks == [payload] && MoreFrames(chunks[1..]) == [];
    } else {
      ChunksAreFull(payload, limit);
      FramesOfChunks(chunks[1..]);
    }
  }

  /** The loop of `send` that cuts a data payload, encoding each piece under a fresh random mask. */
  method EncodeFragments(opcode: nat, payload: bytes, limit: nat) returns (wires: seq<bytes>, keys: seq<nat>)
    requires opcode == CONTINUATION || opcode == TEXT || opcode == BINARY
    requires 0 < limit < |payload| < HIGH_BIT
    ensures AreClientFrames(wires, MessageFrames(Message(opcode, Chunks(payload, limit))), keys)
  {
    ghost var frames := MessageFrames(Message(opcode, Chunks(payload, limit)));
    ghost var done: seq<Frame> := [];
    wires, keys := [], [];
    assert AreClientFrames(wires, done, keys);
    var off, first := 0, true;
    assert payload[0..] == payload;
    hide ClientWire, Left, MessageFrames, AreClientFrames;
    while off < |payload|
      invariant 0 <= off <= |payload|
      invariant first <==> off == 0
      invariant AreClientFrames(wires, done, keys)
      invariant frames == done + Left(opcode, payload, off, limit)
    {
      var take := if limit < |payload| - off then limit else |payload| - off;
      var last := off + take == |payload|;
      var key: nat :| key < 0x1_0000_0000;
      ghost var f := Frame(last, if first then opcode else CONTINUATION, payload[off..off + take]);
      LeftBegins(opcode, payload, off, limit);
      Assoc(done, [f], Left(opcode, payload, off + take, limit));
      var wire := EncodeFrame(if first then opcode else CONTINUATION, last, payload[off..off + take], key);
      OneMoreClientFrame(wires, done, keys, f, key);
      wires, keys, done := wires + [wire], keys + [key], done + [f];
      off, first := off + take, false;
    }
    LeftEnds(opcode, payload, limit);
    NilRight(done);
  }

  lemma OneMoreClientFrame(wires: seq<bytes>, frames: seq<Frame>, keys: seq<nat>, f: Frame, key: nat)
    requires AreClientFrames(wires, frames, keys) && Legal(f)
    ensures AreClientFrames(wires + [ClientWire(f, key)], frames + [f], keys + [key])
  {
  }

  /** The frames still to be cut once `off` bytes have been sent. */
  function Left(opcode: nat, payload: bytes, off: nat, limit: nat): seq<Frame>
    requires limit > 0 && off <= |payload|
  {
    if off == |payload| then []
    else if off == 0 then MessageFrames(Message(opcode, Chunks(payload[off..], limit)))
    else MoreFrames(Chunks(payload[off..], limit))
  }

  lemma LeftEnds(opcode: nat, payload: bytes, limit: nat)
    requires limit > 0
    ensures Left(opcode, payload, |payload|, limit) == []
  {
  }

  lemma LeftBegins(opcode: nat, payload: bytes, off: nat, limit: nat)
    requires limit > 0 && off < |payload|
    ensures var take := if limit < |payload| - off then limit else |payload| - off;
      var f := Frame(off + take == |payload|, if off == 0 then opcode else CONTINUATION, payload[off..off + take]);
      Left(opcode, payload, off, limit) == [f] + Left(opcode, payload, off + take, limit)
  {
    var rest := payload[off..];
    var chunks := Chunks(rest, limit);
    if |rest| > limit {
      assert rest[..limit] == payload[off..off + limit] && rest[limit..] == payload[off + limit..];
      assert chunks[0] == rest[..limit] && chunks[1..] == Chunks(rest[limit..], limit);
    } else {
      assert rest == payload[off..off + |rest|];
      assert chunks == [rest] && chunks[1..] == [];
      assert MoreFrames(chunks[1..]) == [];
    }
  }

  lemma {:induction false} MoreFramesAreData(chunks: seq<bytes>)
    ensures var fs := MoreFrames(chunks); DataFrames(fs) == fs && NoClose(fs) && Pings(fs) == []
  {
    if |chunks| > 0 {
      MoreFramesAreData(chunks[1..]);
    }
  }

  lemma MessageFramesAreData(m: Message)
    requires m.opcode == TEXT || m.opcode == BINARY || m.opcode == CONTINUATION
    ensures var fs := MessageFrames(m); DataFrames(fs) == fs && NoClose(fs) && Pings(fs) == []
  {
    if |m.chunks| > 0 {
      var first, more := Frame(|m.chunks| == 1, m.opcode, m.chunks[0]), MoreFrames(m.chunks[1..]);
      MoreFramesAreData(m.chunks[1..]);
      FlatMapAppend(DataOf, [first], more);
      FlatMapAppend(PingOf, [first], more);
      FlatMapOne(DataOf, first);
      FlatMapOne(PingOf, first);
    }
  }

  /** A payload sent, whatever the fragment limit and the masks, then unmasked by section 5.3 and read by
      the parser and the reassembler, comes back as exactly one message with the same opcode and bytes. */
  lemma SendThenReceive(opcode: nat, payload: bytes, maxFrameBytes: int, wires: seq<bytes>, keys: seq<nat>, max: nat)
    requires opcode == TEXT || opcode == BINARY
    requires |payload| <= max && |payload| < HIGH_BIT
    requires AreClientFrames(wires, SentFrames(opcode, payload, maxFrameBytes), keys)
    ensures var events := Decode(Unmask(Concat(wires)), IDLE, max);
      Deliveries(events) == [Deliver(opcode, payload)] && PingEvents(events) == []
    ensures !OnFrames(SentFrames(opcode, payload, maxFrameBytes), IDLE, max).stopped
  {
    hide FlatMap, Decode, Unmask, OnFrames, Concat, ServerStream, MoreFrames;
    var frames := SentFrames(opcode, payload, maxFrameBytes);
    var m := Outgoing(opcode, payload, maxFrameBytes);
    ChunksRejoin(payload, Limit(maxFrameBytes, |payload|));
    UnmaskOfClientFrames(wires, frames, keys);
    MessageFramesAreData(m);
    FlatMapOne(MessageFrames, m);
    FlatMapOne(DeliveryOf, m);
    ConversationDelivered(frames, ShortestForms(frames), [m], max);
  }
}
