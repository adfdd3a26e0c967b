/** The request task's streaming half as the object it is: fields changed by curl's callbacks, each entry
    point one step of the machine of `ResponseStream`. */
module RequestTask {
  import opened Bytes
  import opened Seqs
  import opened ResponseStream
  import E = StreamEnds

  lemma TookOneMore(c: Config, credits: nat, steps: seq<Step>, step: Step)
    ensures Run(c, credits, steps + [step]) == Apply(c, Run(c, credits, steps), step)
  {
    assert (steps + [step])[..|steps|] == steps;
  }

  class Task {
    const c: Config
    const initialCredits: nat
    var headSent: bool
    var completed: bool
    var cancelled: bool
    var credits: int
    var writePaused: bool
    var coalesceBuf: bytes
    var coalesceTarget: nat
    var bodyBytes: nat
    var sink: seq<Emitted>

    /** This task and curl together; curl knows which block comes next and whether it has been told to stop. */
    ghost var machine: State
    ghost var taken: seq<Step>

    ghost predicate Valid()
      reads this
    {
      Follows() && machine == Run(c, initialCredits, taken)
    }

    ghost predicate Follows()
      reads this
    {
      && machine.headSent == headSent && machine.completed == completed && machine.cancelled == cancelled
      && machine.credits == credits && machine.writePaused == writePaused
      && machine.coalesceBuf == coalesceBuf && machine.coalesceTarget == coalesceTarget
      && machine.bodyBytes == bodyBytes && machine.emitted == sink
    }

    constructor (c: Config, credits: nat)
      ensures Valid() && taken == [] && this.c == c && initialCredits == credits
    {
      this.c, this.credits, initialCredits := c, credits, credits;
      headSent, completed, cancelled, writePaused := false, false, false, false;
      coalesceBuf, coalesceTarget, bodyBytes, sink := [], 0, 0, [];
      machine, taken := Init(credits), [];
    }

    ghost method Stepped(step: Step)
      requires Follows() && machine == Apply(c, Run(c, initialCredits, taken), step)
      modifies `taken
      ensures Valid() && taken == old(taken) + [step]
    {
      hide Run, Apply;
      TookOneMore(c, initialCredits, taken, step);
      taken := taken + [step];
    }

    method EmitHeadIfNeeded()
      requires Follows()
      modifies `headSent, `coalesceTarget, `sink, `machine
      ensures Follows() && machine == EmitHead(c, old(machine))
    {
      ghost var s := machine;
      if !headSent {
        headSent := true;
        var length := if c.decoding then -1 else c.contentLength;
        coalesceTarget := 0;
        if c.chunkBytes >= 0 {
          var least := if c.minLength >= 0 then c.minLength else DEFAULT_MIN_LENGTH;
          if length >= least {
            coalesceTarget := if c.chunkBytes > 0 then c.chunkBytes else AUTO_CHUNK;
          }
        }
        sink := sink + [Head(true)];
      }
      machine := EmitHead(c, s);
    }

    method FlushCoalesced()
      requires Follows()
      modifies `credits, `coalesceBuf, `sink, `machine
      ensures Follows() && machine == Flush(old(machine))
    {
      ghost var s := machine;
      if |coalesceBuf| > 0 {
        sink := sink + [Data(coalesceBuf)];
        credits := credits - 1;
        coalesceBuf := [];
      }
      machine := Flush(s);
    }

    method EmitTerminalChunk(ok: bool)
      requires Follows()
      modifies `credits, `coalesceBuf, `sink, `machine
      ensures Follows() && machine == EmitTerminal(old(machine), ok)
    {
      ghost var s := machine;
      FlushCoalesced();
      sink := sink + [Terminal(ok)];
      machine := EmitTerminal(s, ok);
    }

    method CompleteWithError()
      requires Follows()
      modifies this
      ensures Follows() && taken == old(taken) && machine == ResponseStream.CompleteWithError(old(machine))
    {
      if completed {
        return;
      }
      completed := true;
      machine := machine.(completed := true, ended := true);
      if !headSent {
        headSent := true;
        sink := sink + [Head(false)];
        machine := machine.(headSent := true, emitted := sink);
      }
      EmitTerminalChunk(false);
    }

    /** What `handleWrite` does with bytes it may show. */
    method ShowBytes(out: bytes, aged: bool)
      requires Follows()
      modifies `credits, `coalesceBuf, `sink, `machine
      ensures Follows() && machine == Show(old(machine), out, aged)
    {
      ghost var s := machine;
      if |out| > 0 {
        if coalesceTarget > 0 {
          coalesceBuf := coalesceBuf + out;
          machine := machine.(coalesceBuf := coalesceBuf);
          if |coalesceBuf| >= coalesceTarget || aged {
            FlushCoalesced();
          }
        } else {
          sink := sink + [Data(out)];
          credits := credits - 1;
        }
      }
      machine := Show(s, out, aged);
    }

    /** The decoder, the ceiling on the response, then the chunks. */
    method AcceptBlock(b: Block, aged: bool)
      requires Follows()
      modifies this
      ensures Follows() && taken == old(taken) && machine == Accept(c, old(machine), b, aged)
    {
      hide Show, ResponseStream.CompleteWithError;
      var out := OutOf(c, b);
      if c.decoding && b.bad {
        CompleteWithError();
        return;
      }
      if c.maxBytes > 0 {
        bodyBytes := bodyBytes + |out|;
        machine := machine.(bodyBytes := bodyBytes);
        if bodyBytes > c.maxBytes {
          CompleteWithError();
          return;
        }
      }
      machine := machine.(next := machine.next + 1, accepted := machine.accepted + out);
      ShowBytes(out, aged);
    }

    /** `handleWrite`, called by curl with its next block. */
    method HandleWrite(b: Block, aged: bool)
      requires Valid() && !machine.ended && !writePaused && machine.next < |c.blocks| && c.blocks[machine.next] == b
      modifies this
      ensures Valid() && taken == old(taken) + [Deliver(aged)]
    {
      hide Accept, EmitHead, Run;
      ghost var s := machine;
      if |b.raw| == 0 {
        machine := s.(next := s.next + 1);
      } else if cancelled {
        machine := s.(ended := true);
      } else if c.notModified {
        machine := s.(next := s.next + 1);
      } else {
        EmitHeadIfNeeded();
        if credits <= 0 {
          writePaused := true;
          machine := machine.(writePaused := true);
        } else {
          AcceptBlock(b, aged);
        }
      }
      Stepped(Deliver(aged));
    }

    /** The end of a header block that is the last, `handleHeader`. */
    method HandleHeadersEnd()
      requires Valid() && !machine.ended
      modifies this
      ensures Valid() && taken == old(taken) + [HeadersEnd]
    {
      hide Run, EmitHead;
      if !c.notModified {
        EmitHeadIfNeeded();
      }
      Stepped(HeadersEnd);
    }

    /** `flushAgedCoalesce`, when what is held is old enough. */
    method FlushAgedCoalesce()
      requires Valid()
      modifies this
      ensures Valid() && taken == old(taken) + [FlushAged]
    {
      hide Run, Flush;
      if credits > 0 {
        FlushCoalesced();
      }
      Stepped(FlushAged);
    }

    method RequestCancel()
      requires Valid()
      modifies this
      ensures Valid() && taken == old(taken) + [Cancel]
    {
      hide Run;
      cancelled := true;
      machine := machine.(cancelled := true);
      Stepped(Cancel);
    }

    /** A failure from outside the transfer: cancel, idle timeout, shutdown, destruction. */
    method FailTask()
      requires Valid()
      modifies this
      ensures Valid() && taken == old(taken) + [Fail]
    {
      hide Run, ResponseStream.CompleteWithError;
      CompleteWithError();
      Stepped(Fail);
    }

    /** `grantCredit`; the engine resumes a transfer that asks for it. */
    method GrantCredit(count: int) returns (resume: bool)
      requires Valid()
      modifies `credits, `writePaused, `machine, `taken
      ensures Valid() && taken == old(taken) + [Grant(count)]
      ensures resume <==> old(writePaused) && credits > 0
    {
      hide Run;
      ghost var s := machine;
      if count > 0 {
        credits := credits + count;
      }
      resume := writePaused && credits > 0;
      if resume {
        writePaused := false;
      }
      machine := GrantTo(s, count);
      Stepped(Grant(count));
    }

    /** The stored body, in pieces, whatever the credit. */
    method ReplayBody(body: bytes)
      modifies `sink, `credits
      ensures sink == old(sink) + Pieces(body) && credits == old(credits) - |Pieces(body)|
    {
      var offset := 0;
      ghost var done: seq<Emitted> := [];
      assert body[0..] == body;
      NilLeft(Pieces(body));
      NilRight(sink);
      while offset < |body|
        invariant offset <= |body| && Pieces(body) == done + Pieces(body[offset..])
        invariant sink == old(sink) + done && credits == old(credits) - |done|
      {
        var left := |body| - offset;
        var n := if left < REPLAY_CHUNK then left else REPLAY_CHUNK;
        PieceOff(body, offset, n);
        Assoc(done, [Data(body[offset..offset + n])], Pieces(body[offset + n..]));
        Assoc(old(sink), done, [Data(body[offset..offset + n])]);
        sink := sink + [Data(body[offset..offset + n])];
        done := done + [Data(body[offset..offset + n])];
        credits := credits - 1;
        offset := offset + n;
      }
      NilRight(done);
    }

    lemma PieceOff(body: bytes, offset: nat, n: nat)
      requires offset < |body| && n == if |body| - offset < REPLAY_CHUNK then |body| - offset else REPLAY_CHUNK
      ensures Pieces(body[offset..]) == [Data(body[offset..offset + n])] + Pieces(body[offset + n..])
    {
      var rest := body[offset..];
      if |rest| > REPLAY_CHUNK {
        assert rest[..REPLAY_CHUNK] == body[offset..offset + n] && rest[REPLAY_CHUNK..] == body[offset + n..];
      } else {
        assert rest == body[offset..offset + n] && body[offset + n..] == [];
      }
    }

    /** `tryServeFromCache`, after a 304. */
    method ServeStored(body: bytes)
      requires Follows()
      modifies this
      ensures Follows() && taken == old(taken) && machine == Replay(old(machine), body)
    {
      ghost var s := machine;
      completed, headSent := true, true;
      sink := sink + [Head(true)];
      ReplayBody(body);
      machine := s.(headSent := true, completed := true, ended := true, replayed := true, accepted := body,
                    emitted := s.emitted + [Head(true)] + Pieces(body), credits := s.credits - |Pieces(body)|);
      EmitTerminalChunk(true);
    }

    /** The end of a transfer that curl calls a success. */
    method FinishTransfer()
      requires Follows()
      modifies this
      ensures Follows() && taken == old(taken) && machine == FinishBody(c, old(machine))
    {
      hide EmitHead, EmitTerminal, ResponseStream.CompleteWithError;
      EmitHeadIfNeeded();
      if c.decoding {
        if c.tailBad {
          CompleteWithError();
          return;
        }
        if |c.tail| > 0 {
          sink := sink + [Data(c.tail)];
          machine := machine.(emitted := sink, accepted := machine.accepted + c.tail, tailTaken := true);
        }
      }
      completed := true;
      machine := machine.(completed := true, ended := true);
      EmitTerminalChunk(true);
    }

    /** `finish`: success exactly if curl succeeded, nobody cancelled and the body ends well. */
    method FinishRequest(ok: bool)
      requires Valid() && (ok ==> machine.next >= |c.blocks| && !writePaused)
      modifies this
      ensures Valid() && taken == old(taken) + [Finish(ok)] && completed
      ensures if old(completed) then sink == old(sink)
              else |sink| > 0 && sink[|sink| - 1] == Terminal(ok && !old(cancelled) && E.EndsWell(c))
    {
      hide FinishBody, Replay, ResponseStream.CompleteWithError, Run, E.EndsWell;
      if !completed {
        E.FinishEnds(c, machine, ok);
        if cancelled || !ok {
          CompleteWithError();
        } else if c.notModified && c.cached.Stored? {
          ServeStored(c.cached.body);
        } else {
          FinishTransfer();
        }
      }
      Stepped(Finish(ok));
    }

    /** So, whatever has been called and in whatever order: a head first, DATA, one terminal chunk once complete;
        the DATA payloads with what is held are the blocks accepted; DATA never outnumbers the credit granted by
        the calls made; and the last chunk is a success if and only if one of them made it so. */
    lemma WhatDartSees()
      requires Valid()
      ensures Shape(sink, headSent, completed) && machine.next <= |c.blocks|
      ensures !c.notModified ==>
        Payloads(sink) + coalesceBuf == Body(c, machine.next) + (if machine.tailTaken then c.tail else [])
      ensures !completed ==> credits == initialCredits + E.GrantedBy(taken) - DataCount(machine) >= 0
      ensures !completed && writePaused ==> credits <= 0
      ensures (|sink| > 0 && sink[|sink| - 1] == Terminal(true)) <==> exists k :: E.SuccessAt(c, initialCredits, taken, k)
    {
      E.CreditComesFromGrants(c, initialCredits, taken);
      E.SucceedsExactly(c, initialCredits, taken);
      StreamedInOrder(c, initialCredits, taken);
      CreditIsKept(c, initialCredits, taken);
      hide Run, FlatMap, Body, E.SuccessAt, E.GrantedBy;
    }
  }
}
