/** The upload pipe: a vector with a read cursor that behaves as a byte queue, stays within twice its live
    bytes, pays for its compactions out of what it has delivered, and signals each drain once. */
module BodyPipe {
  import opened Bytes
  import opened Seqs

  /** What the pipe is for its two users. */
  datatype Fifo = Fifo(pending: bytes, finished: bool, failed: bool)

  const EMPTY := Fifo([], false, false)

  function Pushed(q: Fifo, data: bytes): Fifo {
    if q.finished || q.failed then q else q.(pending := q.pending + data)
  }

  function Taken(q: Fifo, n: nat): (out: bytes)
    ensures |out| <= n
  {
    if q.failed then [] else if n < |q.pending| then q.pending[..n] else q.pending
  }

  function Pulled(q: Fifo, n: nat): Fifo {
    q.(pending := q.pending[|Taken(q, n)|..])
  }

  function Failed(q: Fifo): Fifo {
    q.(pending := [], failed := true)
  }

  lemma PulledKeepsOrder(q: Fifo, n: nat)
    ensures Taken(q, n) + Pulled(q, n).pending == q.pending
  {
  }

  class Pipe {
    const softCapacity: nat
    var buf: bytes
    var readPos: nat
    var finished: bool
    var failed: bool
    var wasAboveWatermark: bool
    var drainPending: bool

    /** Bytes delivered, bytes copied by compactions, and drains raised: recorded only. */
    ghost var delivered: nat
    ghost var moved: nat
    ghost var drains: nat

    function Watermark(): (w: nat)
      ensures w > 0
    {
      if softCapacity / 2 > 0 then softCapacity / 2 else 1
    }

    ghost function Contents(): Fifo
      requires readPos <= |buf|
      reads this
    {
      Fifo(buf[readPos..], finished, failed)
    }

    ghost predicate Valid()
      reads this
    {
      && readPos <= |buf| / 2
      && moved + readPos <= delivered
      && (failed ==> |buf| == 0)
      && (!failed ==> (wasAboveWatermark <==> |buf| - readPos >= Watermark()))
    }

    constructor (softCapacity: nat)
      ensures Valid() && Contents() == EMPTY && this.softCapacity == softCapacity && drains == 0 && !drainPending
    {
      this.softCapacity := softCapacity;
      buf, readPos := [], 0;
      finished, failed, wasAboveWatermark, drainPending := false, false, false, false;
      delivered, moved, drains := 0, 0, 0;
    }

    method Push(data: bytes) returns (depth: nat)
      requires Valid()
      modifies `buf, `wasAboveWatermark
      ensures Valid() && Contents() == Pushed(old(Contents()), data)
      ensures depth == |Contents().pending|
    {
      depth := |buf| - readPos;
      if finished || failed {
        return;
      }
      buf := buf + data;
      assert buf[readPos..] == old(buf)[readPos..] + data;
      depth := |buf| - readPos;
      if depth >= Watermark() {
        wasAboveWatermark := true;
      }
    }

    /** The consumed prefix goes once it is the larger half. */
    method Compact()
      requires readPos <= |buf|
      modifies `buf, `readPos, `moved
      ensures readPos <= |buf| / 2 && buf[readPos..] == old(buf[readPos..])
      ensures moved + readPos <= old(moved + readPos)
    {
      if readPos > |buf| / 2 {
        moved := moved + (|buf| - readPos);
        buf, readPos := buf[readPos..], 0;
      }
    }

    /** Bytes leave in order; a drain is raised exactly when the depth falls through the watermark. */
    method Pull(n: nat) returns (out: bytes)
      requires Valid()
      modifies `buf, `readPos, `wasAboveWatermark, `drainPending, `delivered, `moved, `drains
      ensures Valid() && out == Taken(old(Contents()), n) && Contents() == Pulled(old(Contents()), n)
      ensures delivered == old(delivered) + |out|
      ensures var before, after := |old(Contents()).pending|, |Contents().pending|;
        var crossed := before >= Watermark() && after < Watermark();
        drainPending == (old(drainPending) || crossed) && drains == old(drains) + if crossed then 1 else 0
    {
      out := [];
      ghost var before := Contents();
      if failed || n == 0 || |buf| == readPos {
        return;
      }
      var available := |buf| - readPos;
      var take := if n < available then n else available;
      out := buf[readPos..readPos + take];
      assert out == Taken(before, n) && buf[readPos + take..] == Pulled(before, n).pending;
      hide Taken, Pulled;
      readPos := readPos + take;
      delivered := delivered + take;
      Compact();
      if wasAboveWatermark && |buf| - readPos < Watermark() {
        wasAboveWatermark, drainPending := false, true;
        drains := drains + 1;
      }
    }

    method Finish()
      requires Valid()
      modifies `finished
      ensures Valid() && Contents() == old(Contents()).(finished := true)
    {
      finished := true;
    }

    method Fail()
      requires Valid()
      modifies `buf, `readPos, `failed
      ensures Valid() && Contents() == Failed(old(Contents()))
    {
      failed := true;
      buf, readPos := [], 0;
    }

    method ConsumeDrainSignal() returns (pending: bool)
      modifies `drainPending
      ensures pending == old(drainPending) && !drainPending
    {
      pending := drainPending;
      drainPending := false;
    }

    method AtEof() returns (eof: bool)
      requires Valid()
      ensures eof <==> Contents().finished && |Contents().pending| == 0
    {
      eof := finished && |buf| == readPos;
    }

    /** The buffer is never more than twice what is still to be read, and all the copying compactions have
        ever done is no more than what has been delivered. */
    lemma BoundedAndPaidFor()
      requires Valid()
      ensures |buf| <= 2 * |Contents().pending| && moved <= delivered
    {
    }
  }
}
