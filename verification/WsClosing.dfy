/** What may follow a close frame on the wire. A close jumps ahead of the data that waits, and a call of `send`
    may be caught between its test and the lock while another thread sends the close. */
module WsClosing {
  import opened Bytes
  import opened Seqs
  import opened WsFrame
  import opened WsMessages
  import opened WsSend
  import opened WsOutbox

  // ----- One frame in the order of the wire -----

  /** Where a close, or any control frame, is queued. */
  function ControlAt(s: State): nat {
    |s.sent| + InsertAt(s, true)
  }

  predicate HoldsControl(s: State, thread: nat) {
    thread in s.admitted && IsControl(s.admitted[thread].opcode)
  }

  /** A thread has passed its test with data and not yet queued it. */
  predicate HoldsData(s: State, thread: nat) {
    thread in s.admitted && !IsControl(s.admitted[thread].opcode)
  }

  /** Where the frame at `c` of the order stands after one more step. */
  function Moved(s: State, step: Step, c: nat): nat {
    if step.Queue? && HoldsControl(s, step.thread) && ControlAt(s) <= c then c + 1 else c
  }

  function Tracked(s: State, steps: seq<Step>, maxFrameBytes: int, c: nat): nat
    requires Sized(s)
    decreases |steps|
  {
    if |steps| == 0 then c
    else Tracked(Apply(s, steps[0], maxFrameBytes), steps[1..], maxFrameBytes, Moved(s, steps[0], c))
  }

  /** What stands behind the frame at `c`. */
  function Behind(s: State, c: nat): seq<Frame> {
    if c < |s.order| then s.order[c + 1..] else []
  }

  lemma OneControl(opcode: nat, payload: bytes, maxFrameBytes: int)
    requires IsControl(opcode) && Sendable(opcode)
    ensures var f := EncodedFrame(opcode, true, payload);
      SentFrames(opcode, payload, maxFrameBytes) == [f] && f.opcode == opcode && |DataFrames([f])| == 0
  {
    FlatMapOne(DataOf, EncodedFrame(opcode, true, payload));
  }

  /** A control frame takes one place in the order. */
  lemma ControlQueued(s: State, thread: nat, keys: seq<nat>, maxFrameBytes: int)
    requires Sized(s) && HoldsControl(s, thread)
    ensures var t, f := QueueOf(s, thread, keys, maxFrameBytes),
                        EncodedFrame(s.admitted[thread].opcode, true, s.admitted[thread].payload);
      && t.order == Insert(s.order, ControlAt(s), [f]) && t.closeSent == s.closeSent && t.admitted == s.admitted - {thread}
      && f.opcode == s.admitted[thread].opcode && |DataFrames([f])| == 0
  {
    OneControl(s.admitted[thread].opcode, s.admitted[thread].payload, maxFrameBytes);
    hide FlatMap, EncodedFrame, ClientWires, AllKeys;
  }

  /** Data goes to the end of the order. */
  lemma DataQueued(s: State, thread: nat, keys: seq<nat>, maxFrameBytes: int)
    requires Sized(s) && HoldsData(s, thread)
    ensures var t := QueueOf(s, thread, keys, maxFrameBytes);
      var frames := SentFrames(s.admitted[thread].opcode, s.admitted[thread].payload, maxFrameBytes);
      && t.order == s.order + frames && t.closeSent == s.closeSent && t.admitted == s.admitted - {thread}
      && |DataFrames(frames)| > 0
  {
    var c := s.admitted[thread];
    var frames := SentFrames(c.opcode, c.payload, maxFrameBytes);
    DataHasFrames(c.opcode, c.payload, maxFrameBytes);
    assert Insert(s.order, |s.order|, frames) == s.order + frames;
    hide SentFrames, FlatMap, ClientWires, AllKeys, Insert;
  }

  lemma DataHasFrames(opcode: nat, payload: bytes, maxFrameBytes: int)
    requires !IsControl(opcode) && Sendable(opcode)
    ensures |DataFrames(SentFrames(opcode, payload, maxFrameBytes))| > 0
  {
    MessageFramesAreData(Outgoing(opcode, payload, maxFrameBytes));
  }

  /** A close stands ahead of every data frame not yet begun. */
  lemma CloseOvertakesWaitingData(s: State, thread: nat, keys: seq<nat>, maxFrameBytes: int, j: nat)
    requires Inv(s) && thread in s.admitted && s.admitted[thread].opcode == CLOSE
    requires ControlAt(s) <= j < |s.order|
    ensures var t := QueueOf(s, thread, keys, maxFrameBytes);
      j + 1 < |t.order| && t.order[ControlAt(s)].opcode == CLOSE && t.order[j + 1] == s.order[j]
  {
    assert Sized(s) && InsertAt(s, true) <= |s.queue|;
    hide Inv, QueueOf, FlatMap, EncodedFrame, InsertAt;
    ControlQueued(s, thread, keys, maxFrameBytes);
  }

  lemma InsertBehind(order: seq<Frame>, at: nat, f: Frame, c: nat)
    requires at <= |order| && c < |order| && |DataFrames([f])| == 0
    ensures var order' := Insert(order, at, [f]);
      var c' := if at <= c then c + 1 else c;
      c' < |order'| && order'[c'] == order[c] && DataFrames(order'[c' + 1..]) == DataFrames(order[c + 1..])
  {
    var order' := Insert(order, at, [f]);
    if at <= c {
      assert order'[c + 2..] == order[c + 1..];
    } else {
      assert order'[c + 1..] == Insert(order[c + 1..], at - (c + 1), [f]);
      InsertData(order[c + 1..], at - (c + 1), [f]);
    }
  }

  // ----- Once a close was sent -----

  /** How one state follows another, as far as the frame at `c` is concerned. */
  ghost predicate Follows(s: State, c: nat, t: State, c': nat) {
    && t.closeSent && c < |s.order| && c' < |t.order| && t.order[c'] == s.order[c]
    && DataFrames(Behind(s, c)) <= DataFrames(Behind(t, c'))
    && (forall thread | HoldsData(t, thread) :: HoldsData(s, thread))
    && ((forall thread :: !HoldsData(s, thread)) ==> DataFrames(Behind(t, c')) == DataFrames(Behind(s, c)))
  }

  /** Data is there, or in hand. */
  ghost predicate DataToCome(s: State, c: nat) {
    |DataFrames(Behind(s, c))| > 0 || exists thread :: HoldsData(s, thread)
  }

  /** Nothing but the calls in hand changes. */
  lemma OrderStays(s: State, t: State, c: nat)
    requires t.closeSent && t.order == s.order && c < |s.order|
    requires forall thread :: HoldsData(t, thread) <==> HoldsData(s, thread)
    ensures Follows(s, c, t, c) && (DataToCome(t, c) <==> DataToCome(s, c))
  {
    hide DataFrames;
  }

  lemma WriteStays(s: State, taken: nat, c: nat)
    requires s.closeSent && c < |s.order|
    ensures var t := WriteTo(s, taken); Follows(s, c, t, c) && (DataToCome(t, c) <==> DataToCome(s, c))
  {
    OrderStays(s, WriteTo(s, taken), c);
  }

  /** Once a close was sent, no data passes the test. */
  lemma TestStays(s: State, thread: nat, opcode: nat, payload: bytes, c: nat)
    requires s.closeSent && c < |s.order|
    ensures var t := TestOf(s, thread, opcode, payload); Follows(s, c, t, c) && (DataToCome(t, c) <==> DataToCome(s, c))
  {
    OrderStays(s, TestOf(s, thread, opcode, payload), c);
  }

  lemma ControlStays(s: State, thread: nat, keys: seq<nat>, maxFrameBytes: int, c: nat)
    requires Inv(s) && s.closeSent && c < |s.order| && HoldsControl(s, thread)
    ensures var t, c' := QueueOf(s, thread, keys, maxFrameBytes), if ControlAt(s) <= c then c + 1 else c;
      Follows(s, c, t, c') && (DataToCome(t, c') <==> DataToCome(s, c))
  {
    assert Sized(s) && ControlAt(s) <= |s.order|;
    hide Inv, QueueOf, ControlAt, Insert, EncodedFrame, FlatMap, Follows, DataToCome, HoldsData, IsControl;
    var call := s.admitted[thread];
    var t, f := QueueOf(s, thread, keys, maxFrameBytes), EncodedFrame(call.opcode, true, call.payload);
    ControlQueued(s, thread, keys, maxFrameBytes);
    SameInHand(s, thread, t);
    ControlInserted(s, t, ControlAt(s), f, c);
  }

  lemma SameInHand(s: State, thread: nat, t: State)
    requires HoldsControl(s, thread) && t.admitted == s.admitted - {thread}
    ensures forall other :: HoldsData(t, other) <==> HoldsData(s, other)
  {
  }

  lemma ControlInserted(s: State, t: State, at: nat, f: Frame, c: nat)
    requires at <= |s.order| && c < |s.order| && |DataFrames([f])| == 0
    requires t.closeSent && t.order == Insert(s.order, at, [f])
    requires forall thread :: HoldsData(t, thread) <==> HoldsData(s, thread)
    ensures var c' := if at <= c then c + 1 else c; Follows(s, c, t, c') && (DataToCome(t, c') <==> DataToCome(s, c))
  {
    hide *;
    InsertBehind(s.order, at, f, c);
    SameBehind(s, c, t, if at <= c then c + 1 else c);
  }

  lemma SameBehind(s: State, c: nat, t: State, c': nat)
    requires t.closeSent && c < |s.order| && c' < |t.order| && t.order[c'] == s.order[c]
    requires DataFrames(t.order[c' + 1..]) == DataFrames(s.order[c + 1..])
    requires forall thread :: HoldsData(t, thread) <==> HoldsData(s, thread)
    ensures Follows(s, c, t, c') && (DataToCome(t, c') <==> DataToCome(s, c))
  {
    hide DataFrames, HoldsData;
  }

  lemma DataArrives(s: State, thread: nat, keys: seq<nat>, maxFrameBytes: int, c: nat)
    requires Inv(s) && s.closeSent && c < |s.order| && HoldsData(s, thread)
    ensures var t := QueueOf(s, thread, keys, maxFrameBytes); Follows(s, c, t, c) && DataToCome(t, c) && DataToCome(s, c)
  {
    assert Sized(s);
    hide Inv, QueueOf, FlatMap, SentFrames;
    DataQueued(s, thread, keys, maxFrameBytes);
    var t := QueueOf(s, thread, keys, maxFrameBytes);
    var frames := SentFrames(s.admitted[thread].opcode, s.admitted[thread].payload, maxFrameBytes);
    assert Behind(t, c) == Behind(s, c) + frames;
    FlatMapAppend(DataOf, Behind(s, c), frames);
  }

  lemma StepFollows(s: State, step: Step, maxFrameBytes: int, c: nat)
    requires Inv(s) && s.closeSent && c < |s.order|
    ensures var t, c' := Apply(s, step, maxFrameBytes), Moved(s, step, c);
      Inv(t) && Follows(s, c, t, c') && (DataToCome(t, c') <==> DataToCome(s, c))
  {
    assert Sized(s);
    hide Inv, QueueOf, TestOf, WriteTo, Follows, DataToCome, ControlAt;
    match step {
      case Test(thread, opcode, payload) =>
        TestKeepsInv(s, thread, opcode, payload);
        TestStays(s, thread, opcode, payload, c);
      case Queue(thread, keys) =>
        QueueKeepsInv(s, thread, keys, maxFrameBytes);
        if HoldsControl(s, thread) {
          ControlStays(s, thread, keys, maxFrameBytes, c);
        } else if HoldsData(s, thread) {
          DataArrives(s, thread, keys, maxFrameBytes, c);
        } else {
          NothingQueued(s, thread, keys, maxFrameBytes);
          OrderStays(s, s, c);
        }
      case Write(taken) =>
        WriteKeepsInv(s, taken);
        WriteStays(s, taken, c);
    }
  }

  lemma NothingQueued(s: State, thread: nat, keys: seq<nat>, maxFrameBytes: int)
    requires Sized(s) && thread !in s.admitted
    ensures QueueOf(s, thread, keys, maxFrameBytes) == s
  {
  }

  lemma FollowsOn(s: State, c: nat, t: State, c': nat, u: State, c'': nat)
    requires Follows(s, c, t, c') && Follows(t, c', u, c'')
    ensures Follows(s, c, u, c'')
  {
    hide DataFrames, HoldsData, Behind;
  }

  /** After a close has passed its test, whatever is called and written later: the data frames behind a place in
      the order stay where they are; others join them only from calls that were in hand; and whether any come at
      all does not change. */
  lemma {:induction false} BehindForGood(s: State, steps: seq<Step>, maxFrameBytes: int, c: nat)
    requires Inv(s) && s.closeSent && c < |s.order|
    ensures var t, c' := Run(s, steps, maxFrameBytes), Tracked(s, steps, maxFrameBytes, c);
      Inv(t) && Follows(s, c, t, c') && (DataToCome(t, c') <==> DataToCome(s, c))
    decreases |steps|
  {
    if |steps| == 0 {
      OrderStays(s, s, c);
    } else {
      StepFollows(s, steps[0], maxFrameBytes, c);
      var t, c' := Apply(s, steps[0], maxFrameBytes), Moved(s, steps[0], c);
      assert t.closeSent && c' < |t.order|;
      hide Apply, Inv, Moved, Follows, DataToCome;
      BehindForGood(t, steps[1..], maxFrameBytes, c');
      FollowsOn(s, c, t, c', Run(t, steps[1..], maxFrameBytes), Tracked(t, steps[1..], maxFrameBytes, c'));
    }
  }

  // ----- What is written -----

  /** A data frame wholly written after the frame at `c`. */
  predicate DataFollows(s: State, c: nat, j: nat) {
    c < j < |s.sent| && j < |s.order| && !IsControl(s.order[j].opcode)
  }

  /** Some schedule writes a data frame after the frame at `c`. */
  ghost predicate DataCanFollow(s: State, c: nat, maxFrameBytes: int)
    requires Sized(s)
  {
    exists after, j :: DataFollows(Run(s, after, maxFrameBytes), Tracked(s, after, maxFrameBytes, c), j)
  }

  /** A data frame that waits and of which nothing has been written. */
  predicate WaitsUnbegun(s: State, j: nat) {
    ControlAt(s) <= j < |s.order| && !IsControl(s.order[j].opcode)
  }

  lemma {:induction false} SomeData(fs: seq<Frame>)
    ensures |DataFrames(fs)| > 0 <==> exists j :: 0 <= j < |fs| && !IsControl(fs[j].opcode)
  {
    if |fs| > 0 {
      SomeData(fs[1..]);
      if j :| 0 <= j < |fs| && !IsControl(fs[j].opcode) {
        assert j == 0 || !IsControl(fs[1..][j - 1].opcode);
      }
      if j :| 0 <= j < |fs[1..]| && !IsControl(fs[1..][j].opcode) {
        assert !IsControl(fs[j + 1].opcode);
      }
    }
  }

  predicate OnlyWrites(steps: seq<Step>) {
    forall i | 0 <= i < |steps| :: steps[i].Write?
  }

  /** The socket takes everything. */
  lemma {:induction false} AllGoesOut(s: State, maxFrameBytes: int, c: nat) returns (steps: seq<Step>)
    requires Inv(s)
    ensures OnlyWrites(steps) && var t := Run(s, steps, maxFrameBytes);
      |t.queue| == 0 && t.order == s.order && t.admitted == s.admitted && Tracked(s, steps, maxFrameBytes, c) == c && |t.sent| == |s.order|
    decreases |s.queue|
  {
    if |s.queue| == 0 {
      steps := [];
    } else {
      var w := Write(|s.queue[0]| - s.headOffset);
      var t := Apply(s, w, maxFrameBytes);
      WriteKeepsInv(s, w.taken);
      assert t.order == s.order && t.queue == s.queue[1..] && t.admitted == s.admitted;
      hide Inv;
      var rest := AllGoesOut(t, maxFrameBytes, c);
      steps := [w] + rest;
      assert steps[1..] == rest;
    }
  }

  lemma DataIsBehind(s: State, c: nat, j: nat)
    requires DataFollows(s, c, j)
    ensures |DataFrames(Behind(s, c))| > 0
  {
    SomeData(Behind(s, c));
    assert Behind(s, c)[j - (c + 1)] == s.order[j];
  }

  lemma BehindIsData(s: State, c: nat) returns (j: nat)
    requires |DataFrames(Behind(s, c))| > 0
    ensures c < j < |s.order| && !IsControl(s.order[j].opcode)
  {
    SomeData(Behind(s, c));
    var i :| 0 <= i < |Behind(s, c)| && !IsControl(Behind(s, c)[i].opcode);
    j := c + 1 + i;
  }

  lemma BehindIsWritten(s: State, c: nat, maxFrameBytes: int)
    requires Inv(s) && |DataFrames(Behind(s, c))| > 0
    ensures Sized(s) && DataCanFollow(s, c, maxFrameBytes)
  {
    assert Sized(s);
    hide Inv, Run, Tracked, DataFrames;
    var after := AllGoesOut(s, maxFrameBytes, c);
    var j := BehindIsData(s, c);
    assert DataFollows(Run(s, after, maxFrameBytes), Tracked(s, after, maxFrameBytes, c), j);
  }

  /** Data in hand is queued and goes out behind. */
  lemma InHandIsWritten(s: State, c: nat, thread: nat, maxFrameBytes: int)
    requires Inv(s) && s.closeSent && c < |s.order| && HoldsData(s, thread)
    ensures Sized(s) && DataCanFollow(s, c, maxFrameBytes)
  {
    assert Sized(s);
    var step := Queue(thread, []);
    var t := Apply(s, step, maxFrameBytes);
    QueueKeepsInv(s, thread, [], maxFrameBytes);
    NewDataIsBehind(s, thread, maxFrameBytes, c);
    hide Inv, Run, Tracked, DataFrames, DataFollows, Behind;
    BehindIsWritten(t, c, maxFrameBytes);
    var after: seq<Step>, j: nat :| DataFollows(Run(t, after, maxFrameBytes), Tracked(t, after, maxFrameBytes, c), j);
    OneStepBefore(s, step, after, maxFrameBytes, c);
    assert DataFollows(Run(s, [step] + after, maxFrameBytes), Tracked(s, [step] + after, maxFrameBytes, c), j);
  }

  lemma NewDataIsBehind(s: State, thread: nat, maxFrameBytes: int, c: nat)
    requires Inv(s) && c < |s.order| && HoldsData(s, thread)
    ensures |DataFrames(Behind(QueueOf(s, thread, [], maxFrameBytes), c))| > 0
  {
    assert Sized(s);
    hide Inv, QueueOf, FlatMap, SentFrames;
    DataQueued(s, thread, [], maxFrameBytes);
    var frames := SentFrames(s.admitted[thread].opcode, s.admitted[thread].payload, maxFrameBytes);
    assert Behind(QueueOf(s, thread, [], maxFrameBytes), c) == Behind(s, c) + frames;
    FlatMapAppend(DataOf, Behind(s, c), frames);
  }

  lemma OneStepBefore(s: State, step: Step, after: seq<Step>, maxFrameBytes: int, c: nat)
    requires Sized(s)
    ensures Run(s, [step] + after, maxFrameBytes) == Run(Apply(s, step, maxFrameBytes), after, maxFrameBytes)
    ensures Tracked(s, [step] + after, maxFrameBytes, c)
      == Tracked(Apply(s, step, maxFrameBytes), after, maxFrameBytes, Moved(s, step, c))
  {
    assert ([step] + after)[1..] == after;
  }

  lemma FollowsIfToCome(s: State, c: nat, maxFrameBytes: int)
    requires Inv(s) && s.closeSent && c < |s.order|
    ensures Sized(s) && (DataCanFollow(s, c, maxFrameBytes) <==> DataToCome(s, c))
  {
    assert Sized(s);
    hide Inv, Run, Tracked, DataFrames, HoldsData, Follows, Behind;
    if after: seq<Step>, j: nat :| DataFollows(Run(s, after, maxFrameBytes), Tracked(s, after, maxFrameBytes, c), j) {
      BehindForGood(s, after, maxFrameBytes, c);
      DataIsBehind(Run(s, after, maxFrameBytes), Tracked(s, after, maxFrameBytes, c), j);
    }
    if |DataFrames(Behind(s, c))| > 0 {
      BehindIsWritten(s, c, maxFrameBytes);
    }
    if thread: nat :| HoldsData(s, thread) {
      InHandIsWritten(s, c, thread, maxFrameBytes);
    }
  }

  // ----- The main result -----

  lemma CloseQueued(s: State, thread: nat, keys: seq<nat>, maxFrameBytes: int)
    requires Inv(s) && thread in s.admitted && s.admitted[thread].opcode == CLOSE
    ensures var t, c := QueueOf(s, thread, keys, maxFrameBytes), ControlAt(s);
      && Inv(t) && t.closeSent && c < |t.order| && t.order[c].opcode == CLOSE
      && (|DataFrames(Behind(t, c))| > 0 <==> exists j :: WaitsUnbegun(s, j))
      && (forall other :: HoldsData(t, other) <==> HoldsData(s, other))
  {
    var t, c := QueueOf(s, thread, keys, maxFrameBytes), ControlAt(s);
    QueueKeepsInv(s, thread, keys, maxFrameBytes);
    assert Sized(s) && c <= |s.order| && s.closeSent;
    hide Inv, QueueOf, FlatMap, EncodedFrame, ControlAt;
    ControlQueued(s, thread, keys, maxFrameBytes);
    assert t.order[c] == EncodedFrame(CLOSE, true, s.admitted[thread].payload) && Behind(t, c) == s.order[c..];
    assert forall other :: HoldsData(t, other) <==> HoldsData(s, other);
    hide *;
    UnbegunData(s, c);
  }

  lemma UnbegunData(s: State, c: nat)
    requires c == ControlAt(s) <= |s.order|
    ensures |DataFrames(s.order[c..])| > 0 <==> exists j :: WaitsUnbegun(s, j)
  {
    var rest := s.order[c..];
    SomeData(rest);
    hide FlatMap, ControlAt;
    if j: nat :| WaitsUnbegun(s, j) {
      assert !IsControl(rest[j - c].opcode);
    }
    if j :| 0 <= j < |rest| && !IsControl(rest[j].opcode) {
      assert WaitsUnbegun(s, c + j);
    }
  }

  /** After any run a close is queued: data frames can follow that close on the wire if and only if, when it
      takes the lock, a data frame waits of which nothing has been written, or another thread is in a call that
      passed its test with data and has not queued it. */
  lemma DataFollowsCloseExactly(before: seq<Step>, thread: nat, keys: seq<nat>, maxFrameBytes: int)
    requires var s := Run(EMPTY, before, maxFrameBytes); thread in s.admitted && s.admitted[thread].opcode == CLOSE
    ensures var s := Run(EMPTY, before, maxFrameBytes);
      var t := QueueOf(s, thread, keys, maxFrameBytes);
      && Sized(t) && ControlAt(s) < |t.order| && t.order[ControlAt(s)].opcode == CLOSE
      && (DataCanFollow(t, ControlAt(s), maxFrameBytes)
        <==> (exists j :: WaitsUnbegun(s, j)) || (exists other :: HoldsData(s, other)))
  {
    RunKeepsInv(EMPTY, before, maxFrameBytes);
    var s := Run(EMPTY, before, maxFrameBytes);
    assert Sized(s);
    hide Inv, Run, QueueOf, ControlAt, DataFrames, HoldsData, WaitsUnbegun, Behind, DataCanFollow;
    CloseQueued(s, thread, keys, maxFrameBytes);
    FollowsIfToCome(QueueOf(s, thread, keys, maxFrameBytes), ControlAt(s), maxFrameBytes);
  }

  // ----- The call caught in between -----

  lemma {:induction false} RunOn(s: State, a: seq<Step>, b: seq<Step>, maxFrameBytes: int)
    requires Sized(s)
    ensures Run(s, a + b, maxFrameBytes) == Run(Run(s, a, maxFrameBytes), b, maxFrameBytes)
    decreases |a|
  {
    if |a| == 0 {
      assert a + b == b;
    } else {
      assert (a + b)[0] == a[0] && (a + b)[1..] == a[1..] + b;
      RunOn(Apply(s, a[0], maxFrameBytes), a[1..], b, maxFrameBytes);
    }
  }

  /** Both calls have passed their tests, the data first. */
  lemma BothInHand(opcode: nat, payload: bytes, maxFrameBytes: int)
    requires MayBeSent(Call(opcode, payload)) && !IsControl(opcode)
    ensures Run(EMPTY, [Test(0, opcode, payload), Test(1, CLOSE, [])], maxFrameBytes)
      == EMPTY.(admitted := map[0 := Call(opcode, payload), 1 := Call(CLOSE, [])], closeSent := true)
  {
    var a, b := Test(0, opcode, payload), Test(1, CLOSE, []);
    assert [a, b][1..] == [b] && [b][1..] == [];
    var s := Apply(EMPTY, a, maxFrameBytes);
    assert s == EMPTY.(admitted := map[0 := Call(opcode, payload)]);
    assert Run(EMPTY, [a, b], maxFrameBytes) == Run(s, [b], maxFrameBytes) == Apply(s, b, maxFrameBytes);
  }

  lemma NobodyWaits(s: State, j: nat)
    requires |s.order| == 0
    ensures !WaitsUnbegun(s, j)
  {
  }

  /** Nothing is queued. A call passes its test with data; another thread sends a close, which is queued and
      written; then the data takes the lock. For all data it goes out, whole, behind the close. */
  lemma CaughtDataFollowsClose(opcode: nat, payload: bytes, maxFrameBytes: int) returns (flush: seq<Step>, rest: seq<Step>)
    requires MayBeSent(Call(opcode, payload)) && !IsControl(opcode)
    ensures OnlyWrites(flush) && OnlyWrites(rest)
    ensures var caught := Run(EMPTY, [Test(0, opcode, payload), Test(1, CLOSE, [])], maxFrameBytes);
      var closed := Run(caught, [Queue(1, [])] + flush, maxFrameBytes);
      var t := Run(closed, [Queue(0, [])] + rest, maxFrameBytes);
      && (forall j :: !WaitsUnbegun(caught, j))
      && closed.order == [EncodedFrame(CLOSE, true, [])] && |closed.sent| == 1
      && t.order == closed.order + SentFrames(opcode, payload, maxFrameBytes) && |t.sent| == |t.order|
  {
    var before := [Test(0, opcode, payload), Test(1, CLOSE, [])];
    var caught := Run(EMPTY, before, maxFrameBytes);
    BothInHand(opcode, payload, maxFrameBytes);
    RunKeepsInv(EMPTY, before, maxFrameBytes);
    var queued := QueueOf(caught, 1, [], maxFrameBytes);
    ControlQueued(caught, 1, [], maxFrameBytes);
    assert queued.order == [EncodedFrame(CLOSE, true, [])];
    QueueKeepsInv(caught, 1, [], maxFrameBytes);
    forall j
      ensures !WaitsUnbegun(caught, j)
    {
      NobodyWaits(caught, j);
    }
    assert queued.admitted[0] == Call(opcode, payload);
    hide *;
    flush, rest := ThenData(caught, queued, opcode, payload, maxFrameBytes);
  }

  lemma ThenData(caught: State, queued: State, opcode: nat, payload: bytes, maxFrameBytes: int)
    returns (flush: seq<Step>, rest: seq<Step>)
    requires Inv(caught) && Sized(caught) && queued == Apply(caught, Queue(1, []), maxFrameBytes) && Inv(queued)
    requires |queued.order| == 1 && 0 in queued.admitted && queued.admitted[0] == Call(opcode, payload)
    requires MayBeSent(Call(opcode, payload)) && !IsControl(opcode)
    ensures OnlyWrites(flush) && OnlyWrites(rest)
    ensures var closed := Run(caught, [Queue(1, [])] + flush, maxFrameBytes);
      var t := Run(closed, [Queue(0, [])] + rest, maxFrameBytes);
      && closed.order == queued.order && |closed.sent| == 1
      && t.order == closed.order + SentFrames(opcode, payload, maxFrameBytes) && |t.sent| == |t.order|
  {
    hide Inv, QueueOf, Run, SentFrames, Apply;
    flush := AllGoesOut(queued, maxFrameBytes, 0);
    OneStepBefore(caught, Queue(1, []), flush, maxFrameBytes, 0);
    RunKeepsInv(queued, flush, maxFrameBytes);
    var closed := Run(queued, flush, maxFrameBytes);
    assert HoldsData(closed, 0);
    DataQueued(closed, 0, [], maxFrameBytes);
    QueueKeepsInv(closed, 0, [], maxFrameBytes);
    QueueStep(closed, maxFrameBytes);
    var sent := Apply(closed, Queue(0, []), maxFrameBytes);
    rest := AllGoesOut(sent, maxFrameBytes, 0);
    OneStepBefore(closed, Queue(0, []), rest, maxFrameBytes, 0);
  }

  lemma QueueStep(s: State, maxFrameBytes: int)
    requires Sized(s)
    ensures Apply(s, Queue(0, []), maxFrameBytes) == QueueOf(s, 0, [], maxFrameBytes)
  {
  }
}
