/** How a streamed response ends: exactly when in success, what a cancel and the ceiling on its size do to that, what
    its head says, how much credit it has had and how large its chunks are. */
module StreamEnds {
  import opened Bytes
  import opened Seqs
  import opened ResponseStream

  lemma RunThen(c: Config, credits: nat, steps: seq<Step>, step: Step)
    ensures Run(c, credits, steps + [step]) == Apply(c, Run(c, credits, steps), step)
  {
    assert (steps + [step])[..|steps|] == steps;
  }

  ghost predicate Cancelled(steps: seq<Step>) {
    exists i :: 0 <= i < |steps| && steps[i].Cancel?
  }

  /** The credit granted on the way: only positive counts add any. */
  function GrantedBy(steps: seq<Step>): nat {
    if |steps| == 0 then 0 else
    var last := steps[|steps| - 1];
    GrantedBy(steps[..|steps| - 1]) + if last.Grant? && last.count > 0 then last.count else 0
  }

  /** A head that reports an error is followed by the error and nothing else. */
  predicate HeadInv(emitted: seq<Emitted>) {
    |emitted| > 0 && emitted[0] == Head(false) ==> emitted == [Head(false), Terminal(false)]
  }

  /** While the stream is open, the bytes counted are those shown or held, and within the ceiling. */
  predicate CeilingInv(c: Config, s: State) {
    c.maxBytes > 0 && !c.notModified && !s.completed ==>
      s.next <= |c.blocks| && s.bodyBytes == |Body(c, s.next)| && s.bodyBytes <= c.maxBytes
  }

  lemma WriteKeepsCeiling(c: Config, s: State, aged: bool)
    requires Inv(c, s) && CeilingInv(c, s)
    ensures CeilingInv(c, WriteBlock(c, s, aged))
  {
    hide FlatMap, Target, Shape;
  }

  lemma OthersKeepCeiling(c: Config, s: State, step: Step)
    requires Inv(c, s) && CeilingInv(c, s) && !step.Deliver?
    ensures CeilingInv(c, Apply(c, s, step))
  {
    hide FlatMap, Target, Shape, Body;
  }

  /** While a stream is open, the head it has sent is the response's own. */
  lemma OpenHead(s: State)
    requires Shape(s.emitted, s.headSent, s.completed) && HeadInv(s.emitted) && !s.completed && s.headSent
    ensures s.emitted[0] == Head(true)
  {
    if |s.emitted| == 2 {
      assert s.emitted[1].Data?;
    }
  }

  lemma WriteKeepsHead(c: Config, s: State, aged: bool)
    requires Inv(c, s) && HeadInv(s.emitted)
    ensures HeadInv(WriteBlock(c, s, aged).emitted)
  {
    if !s.completed && s.headSent {
      OpenHead(s);
    }
    hide FlatMap, Target, Body, OutOf, ContentInv, CreditInv;
  }

  lemma FinishKeepsHead(c: Config, s: State, ok: bool)
    requires Inv(c, s) && HeadInv(s.emitted)
    ensures HeadInv(FinishWith(c, s, ok).emitted)
  {
    hide FlatMap, Target, Body, Pieces;
    if !s.completed {
      if s.headSent {
        OpenHead(s);
      }
      if ok && c.notModified && c.cached.Stored? && !s.cancelled {
        assert s.emitted == [];
      }
    }
  }

  lemma OthersKeepHead(c: Config, s: State, step: Step)
    requires Inv(c, s) && HeadInv(s.emitted) && !step.Deliver?
    ensures HeadInv(Apply(c, s, step).emitted)
  {
    hide FlatMap, Target, Body;
    if !s.completed && s.headSent {
      OpenHead(s);
    }
    match step {
      case Finish(ok) =>
        FinishKeepsHead(c, s, ok);
        hide FinishWith, HeadInv;
      case Fail =>
      case FlushAged =>
      case HeadersEnd =>
      case _ =>
    }
  }

  /** The two that only record: whether it was cancelled, and the credit it has had. */
  predicate SameRecords(s: State, t: State) {
    t.cancelled == s.cancelled && t.granted == s.granted
  }

  lemma ErrorRecords(s: State)
    ensures SameRecords(s, CompleteWithError(s))
  {
  }

  lemma ShowRecords(s: State, out: bytes, aged: bool)
    ensures SameRecords(s, Show(s, out, aged))
  {
  }

  lemma AcceptRecords(c: Config, s: State, b: Block, aged: bool)
    ensures SameRecords(s, Accept(c, s, b, aged))
  {
    var out := OutOf(c, b);
    var count := if c.maxBytes > 0 then s.bodyBytes + |out| else s.bodyBytes;
    hide OutOf, CompleteWithError, Show;
    if c.decoding && b.bad {
      ErrorRecords(s);
    } else if c.maxBytes > 0 && count > c.maxBytes {
      ErrorRecords(s.(bodyBytes := count));
    } else {
      ShowRecords(s.(next := s.next + 1, bodyBytes := count, accepted := s.accepted + out), out, aged);
    }
  }

  lemma WriteRecords(c: Config, s: State, aged: bool)
    ensures SameRecords(s, WriteBlock(c, s, aged))
  {
    if s.next < |c.blocks| {
      AcceptRecords(c, EmitHead(c, s), c.blocks[s.next], aged);
    }
    hide Target, Accept;
  }

  lemma FinishRecords(c: Config, s: State, ok: bool)
    ensures SameRecords(s, FinishWith(c, s, ok))
  {
    hide Target, Pieces;
  }

  lemma StepRecords(c: Config, s: State, step: Step)
    ensures var t := Apply(c, s, step);
      && (t.cancelled <==> s.cancelled || step.Cancel?)
      && t.granted == s.granted + if step.Grant? && step.count > 0 then step.count else 0
  {
    match step {
      case Deliver(aged) => WriteRecords(c, s, aged);
      case Finish(ok) => FinishRecords(c, s, ok);
      case _ =>
    }
    hide WriteBlock, FinishWith, Target;
  }

  ghost predicate EndInv(c: Config, s: State, credits: nat, steps: seq<Step>) {
    && HeadInv(s.emitted) && CeilingInv(c, s)
    && (s.cancelled <==> Cancelled(steps)) && s.granted == credits + GrantedBy(steps)
  }

  lemma AppliesWrite(c: Config, s: State, aged: bool)
    ensures Apply(c, s, Deliver(aged)) == WriteBlock(c, s, aged)
  {
    hide WriteBlock;
  }

  lemma {:induction false} RunEnds(c: Config, credits: nat, steps: seq<Step>)
    ensures EndInv(c, Run(c, credits, steps), credits, steps)
  {
    hide Apply, Inv;
    if |steps| > 0 {
      var before, step := steps[..|steps| - 1], steps[|steps| - 1];
      var s := Run(c, credits, before);
      RunEnds(c, credits, before);
      RunKeepsInv(c, credits, before);
      StepRecords(c, s, step);
      if step.Deliver? {
        AppliesWrite(c, s, step.aged);
        WriteKeepsCeiling(c, s, step.aged);
        WriteKeepsHead(c, s, step.aged);
      } else {
        OthersKeepCeiling(c, s, step);
        OthersKeepHead(c, s, step);
      }
      assert forall i | 0 <= i < |before| :: steps[i] == before[i];
    }
  }

  // ----- Success -----

  /** The body ends well: it is a stored one, or the decoder, if there is one, ended on a boundary. */
  predicate EndsWell(c: Config) {
    (c.notModified && c.cached.Stored?) || !c.decoding || !c.tailBad
  }

  lemma FinishEnds(c: Config, s: State, ok: bool)
    requires !s.completed && (ok ==> s.next >= |c.blocks| && !s.writePaused)
    ensures var t := FinishWith(c, s, ok);
      t.completed && |t.emitted| > 0 && t.emitted[|t.emitted| - 1] == Terminal(ok && !s.cancelled && EndsWell(c))
  {
    ErrorIsNoSuccess(s);
    ErrorIsNoSuccess(EmitHead(c, s));
    hide Pieces, Target;
    if s.cancelled || !ok {
    } else if c.notModified && c.cached.Stored? {
    } else if c.decoding && c.tailBad {
    } else {
    }
  }

  lemma AppliesFinish(c: Config, s: State, ok: bool)
    ensures Apply(c, s, Finish(ok)) == FinishWith(c, s, ok)
  {
    hide FinishWith;
  }

  /** Over every run: when curl has delivered everything, or reports a failure, the stream completes; and it ends in
      success if and only if curl does, it was never cancelled, and the body ends well. */
  lemma EndsInSuccessExactly(c: Config, credits: nat, steps: seq<Step>, ok: bool)
    requires var s := Run(c, credits, steps); !s.completed && (ok ==> s.next >= |c.blocks| && !s.writePaused)
    ensures var t := Run(c, credits, steps + [Finish(ok)]);
      t.completed && (Succeeded(t) <==> ok && !Cancelled(steps) && EndsWell(c))
  {
    RunThen(c, credits, steps, Finish(ok));
    RunEnds(c, credits, steps);
    FinishEnds(c, Run(c, credits, steps), ok);
    AppliesFinish(c, Run(c, credits, steps), ok);
    hide Run, Apply, FinishWith, EndsWell, Cancelled, HeadInv, CeilingInv;
  }

  /** The step at `k` ends the stream in success. */
  ghost predicate SuccessAt(c: Config, credits: nat, steps: seq<Step>, k: nat) {
    k < |steps| && steps[k] == Finish(true) && EndsWell(c) && !Cancelled(steps[..k])
    && var s := Run(c, credits, steps[..k]); !s.completed && s.next >= |c.blocks| && !s.writePaused
  }

  lemma OthersAreNoSuccess(c: Config, s: State, step: Step)
    requires Shape(s.emitted, s.headSent, s.completed) && !s.completed && !step.Finish? && !step.Deliver?
    ensures !Succeeded(Apply(c, s, step))
  {
    NotYetSucceeded(s);
    hide Target, FlatMap;
    match step {
      case HeadersEnd =>
      case Fail => ErrorIsNoSuccess(s);
      case FlushAged =>
      case _ =>
    }
  }

  /** What makes a step end the stream in success. */
  predicate Succeeds(c: Config, s: State, step: Step) {
    step == Finish(true) && EndsWell(c) && !s.cancelled && !s.completed && s.next >= |c.blocks| && !s.writePaused
  }

  lemma StepSucceeds(c: Config, s: State, step: Step)
    requires Inv(c, s)
    ensures Succeeded(Apply(c, s, step)) <==> Succeeded(s) || Succeeds(c, s, step)
  {
    if s.completed {
      CompletedStays(c, s, step);
    } else {
      NotYetSucceeded(s);
      if step.Finish? {
        if step.ok && (s.next < |c.blocks| || s.writePaused) {
          FinishWaits(c, s);
        } else {
          FinishEnds(c, s, step.ok);
        }
      } else if step.Deliver? {
        AppliesWrite(c, s, step.aged);
        DeliverIsNoSuccess(c, s, step.aged);
      } else {
        OthersAreNoSuccess(c, s, step);
      }
      hide Inv, WriteBlock, FinishWith, CompleteWithError, Target, Succeeded, EmitHead, Flush, GrantTo, EndsWell;
    }
  }

  lemma FinishWaits(c: Config, s: State)
    requires s.next < |c.blocks| || s.writePaused
    ensures FinishWith(c, s, true) == s
  {
  }

  /** Over every run: it has ended in success if and only if some step did so, under that condition. */
  lemma {:induction false} SucceedsExactly(c: Config, credits: nat, steps: seq<Step>)
    ensures Succeeded(Run(c, credits, steps)) <==> exists k :: SuccessAt(c, credits, steps, k)
  {
    hide Apply, Inv, EndsWell, Succeeded;
    if |steps| == 0 {
      assert !Succeeded(Init(credits)) by {
        NothingShown(credits);
      }
    } else {
      var n := |steps| - 1;
      var before, step := steps[..n], steps[n];
      SucceedsExactly(c, credits, before);
      RunKeepsInv(c, credits, before);
      RunEnds(c, credits, before);
      StepSucceeds(c, Run(c, credits, before), step);
      SuccessGrows(c, credits, steps);
    }
  }

  lemma NothingShown(credits: nat)
    ensures !Succeeded(Init(credits))
  {
  }

  lemma SuccessGrows(c: Config, credits: nat, steps: seq<Step>)
    requires |steps| > 0
    ensures var n := |steps| - 1;
      (exists k :: SuccessAt(c, credits, steps, k))
        <==> (exists k :: SuccessAt(c, credits, steps[..n], k)) || SuccessAt(c, credits, steps, n)
  {
    hide Run, EndsWell, Cancelled;
    var n := |steps| - 1;
    assert forall k | 0 <= k < n :: steps[..n][..k] == steps[..k];
    if k: nat :| SuccessAt(c, credits, steps, k) {
      if k < n {
        assert SuccessAt(c, credits, steps[..n], k);
      }
    }
    if k: nat :| SuccessAt(c, credits, steps[..n], k) {
      assert SuccessAt(c, credits, steps, k);
    }
  }

  /** A stream cancelled before it ended in success never does, whatever curl reports afterwards. */
  lemma CancelledNeverSucceeds(c: Config, credits: nat, before: seq<Step>, after: seq<Step>)
    requires !Succeeded(Run(c, credits, before))
    ensures !Succeeded(Run(c, credits, before + [Cancel] + after))
  {
    var steps := before + [Cancel] + after;
    hide Run, EndsWell, Succeeded;
    SucceedsExactly(c, credits, before);
    SucceedsExactly(c, credits, steps);
    forall k: nat
      ensures !SuccessAt(c, credits, steps, k)
    {
      if k < |before| {
        assert steps[..k] == before[..k];
        assert !SuccessAt(c, credits, before, k);
      } else if |before| < k < |steps| {
        assert steps[..k][|before|] == Cancel;
      }
    }
  }

  lemma WithinCeiling(c: Config, s: State)
    requires Inv(c, s) && CeilingInv(c, s) && !s.completed && s.next >= |c.blocks|
    requires c.maxBytes > 0 && !c.notModified
    ensures |Body(c, |c.blocks|)| <= c.maxBytes
  {
    assert s.next == |c.blocks|;
  }

  /** A body longer than a positive ceiling never succeeds. */
  lemma TooLongNeverSucceeds(c: Config, credits: nat, steps: seq<Step>)
    requires c.maxBytes > 0 && !c.notModified && |Body(c, |c.blocks|)| > c.maxBytes
    ensures !Succeeded(Run(c, credits, steps))
  {
    SucceedsExactly(c, credits, steps);
    hide Run, Inv, CeilingInv, EndsWell, Succeeded;
    forall k: nat
      ensures !SuccessAt(c, credits, steps, k)
    {
      if k < |steps| {
        RunKeepsInv(c, credits, steps[..k]);
        RunEnds(c, credits, steps[..k]);
        var s := Run(c, credits, steps[..k]);
        if !s.completed && s.next >= |c.blocks| {
          WithinCeiling(c, s);
        }
      }
    }
  }

  /** The ceiling counts the blocks alone: a decoder's last bytes, however many, are shown in success beyond it. */
  lemma TailIsNotCounted(c: Config, credits: nat)
    requires c.blocks == [] && c.decoding && !c.tailBad && !c.notModified && 0 < c.maxBytes < |c.tail|
    ensures var s := Run(c, credits, [Finish(true)]); Succeeded(s) && Payloads(s.emitted) == c.tail
  {
    RunThen(c, credits, [], Finish(true));
    assert [] + [Finish(true)] == [Finish(true)];
    FinishEnds(c, Init(credits), true);
    SuccessIsWhole(c, credits, [Finish(true)]);
    hide Run, FinishWith;
    NilLeft(c.tail);
  }

  lemma CancelledWrite(c: Config, s: State, aged: bool)
    requires s.cancelled
    ensures WriteBlock(c, s, aged).accepted == s.accepted
  {
    hide EmitHead, Accept;
    if s.ended || s.writePaused || s.next >= |c.blocks| {
    } else {
    }
  }

  lemma CancelledFinish(c: Config, s: State, ok: bool)
    requires s.cancelled
    ensures FinishWith(c, s, ok).accepted == s.accepted
  {
    hide FinishBody, Replay;
    if s.completed || (ok && (s.next < |c.blocks| || s.writePaused)) {
    } else {
    }
  }

  lemma CancelledTakesNothing(c: Config, s: State, step: Step)
    requires s.cancelled
    ensures var t := Apply(c, s, step); t.cancelled && t.accepted == s.accepted
  {
    StepRecords(c, s, step);
    if step.Deliver? {
      AppliesWrite(c, s, step.aged);
      CancelledWrite(c, s, step.aged);
    } else if step.Finish? {
      AppliesFinish(c, s, step.ok);
      CancelledFinish(c, s, step.ok);
    } else if step.Fail? {
      assert Apply(c, s, step) == CompleteWithError(s);
    } else {
      OthersChangeNeither(c, s, step);
    }
    hide Apply, WriteBlock, FinishWith;
  }

  /** Nor does it take another byte of the body. */
  lemma {:induction false} CancelStopsBytes(c: Config, credits: nat, before: seq<Step>, after: seq<Step>)
    ensures var t := Run(c, credits, before + [Cancel] + after);
      t.cancelled && t.accepted == Run(c, credits, before).accepted
    decreases |after|
  {
    hide Apply;
    if |after| == 0 {
      NilRight(before + [Cancel]);
      RunThen(c, credits, before, Cancel);
      CancelMeans(c, Run(c, credits, before));
    } else {
      var n := |after| - 1;
      CancelStopsBytes(c, credits, before, after[..n]);
      assert before + [Cancel] + after == (before + [Cancel] + after[..n]) + [after[n]];
      RunThen(c, credits, before + [Cancel] + after[..n], after[n]);
      CancelledTakesNothing(c, Run(c, credits, before + [Cancel] + after[..n]), after[n]);
    }
  }

  lemma CancelMeans(c: Config, s: State)
    ensures Apply(c, s, Cancel) == s.(cancelled := true)
  {
  }

  // ----- No failure without a cause -----

  /** Nobody gave up on it and curl reported no failure. */
  ghost predicate Undisturbed(steps: seq<Step>) {
    forall i | 0 <= i < |steps| :: !steps[i].Fail? && !steps[i].Cancel? && steps[i] != Finish(false)
  }

  /** What the peer sent can be shown: it decodes, ends well and is not too long. */
  predicate Sound(c: Config) {
    && EndsWell(c)
    && (c.decoding ==> forall i | 0 <= i < |c.blocks| :: !c.blocks[i].bad)
    && (c.maxBytes > 0 && !c.notModified ==> |Body(c, |c.blocks|)| <= c.maxBytes)
  }

  lemma {:induction false} BodyGrows(c: Config, n: nat, m: nat)
    requires n <= m <= |c.blocks|
    ensures |Body(c, n)| <= |Body(c, m)|
    decreases m
  {
    if n < m {
      BodyGrows(c, n, m - 1);
    }
  }

  lemma SoundBlockFits(c: Config, s: State)
    requires Inv(c, s) && CeilingInv(c, s) && Sound(c) && !s.completed && !c.notModified && s.next < |c.blocks|
    ensures var b := c.blocks[s.next];
      !(c.decoding && b.bad) && (c.maxBytes > 0 ==> s.bodyBytes + |OutOf(c, b)| <= c.maxBytes)
  {
    BodyGrows(c, s.next + 1, |c.blocks|);
    assert Body(c, s.next + 1) == Body(c, s.next) + OutOf(c, c.blocks[s.next]);
    hide EndsWell, OutOf, FlatMap;
  }

  lemma ShownStaysOpen(s: State, out: bytes, aged: bool)
    ensures Show(s, out, aged).completed == s.completed
  {
  }

  lemma SoundBlockIsTaken(c: Config, s: State, aged: bool)
    requires Inv(c, s) && CeilingInv(c, s) && Sound(c) && !s.completed
    ensures !WriteBlock(c, s, aged).completed
  {
    if s.next < |c.blocks| && !c.notModified {
      SoundBlockFits(c, s);
    }
    hide Inv, CeilingInv, Sound, CompleteWithError, Target, OutOf, Show;
    if s.ended || s.writePaused || s.next >= |c.blocks| {
    } else if |c.blocks[s.next].raw| == 0 || s.cancelled || c.notModified {
    } else if s.credits <= 0 {
    } else {
      var b, t := c.blocks[s.next], EmitHead(c, s);
      var out := OutOf(c, b);
      var count := if c.maxBytes > 0 then t.bodyBytes + |out| else t.bodyBytes;
      ShownStaysOpen(t.(next := t.next + 1, bodyBytes := count, accepted := t.accepted + out), out, aged);
    }
  }

  /** Headers, grants, aged flushes and cancels complete nothing and take nothing. */
  lemma OthersChangeNeither(c: Config, s: State, step: Step)
    requires step.HeadersEnd? || step.Grant? || step.FlushAged? || step.Cancel?
    ensures var t := Apply(c, s, step); t.completed == s.completed && t.accepted == s.accepted
  {
    hide Target;
    match step {
      case HeadersEnd =>
      case FlushAged =>
      case _ =>
    }
  }

  lemma StepStaysSound(c: Config, s: State, step: Step)
    requires Inv(c, s) && CeilingInv(c, s) && Sound(c) && !s.cancelled && (s.completed ==> Succeeded(s))
    requires !step.Fail? && step != Finish(false)
    ensures var t := Apply(c, s, step); t.completed ==> Succeeded(t)
  {
    if s.completed {
      CompletedStays(c, s, step);
    } else {
      if step.Finish? {
        AppliesFinish(c, s, true);
        if s.next < |c.blocks| || s.writePaused {
          FinishWaits(c, s);
        } else {
          FinishEnds(c, s, true);
        }
      } else if step.Deliver? {
        AppliesWrite(c, s, step.aged);
        SoundBlockIsTaken(c, s, step.aged);
      } else {
        OthersChangeNeither(c, s, step);
      }
      hide Inv, CeilingInv, Body, WriteBlock, FinishWith, EndsWell, Apply;
    }
  }

  /** A response that can be shown and that nobody gave up on never ends in an error. */
  lemma {:induction false} SoundNeverFails(c: Config, credits: nat, steps: seq<Step>)
    requires Sound(c) && Undisturbed(steps)
    ensures var s := Run(c, credits, steps); s.completed ==> Succeeded(s)
  {
    hide Apply, Inv, Sound, CeilingInv, Succeeded;
    if |steps| > 0 {
      var before := steps[..|steps| - 1];
      assert Undisturbed(before);
      SoundNeverFails(c, credits, before);
      RunKeepsInv(c, credits, before);
      RunEnds(c, credits, before);
      assert !Cancelled(before);
      StepStaysSound(c, Run(c, credits, before), steps[|steps| - 1]);
    }
  }

  // ----- The head, the credit and the aged flush -----

  /** The head is the response's own, or an error's that the error itself follows and nothing else; a success has the
      response's own. */
  lemma HeadTellsTheTruth(c: Config, credits: nat, steps: seq<Step>)
    ensures var s := Run(c, credits, steps);
      && (s.headSent <==> |s.emitted| > 0)
      && (s.headSent ==> s.emitted[0] == Head(true) || (s.emitted == [Head(false), Terminal(false)] && !Succeeded(s)))
  {
    RunKeepsInv(c, credits, steps);
    RunEnds(c, credits, steps);
    hide Run;
    var s := Run(c, credits, steps);
    assert s.headSent ==> s.emitted[0].Head?;
  }

  /** The credit left is what it began with and the positive grants made, less the DATA chunks shown. */
  lemma CreditComesFromGrants(c: Config, credits: nat, steps: seq<Step>)
    ensures var s := Run(c, credits, steps);
      !s.completed ==> s.credits == credits + GrantedBy(steps) - DataCount(s) && s.credits >= 0
  {
    RunKeepsInv(c, credits, steps);
    RunEnds(c, credits, steps);
  }

  /** Whatever has been done, a flush of what is old enough leaves nothing held: what is held is always paid for. */
  lemma AgedFlushEmpties(c: Config, credits: nat, steps: seq<Step>)
    ensures |Run(c, credits, steps + [FlushAged]).coalesceBuf| == 0
  {
    RunThen(c, credits, steps, FlushAged);
    RunKeepsInv(c, credits, steps);
  }

  // ----- Every block is taken, or there is a reason -----

  lemma FinishCompletesOrWaits(c: Config, s: State, ok: bool)
    ensures FinishWith(c, s, ok) == s || FinishWith(c, s, ok).completed
  {
    if s.completed || (ok && (s.next < |c.blocks| || s.writePaused)) {
    } else {
      FinishEnds(c, s, ok);
    }
    hide CompleteWithError, FinishBody, Replay;
  }

  lemma ErrorCompletes(s: State)
    ensures CompleteWithError(s).completed
  {
  }

  /** What becomes of the block curl delivers next. An empty one, or any of a 304, is passed over; a cancel makes curl
      stop; without credit it is refused and comes again; one that does not decode or makes the body too long ends the
      stream in an error; and any other joins the body, decoded if it is to be. */
  predicate Delivered(c: Config, s: State, t: State)
    requires s.next < |c.blocks|
  {
    var b := c.blocks[s.next];
    var out := if c.decoding then b.decoded else b.raw;
    if b.raw == [] || (!s.cancelled && c.notModified) then t == s.(next := s.next + 1)
    else if s.cancelled then t == s.(ended := true)
    else if s.credits <= 0 then t.next == s.next && t.writePaused && t.accepted == s.accepted && !t.completed
    else if Refused(c, s, b) then t.completed && !Succeeded(t)
    else t.next == s.next + 1 && t.accepted == s.accepted + out && !t.completed && !t.writePaused
  }

  lemma ShownLeaves(s: State, out: bytes, aged: bool)
    ensures var t := Show(s, out, aged);
      && t.completed == s.completed && t.next == s.next && t.accepted == s.accepted && t.writePaused == s.writePaused
      && t.ended == s.ended
  {
    if |out| == 0 {
    } else if s.coalesceTarget > 0 {
    } else {
    }
  }

  /** What the block holds cannot be shown: it does not decode, or makes the body too long. */
  predicate Refused(c: Config, s: State, b: Block) {
    (c.decoding && b.bad) || (c.maxBytes > 0 && s.bodyBytes + |if c.decoding then b.decoded else b.raw| > c.maxBytes)
  }

  lemma RefusedEnds(c: Config, s: State, b: Block, aged: bool)
    requires |b.raw| > 0 && !s.completed && Refused(c, s, b)
    ensures var t := Accept(c, s, b, aged); t.completed && !Succeeded(t)
  {
    var out := OutOf(c, b);
    var count := if c.maxBytes > 0 then s.bodyBytes + |out| else s.bodyBytes;
    hide CompleteWithError, Show, Succeeded;
    if c.decoding && b.bad {
      ErrorIsNoSuccess(s);
      ErrorCompletes(s);
    } else {
      ErrorIsNoSuccess(s.(bodyBytes := count));
      ErrorCompletes(s.(bodyBytes := count));
    }
  }

  lemma TakenJoins(c: Config, s: State, b: Block, aged: bool)
    requires |b.raw| > 0 && !Refused(c, s, b)
    ensures var t := Accept(c, s, b, aged);
      && t.next == s.next + 1 && t.accepted == s.accepted + (if c.decoding then b.decoded else b.raw)
      && t.completed == s.completed && t.writePaused == s.writePaused && t.ended == s.ended
  {
    hide Accept, Refused, Show, OutOf;
    var t := AcceptShows(c, s, b, aged);
    ShownLeaves(t, if c.decoding then b.decoded else b.raw, aged);
  }

  lemma AcceptShows(c: Config, s: State, b: Block, aged: bool) returns (t: State)
    requires |b.raw| > 0 && !Refused(c, s, b)
    ensures var out := if c.decoding then b.decoded else b.raw;
      Accept(c, s, b, aged) == Show(t, out, aged) && t == s.(next := s.next + 1, bodyBytes := t.bodyBytes, accepted := s.accepted + out)
  {
    hide Show, CompleteWithError;
    var out := OutOf(c, b);
    var count := if c.maxBytes > 0 then s.bodyBytes + |out| else s.bodyBytes;
    t := s.(next := s.next + 1, bodyBytes := count, accepted := s.accepted + out);
  }

  /** Curl stops delivering only behind the end of the stream or a cancel. */
  lemma {:induction false} OpenUntilCancelled(c: Config, credits: nat, steps: seq<Step>)
    ensures var s := Run(c, credits, steps); s.ended ==> s.completed || s.cancelled
  {
    if |steps| > 0 {
      var before := steps[..|steps| - 1];
      OpenUntilCancelled(c, credits, before);
      StepStaysOpen(c, Run(c, credits, before), steps[|steps| - 1]);
      hide Apply;
    }
  }

  lemma StepStaysOpen(c: Config, s: State, step: Step)
    requires s.ended ==> s.completed || s.cancelled
    ensures var t := Apply(c, s, step); t.ended ==> t.completed || t.cancelled
  {
    StepRecords(c, s, step);
    hide Target, OutOf, Pieces;
    match step {
      case Deliver(aged) => WriteStaysOpen(c, s, aged);
      case Finish(ok) => FinishCompletesOrWaits(c, s, ok);
      case Fail => ErrorCompletes(s);
      case _ =>
    }
    hide FinishWith, WriteBlock, CompleteWithError;
  }

  lemma WriteStaysOpen(c: Config, s: State, aged: bool)
    requires s.ended ==> s.completed || s.cancelled
    ensures var t := WriteBlock(c, s, aged); t.ended ==> t.completed || t.cancelled
  {
    hide Accept, Target, Refused;
    if s.ended || s.writePaused || s.next >= |c.blocks| {
    } else if |c.blocks[s.next].raw| == 0 || s.cancelled || c.notModified {
    } else if s.credits <= 0 {
    } else {
      var b, t := c.blocks[s.next], EmitHead(c, s);
      if Refused(c, t, b) {
        if s.completed {
          DoneAlready(c, t, b, aged);
        } else {
          RefusedEnds(c, t, b, aged);
        }
      } else {
        TakenJoins(c, t, b, aged);
      }
    }
  }

  lemma DoneAlready(c: Config, s: State, b: Block, aged: bool)
    requires s.completed
    ensures Accept(c, s, b, aged).completed
  {
    hide OutOf;
  }

  lemma WriteDelivers(c: Config, s: State, aged: bool)
    requires Inv(c, s) && !s.ended && !s.writePaused && s.next < |c.blocks|
    ensures Delivered(c, s, WriteBlock(c, s, aged))
  {
    var b := c.blocks[s.next];
    assert !s.completed && (|b.raw| == 0 <==> b.raw == []);
    hide Inv, Accept, Target, Succeeded;
    if |b.raw| > 0 && !s.cancelled && !c.notModified && s.credits > 0 {
      if Refused(c, s, b) {
        RefusedEnds(c, EmitHead(c, s), b, aged);
      } else {
        TakenJoins(c, EmitHead(c, s), b, aged);
      }
    }
  }

  /** Over every run: as long as the stream is neither complete nor cancelled, and curl is not paused, each block is
      dealt with like that. */
  lemma BlocksAreDelivered(c: Config, credits: nat, steps: seq<Step>, aged: bool)
    requires var s := Run(c, credits, steps); !s.completed && !Cancelled(steps) && !s.writePaused && s.next < |c.blocks|
    ensures Delivered(c, Run(c, credits, steps), Run(c, credits, steps + [Deliver(aged)]))
  {
    var s := Run(c, credits, steps);
    RunThen(c, credits, steps, Deliver(aged));
    RunKeepsInv(c, credits, steps);
    RunEnds(c, credits, steps);
    OpenUntilCancelled(c, credits, steps);
    WriteDelivers(c, s, aged);
    AppliesWrite(c, s, aged);
    hide Run, Apply, WriteBlock, Delivered, Inv;
  }

  /** After a cancel curl is told to stop at the next block that is not empty. */
  lemma CancelEndsDelivery(c: Config, s: State, aged: bool)
    requires s.cancelled && !s.ended && !s.writePaused && s.next < |c.blocks| && |c.blocks[s.next].raw| > 0
    ensures Apply(c, s, Deliver(aged)) == s.(ended := true)
  {
    hide Accept, EmitHead;
  }

  /** A grant resumes a paused transfer exactly if it leaves credit. */
  lemma GrantResumes(c: Config, s: State, count: int)
    ensures var t := Apply(c, s, Grant(count));
      && t.credits == s.credits + (if count > 0 then count else 0)
      && (t.writePaused <==> s.writePaused && t.credits <= 0)
  {
  }

  /** A failure from outside shows what is held and then the error, behind an error's head if none was sent. */
  lemma FailureIsShown(c: Config, credits: nat, steps: seq<Step>)
    requires !Run(c, credits, steps).completed
    ensures var s := Run(c, credits, steps);
      Run(c, credits, steps + [Fail]).emitted
        == (if s.headSent then s.emitted else [Head(false)])
           + (if |s.coalesceBuf| > 0 then [Data(s.coalesceBuf)] else []) + [Terminal(false)]
  {
    RunThen(c, credits, steps, Fail);
    RunKeepsInv(c, credits, steps);
    ErrorShows(c, Run(c, credits, steps));
    hide Run, CompleteWithError;
  }

  lemma ErrorShows(c: Config, s: State)
    requires Inv(c, s) && !s.completed
    ensures CompleteWithError(s).emitted
      == (if s.headSent then s.emitted else [Head(false)])
         + (if |s.coalesceBuf| > 0 then [Data(s.coalesceBuf)] else []) + [Terminal(false)]
  {
    if !s.headSent {
      assert s.emitted == [] && [] + [Head(false)] == [Head(false)];
    }
    hide FlatMap, Body, ContentInv, CreditInv;
  }

  // ----- How large the chunks are -----

  /** Small pieces are put together for a body of known length, not decoded, that is at least 1 MiB or whatever else
      was asked for. */
  predicate Coalesces(c: Config) {
    !c.decoding && c.chunkBytes >= 0 && c.contentLength >= if c.minLength >= 0 then c.minLength else 1048576
  }

  /** To 128 KiB, if no other size was asked for. */
  function LeastChunk(c: Config): nat {
    if !Coalesces(c) then 1 else if c.chunkBytes > 0 then c.chunkBytes else 131072
  }

  /** Nothing was flushed for being old. */
  ghost predicate Unaged(steps: seq<Step>) {
    forall i | 0 <= i < |steps| :: steps[i] != Deliver(true) && !steps[i].FlushAged?
  }

  predicate AllFull(c: Config, emitted: seq<Emitted>) {
    forall i | 0 <= i < |emitted| && emitted[i].Data? :: |emitted[i].payload| >= LeastChunk(c)
  }

  predicate SizeInv(c: Config, s: State) {
    && (s.headSent && !s.completed ==> s.coalesceTarget == if Coalesces(c) then LeastChunk(c) else 0)
    && (!s.completed ==> AllFull(c, s.emitted) && |s.coalesceBuf| < LeastChunk(c))
  }

  lemma TargetIs(c: Config)
    ensures Target(c) == if Coalesces(c) then LeastChunk(c) else 0
  {
  }

  lemma ShowKeepsSize(c: Config, s: State, out: bytes)
    requires SizeInv(c, s) && s.headSent && !s.completed
    ensures SizeInv(c, Show(s, out, false))
  {
    if |out| == 0 {
    } else if s.coalesceTarget > 0 {
    } else {
    }
  }

  lemma HeadKeepsSize(c: Config, s: State)
    requires Shape(s.emitted, s.headSent, s.completed) && SizeInv(c, s)
    ensures SizeInv(c, EmitHead(c, s))
  {
    TargetIs(c);
    hide Target, LeastChunk, Coalesces;
  }

  lemma WriteKeepsSize(c: Config, s: State)
    requires Inv(c, s) && SizeInv(c, s)
    ensures SizeInv(c, WriteBlock(c, s, false))
  {
    HeadKeepsSize(c, s);
    assert s.completed ==> s.ended;
    hide Inv, CompleteWithError, Target, OutOf, Show, LeastChunk, Coalesces;
    if s.ended || s.writePaused || s.next >= |c.blocks| {
    } else if |c.blocks[s.next].raw| == 0 || s.cancelled || c.notModified {
    } else if s.credits <= 0 {
    } else {
      var b, t := c.blocks[s.next], EmitHead(c, s);
      var out := OutOf(c, b);
      var count := if c.maxBytes > 0 then t.bodyBytes + |out| else t.bodyBytes;
      ErrorCompletes(t);
      ErrorCompletes(t.(bodyBytes := count));
      ShowKeepsSize(c, t.(next := t.next + 1, bodyBytes := count, accepted := t.accepted + out), out);
    }
  }

  lemma StepKeepsSize(c: Config, s: State, step: Step)
    requires Inv(c, s) && SizeInv(c, s) && step != Deliver(true) && !step.FlushAged?
    ensures SizeInv(c, Apply(c, s, step))
  {
    hide ContentInv, CreditInv, WriteBlock, Target, EmitHead, FinishWith, CompleteWithError, LeastChunk, Coalesces;
    match step {
      case Deliver(_) => WriteKeepsSize(c, s);
      case HeadersEnd => HeadKeepsSize(c, s);
      case Fail => ErrorCompletes(s);
      case Finish(ok) =>
        FinishCompletesOrWaits(c, s, ok);
      case _ =>
    }
  }

  /** Over every run in which nothing is flushed for its age: while the stream is open each DATA chunk is as large as
      asked for, and what is held is smaller than that; without coalescing nothing is held at all. */
  lemma {:induction false} ChunksAreFull(c: Config, credits: nat, steps: seq<Step>)
    requires Unaged(steps)
    ensures SizeInv(c, Run(c, credits, steps))
  {
    hide Apply, Inv;
    if |steps| > 0 {
      var before := steps[..|steps| - 1];
      assert Unaged(before);
      ChunksAreFull(c, credits, before);
      RunKeepsInv(c, credits, before);
      assert steps[|steps| - 1] != Deliver(true);
      StepKeepsSize(c, Run(c, credits, before), steps[|steps| - 1]);
    }
  }

  /** A stored body goes out in pieces of 64 KiB, the last of them of what is left. */
  lemma {:induction false} PiecesAreFull(body: bytes)
    ensures var pieces := Pieces(body);
      && |pieces| == (|body| + 65535) / 65536
      && (forall i | 0 <= i < |pieces| - 1 :: pieces[i].Data? && |pieces[i].payload| == 65536)
      && (|pieces| > 0 ==> pieces[|pieces| - 1].Data? && 0 < |pieces[|pieces| - 1].payload| <= 65536)
    decreases |body|
  {
    if |body| > 65536 {
      PiecesAreFull(body[65536..]);
    }
  }

  lemma ReplayCounts(s: State, body: bytes)
    requires !s.completed && s.emitted == [] && s.coalesceBuf == [] && s.credits == s.granted
    ensures var t := Replay(s, body); t.completed && t.credits == t.granted - DataCount(t)
  {
    hide Pieces;
  }

  lemma StepCounts(c: Config, s: State, step: Step)
    requires Inv(c, s) && (s.replayed ==> s.credits == s.granted - DataCount(s))
    ensures var t := Apply(c, s, step); t.replayed ==> t.credits == t.granted - DataCount(t)
  {
    if s.completed {
      CompletedStays(c, s, step);
      DoneChangesLittle(c, s, step);
    } else {
      assert !s.replayed;
      if step.Finish? && step.ok && c.notModified && c.cached.Stored? && !s.cancelled && !s.writePaused && s.next >= |c.blocks| {
        ReplayCounts(s, c.cached.body);
      } else {
        NoReplay(c, s, step);
      }
      hide Apply;
    }
  }

  lemma DoneChangesLittle(c: Config, s: State, step: Step)
    requires Inv(c, s) && s.completed
    ensures var t := Apply(c, s, step); t.credits - t.granted == s.credits - s.granted && t.replayed == s.replayed
  {
  }

  lemma NoReplay(c: Config, s: State, step: Step)
    requires !s.completed && !s.replayed
    requires !(step.Finish? && step.ok && c.notModified && c.cached.Stored? && !s.cancelled && !s.writePaused && s.next >= |c.blocks|)
    ensures !Apply(c, s, step).replayed
  {
    hide Target, Pieces, OutOf, Replay;
    match step {
      case Deliver(aged) => WriteNoReplay(c, s, aged);
      case Finish(ok) =>
        if ok && (s.next < |c.blocks| || s.writePaused) {
        } else {
        }
      case _ =>
    }
    hide WriteBlock;
  }

  lemma WriteNoReplay(c: Config, s: State, aged: bool)
    requires !s.replayed
    ensures !WriteBlock(c, s, aged).replayed
  {
    hide Accept, Target;
    if s.next < |c.blocks| {
      AcceptNoReplay(c, EmitHead(c, s), c.blocks[s.next], aged);
    }
  }

  lemma AcceptNoReplay(c: Config, s: State, b: Block, aged: bool)
    requires !s.replayed
    ensures !Accept(c, s, b, aged).replayed
  {
    var out := OutOf(c, b);
    var count := if c.maxBytes > 0 then s.bodyBytes + |out| else s.bodyBytes;
    hide OutOf;
    if c.decoding && b.bad {
    } else if c.maxBytes > 0 && count > c.maxBytes {
    } else {
      var t := s.(next := s.next + 1, bodyBytes := count, accepted := s.accepted + out);
      if |out| == 0 {
      } else if t.coalesceTarget > 0 {
      } else {
      }
    }
  }

  /** A stored body is not held back by credit, but every piece of it is counted against it. */
  lemma {:induction false} StoredBodyIsCounted(c: Config, credits: nat, steps: seq<Step>)
    ensures var s := Run(c, credits, steps); s.replayed ==> s.credits == s.granted - DataCount(s)
  {
    hide Apply;
    if |steps| > 0 {
      var before := steps[..|steps| - 1];
      StoredBodyIsCounted(c, credits, before);
      RunKeepsInv(c, credits, before);
      StepCounts(c, Run(c, credits, before), steps[|steps| - 1]);
    }
  }
}
