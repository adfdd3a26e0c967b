/** The cache's operations on several threads. Each changes the index in one locked region and appends its records
    to the log in later ones, so another thread's records may come in between: the log follows the order of the
    appends and the index the order of the locks. */
module CacheThreads {
  import opened Bytes
  import opened Seqs
  import opened CacheMeta
  import opened CacheIndex

  /** What one operation does to one key: the record it will append, and whether the index was changed so. */
  datatype Change = Change(record: Record, applied: bool)

  /** `history` lists the changes in the order of the index lock, `appended` those that have reached the log in
      the order of the log's lock, `hand` those that each thread has still to append. */
  datatype State = State(
    index: map<Key, Entry>,
    log: bytes,
    hand: map<nat, seq<nat>>,
    history: seq<Change>,
    appended: seq<nat>)

  /** `Lock` is the region of a commit, a drop, an eviction or a reaping, with a tombstone for each key that goes;
      `Refresh` that of a metadata refresh, which leaves a key that is not there out of the index. */
  datatype Step =
    | Lock(thread: nat, records: seq<Record>)
    | Refresh(thread: nat, record: Record)
    | Append(thread: nat)

  function Empty(): State {
    State.State(map[], LogHeader(), map[], [], [])
  }

  predicate Busy(s: State, thread: nat) {
    thread in s.hand && |s.hand[thread]| > 0
  }

  function Applied(records: seq<Record>): (cs: seq<Change>)
    ensures |cs| == |records| && forall i | 0 <= i < |cs| :: cs[i] == Change(records[i], true)
  {
    seq(|records|, i requires 0 <= i < |records| => Change(records[i], true))
  }

  function Range(from: nat, n: nat): (r: seq<nat>)
    ensures |r| == n && forall i | 0 <= i < n :: r[i] == from + i
  {
    seq(n, i => from + i)
  }

  function Begin(s: State, thread: nat, changes: seq<Change>): State {
    s.(history := s.history + changes, hand := s.hand[thread := Range(|s.history|, |changes|)])
  }

  /** Steps that are not enabled change nothing. */
  function Apply(s: State, step: Step): State {
    match step
    case Lock(thread, records) =>
      if Busy(s, thread) then s
      else Begin(s.(index := Fold(s.index, records)), thread, Applied(records))
    case Refresh(thread, r) =>
      if Busy(s, thread) || r.bodyBytes < 0 then s
      else
        var there := r.key in s.index;
        var index := if there then s.index[r.key := s.index[r.key].(lastAccessMs := r.lastAccessMs)] else s.index;
        Begin(s.(index := index), thread, [Change(r, there)])
    case Append(thread) =>
      if !Busy(s, thread) || s.hand[thread][0] >= |s.history| then s
      else
        var h := s.hand[thread][0];
        s.(log := s.log + PutRecord(s.history[h].record), appended := s.appended + [h],
           hand := s.hand[thread := s.hand[thread][1..]])
  }

  function Run(steps: seq<Step>): State {
    if |steps| == 0 then Empty() else Apply(Run(steps[..|steps| - 1]), steps[|steps| - 1])
  }

  predicate FitsStep(step: Step) {
    match step
    case Lock(_, records) => forall i | 0 <= i < |records| :: FitsRecord(records[i])
    case Refresh(_, r) => FitsRecord(r)
    case Append(_) => true
  }

  // ----- Who is there -----

  /** The last record of the key is no tombstone. */
  predicate LastSets(records: seq<Record>, key: Key) {
    |records| > 0 &&
    var last := records[|records| - 1];
    if last.key == key then last.bodyBytes >= 0 else LastSets(records[..|records| - 1], key)
  }

  lemma {:induction false} FoldHas(records: seq<Record>, key: Key)
    ensures key in Fold(map[], records) <==> LastSets(records, key)
  {
    if |records| > 0 {
      var n := |records| - 1;
      FoldHas(records[..n], key);
      FoldSnoc(map[], records[..n], records[n]);
      assert records == records[..n] + [records[n]];
    }
  }

  /** The changes that were made to the index. */
  function InIndex(history: seq<Change>): seq<Record> {
    if |history| == 0 then [] else
    var last := history[|history| - 1];
    InIndex(history[..|history| - 1]) + if last.applied then [last.record] else []
  }

  function InLog(history: seq<Change>, appended: seq<nat>): seq<Record>
    requires forall i | 0 <= i < |appended| :: appended[i] < |history|
  {
    seq(|appended|, i requires 0 <= i < |appended| => history[appended[i]].record)
  }

  // ----- What every run keeps -----

  ghost predicate IndexInv(s: State) {
    forall key: Key :: key in s.index <==> LastSets(InIndex(s.history), key)
  }

  predicate InRange(s: State) {
    && (forall i | 0 <= i < |s.appended| :: s.appended[i] < |s.history|)
    && (forall i | 0 <= i < |s.history| :: FitsRecord(s.history[i].record))
  }

  ghost predicate LogInv(s: State) {
    InRange(s) && s.log == LogHeader() + PutRecords(InLog(s.history, s.appended))
  }

  lemma OneMoreChange(history: seq<Change>, c: Change)
    ensures InIndex(history + [c]) == InIndex(history) + if c.applied then [c.record] else []
  {
    assert (history + [c])[..|history|] == history;
  }

  lemma AppliedSplit(history: seq<Change>, records: seq<Record>)
    requires |records| > 0
    ensures var n := |records| - 1;
      history + Applied(records) == (history + Applied(records[..n])) + [Change(records[n], true)]
  {
  }

  lemma {:induction false} ChangesJoin(history: seq<Change>, records: seq<Record>)
    ensures InIndex(history + Applied(records)) == InIndex(history) + records
    decreases |records|
  {
    if |records| == 0 {
      assert history + Applied(records) == history;
      NilRight(InIndex(history));
      assert records == [];
    } else {
      var n := |records| - 1;
      ChangesJoin(history, records[..n]);
      AppliedSplit(history, records);
      OneMoreChange(history + Applied(records[..n]), Change(records[n], true));
      hide InIndex, Applied;
      Assoc(InIndex(history), records[..n], [records[n]]);
      assert records == records[..n] + [records[n]];
    }
  }

  lemma {:induction false} FoldKeys(m: map<Key, Entry>, n: map<Key, Entry>, records: seq<Record>)
    requires m.Keys == n.Keys
    ensures Fold(m, records).Keys == Fold(n, records).Keys
    decreases |records|
  {
    if |records| > 0 {
      FoldKeys(Replayed(m, records[0]), Replayed(n, records[0]), records[1..]);
    }
  }

  lemma HasAll(m: map<Key, Entry>, records: seq<Record>)
    requires forall key: Key :: key in m <==> LastSets(records, key)
    ensures m.Keys == Fold(map[], records).Keys
  {
    forall key: Key
      ensures key in m <==> key in Fold(map[], records)
    {
      FoldHas(records, key);
    }
  }

  lemma LockKeepsIndex(s: State, thread: nat, records: seq<Record>)
    requires IndexInv(s)
    ensures IndexInv(Apply(s, Lock(thread, records)))
  {
    if !Busy(s, thread) {
      var before := InIndex(s.history);
      HasAll(s.index, before);
      FoldKeys(s.index, Fold(map[], before), records);
      FoldAppend(map[], before, records);
      ChangesJoin(s.history, records);
      forall key: Key
        ensures key in Fold(s.index, records) <==> LastSets(before + records, key)
      {
        FoldHas(before + records, key);
      }
    }
  }

  lemma RefreshKeepsIndex(s: State, thread: nat, r: Record)
    requires IndexInv(s)
    ensures IndexInv(Apply(s, Refresh(thread, r)))
  {
    if !Busy(s, thread) && r.bodyBytes >= 0 {
      var before := InIndex(s.history);
      var c := Change(r, r.key in s.index);
      OneMoreChange(s.history, c);
      if c.applied {
        assert (before + [r])[..|before|] == before;
      } else {
        assert before + [] == before;
      }
    }
  }

  lemma BeginKeepsLog(s: State, thread: nat, changes: seq<Change>)
    requires LogInv(s) && forall i | 0 <= i < |changes| :: FitsRecord(changes[i].record)
    ensures LogInv(Begin(s, thread, changes))
  {
    hide PutRecords, LogHeader;
    var history := s.history + changes;
    assert InLog(history, s.appended) == InLog(s.history, s.appended);
  }

  lemma AppendKeepsLog(s: State, thread: nat)
    requires LogInv(s)
    ensures LogInv(Apply(s, Append(thread)))
  {
    if Busy(s, thread) && s.hand[thread][0] < |s.history| {
      var r := s.history[s.hand[thread][0]].record;
      var before := InLog(s.history, s.appended);
      assert InLog(s.history, s.appended + [s.hand[thread][0]]) == before + [r];
      FlatMapSnoc(PutRecord, before, r);
      Assoc(LogHeader(), PutRecords(before), PutRecord(r));
      hide PutRecords, LogHeader, PutRecord;
    }
  }

  lemma IndexOnly(s: State, index: map<Key, Entry>)
    requires LogInv(s)
    ensures LogInv(s.(index := index))
  {
  }

  lemma StepKeepsInv(s: State, step: Step)
    requires IndexInv(s) && LogInv(s) && FitsStep(step)
    ensures IndexInv(Apply(s, step)) && LogInv(Apply(s, step))
  {
    hide IndexInv, LogInv, Begin;
    match step {
      case Lock(thread, records) =>
        LockKeepsIndex(s, thread, records);
        IndexOnly(s, Fold(s.index, records));
        BeginKeepsLog(s.(index := Fold(s.index, records)), thread, Applied(records));
      case Refresh(thread, r) =>
        RefreshKeepsIndex(s, thread, r);
        var there := r.key in s.index;
        var index := if there then s.index[r.key := s.index[r.key].(lastAccessMs := r.lastAccessMs)] else s.index;
        IndexOnly(s, index);
        BeginKeepsLog(s.(index := index), thread, [Change(r, there)]);
      case Append(thread) =>
        AppendKeepsLog(s, thread);
        AppendKeepsIndex(s, thread);
    }
  }

  lemma AppendKeepsIndex(s: State, thread: nat)
    requires IndexInv(s)
    ensures IndexInv(Apply(s, Append(thread)))
  {
    hide LastSets, InIndex;
  }

  lemma EmptyOk()
    ensures IndexInv(Empty()) && LogInv(Empty())
  {
    NilRight(LogHeader());
    hide LogHeader;
  }

  lemma {:induction false} RunKeepsInv(steps: seq<Step>)
    requires forall i | 0 <= i < |steps| :: FitsStep(steps[i])
    ensures IndexInv(Run(steps)) && LogInv(Run(steps))
  {
    hide IndexInv, LogInv, Apply, FitsStep;
    if |steps| == 0 {
      EmptyOk();
    } else {
      RunKeepsInv(steps[..|steps| - 1]);
      StepKeepsInv(Run(steps[..|steps| - 1]), steps[|steps| - 1]);
    }
  }

  // ----- The main results -----

  lemma ReplayHas(s: State, torn: bytes, key: Key)
    requires LogInv(s) && |torn| < RECORD_SIZE
    ensures key in Replay(s.log + torn) <==> LastSets(InLog(s.history, s.appended), key)
  {
    var records := InLog(s.history, s.appended);
    hide Replay, PutRecords, LogHeader, Fold, LastSets;
    LogReadsBack(records, torn);
    FoldHas(records, key);
  }

  /** Over every run of any threads: the index has the keys last set by the locked regions, the log those last set
      by the appends. So the log replays to the keys of the index if and only if, for every key, the last change
      to take the index's lock and the last to take the log's both set it or both drop it. */
  lemma AgreeExactly(steps: seq<Step>, torn: bytes)
    requires |torn| < RECORD_SIZE && forall i | 0 <= i < |steps| :: FitsStep(steps[i])
    ensures var s := Run(steps);
      && InRange(s) && (forall key: Key :: key in s.index <==> LastSets(InIndex(s.history), key))
      && (forall key: Key :: key in Replay(s.log + torn) <==> LastSets(InLog(s.history, s.appended), key))
      && (Replay(s.log + torn).Keys == s.index.Keys <==>
          forall key: Key :: LastSets(InLog(s.history, s.appended), key) == LastSets(InIndex(s.history), key))
  {
    RunKeepsInv(steps);
    var s := Run(steps);
    hide Run, Replay, LastSets, FitsStep, InIndex, InLog;
    forall key: Key
      ensures key in Replay(s.log + torn) <==> LastSets(InLog(s.history, s.appended), key)
    {
      ReplayHas(s, torn, key);
    }
  }

  // ----- Operations that do not overlap on a key -----

  predicate Holds(s: State, thread: nat, h: nat) {
    thread in s.hand && h in s.hand[thread] && h < |s.history|
  }

  ghost predicate HoldsKey(s: State, thread: nat, key: Key) {
    exists h: nat :: Holds(s, thread, h) && s.history[h].record.key == key
  }

  /** Nobody else is in an operation on one of its keys, and a refresh finds its key. */
  ghost predicate Alone(s: State, step: Step) {
    match step
    case Lock(thread, records) =>
      forall other, i | other != thread && 0 <= i < |records| :: !HoldsKey(s, other, records[i].key)
    case Refresh(thread, r) => r.key in s.index && forall other | other != thread :: !HoldsKey(s, other, r.key)
    case Append(_) => true
  }

  ghost predicate NoOverlap(steps: seq<Step>) {
    forall i | 0 <= i < |steps| :: Alone(Run(steps[..i]), steps[i])
  }

  predicate Quiet(s: State) {
    forall thread | thread in s.hand :: |s.hand[thread]| == 0
  }

  predicate Hands(s: State) {
    && (forall thread, i | thread in s.hand && 0 <= i < |s.hand[thread]| :: s.hand[thread][i] < |s.history|)
    && (forall thread, i, j | thread in s.hand && 0 <= i < j < |s.hand[thread]| :: s.hand[thread][i] < s.hand[thread][j])
  }

  /** Every change is appended or in hand. */
  ghost predicate Placed(s: State) {
    forall h | 0 <= h < |s.history| :: h in s.appended || exists thread :: Holds(s, thread, h)
  }

  /** On one key, what is in hand came after what was appended, and only one thread has any. */
  ghost predicate HandsLater(s: State)
    requires InRange(s)
  {
    && (forall thread: nat, h: nat, i | Holds(s, thread, h) && 0 <= i < |s.appended|
          && s.history[s.appended[i]].record.key == s.history[h].record.key :: s.appended[i] < h)
    && (forall thread: nat, other: nat, h: nat, g: nat | Holds(s, thread, h) && Holds(s, other, g)
          && s.history[h].record.key == s.history[g].record.key :: thread == other)
  }

  predicate AppendedInOrder(s: State)
    requires InRange(s)
  {
    forall i, j | 0 <= i < j < |s.appended| && s.history[s.appended[i]].record.key == s.history[s.appended[j]].record.key ::
      s.appended[i] < s.appended[j]
  }

  predicate AllApplied(history: seq<Change>) {
    forall h | 0 <= h < |history| :: history[h].applied
  }

  ghost predicate Serial(s: State) {
    InRange(s) && Hands(s) && Placed(s) && HandsLater(s) && AppendedInOrder(s) && AllApplied(s.history)
  }

  ghost predicate Clear(s: State, thread: nat, changes: seq<Change>) {
    && !Busy(s, thread) && AllApplied(changes) && (forall i | 0 <= i < |changes| :: FitsRecord(changes[i].record))
    && forall other, i | other != thread && 0 <= i < |changes| :: !HoldsKey(s, other, changes[i].record.key)
  }

  /** Who holds what after a region: this thread the new changes, the others what they had. */
  lemma HeldAfter(s: State, thread: nat, changes: seq<Change>)
    requires Hands(s) && !Busy(s, thread)
    ensures var t := Begin(s, thread, changes);
      forall other: nat, h: nat :: Holds(t, other, h) <==>
        if other == thread then |s.history| <= h < |t.history| else Holds(s, other, h)
  {
    var t := Begin(s, thread, changes);
    forall h: nat
      ensures Holds(t, thread, h) <==> |s.history| <= h < |t.history|
    {
      if |s.history| <= h < |t.history| {
        assert t.hand[thread][h - |s.history|] == h;
      }
    }
  }

  lemma BeginPlaces(s: State, thread: nat, changes: seq<Change>)
    requires Hands(s) && Placed(s) && !Busy(s, thread)
    ensures Placed(Begin(s, thread, changes)) && Hands(Begin(s, thread, changes))
  {
    var t := Begin(s, thread, changes);
    HeldAfter(s, thread, changes);
    forall h | 0 <= h < |t.history|
      ensures h in t.appended || exists other :: Holds(t, other, h)
    {
      if h >= |s.history| {
        assert Holds(t, thread, h);
      } else if h !in s.appended {
        var other :| Holds(s, other, h);
        assert Holds(t, other, h);
      }
    }
    hide Holds;
  }

  lemma BeginIsLater(s: State, thread: nat, changes: seq<Change>)
    requires InRange(s) && Hands(s) && HandsLater(s) && AppendedInOrder(s) && Clear(s, thread, changes)
    ensures var t := Begin(s, thread, changes); InRange(t) && HandsLater(t) && AppendedInOrder(t)
  {
    var t := Begin(s, thread, changes);
    HeldAfter(s, thread, changes);
    OthersApart(s, thread, changes);
    hide Holds, Busy, HoldsKey, Clear;
  }

  lemma Apart(s: State, thread: nat, h: nat, key: Key)
    requires Holds(s, thread, h) && !HoldsKey(s, thread, key)
    ensures s.history[h].record.key != key
  {
    hide Holds;
  }

  predicate Touches(changes: seq<Change>, key: Key) {
    exists i :: 0 <= i < |changes| && changes[i].record.key == key
  }

  lemma OthersApart(s: State, thread: nat, changes: seq<Change>)
    requires Clear(s, thread, changes)
    ensures forall other: nat, h: nat | other != thread && Holds(s, other, h) :: !Touches(changes, s.history[h].record.key)
  {
    forall other: nat, h: nat | other != thread && Holds(s, other, h)
      ensures !Touches(changes, s.history[h].record.key)
    {
      var key := s.history[h].record.key;
      if i :| 0 <= i < |changes| && changes[i].record.key == key {
        Apart(s, other, h, changes[i].record.key);
      }
    }
  }

  lemma BeginStaysSerial(s: State, thread: nat, changes: seq<Change>)
    requires Serial(s) && Clear(s, thread, changes)
    ensures Serial(Begin(s, thread, changes))
  {
    BeginPlaces(s, thread, changes);
    BeginIsLater(s, thread, changes);
    hide Placed, HandsLater, Hands, AppendedInOrder, Clear;
    assert AllApplied(s.history + changes) by {
      AppliedJoin(s, thread, changes);
    }
  }

  lemma AppliedJoin(s: State, thread: nat, changes: seq<Change>)
    requires AllApplied(s.history) && Clear(s, thread, changes)
    ensures AllApplied(s.history + changes)
  {
  }

  lemma HeldAfterAppend(s: State, thread: nat)
    requires Hands(s) && Busy(s, thread)
    ensures var t, h := Apply(s, Append(thread)), s.hand[thread][0];
      && Holds(s, thread, h) && t.appended == s.appended + [h] && t.history == s.history
      && (forall other, g :: Holds(t, other, g) <==> Holds(s, other, g) && !(other == thread && g == h))
      && (forall g | Holds(t, thread, g) :: h < g)
  {
    hide PutRecord;
    var t, h := Apply(s, Append(thread)), s.hand[thread][0];
    assert s.hand[thread] == [h] + s.hand[thread][1..];
  }

  lemma AppendPlaces(s: State, thread: nat)
    requires Hands(s) && Placed(s) && Busy(s, thread)
    ensures Placed(Apply(s, Append(thread))) && Hands(Apply(s, Append(thread)))
  {
    HeldAfterAppend(s, thread);
    var t, h := Apply(s, Append(thread)), s.hand[thread][0];
    assert Hands(t) by {
      hide PutRecord, Placed;
    }
    hide Apply, Holds, Hands, Busy;
    forall g | 0 <= g < |t.history|
      ensures g in t.appended || exists other :: Holds(t, other, g)
    {
      if g !in s.appended && g != h {
        var other :| Holds(s, other, g);
        assert Holds(t, other, g);
      }
    }
  }

  lemma AppendIsLater(s: State, thread: nat)
    requires InRange(s) && Hands(s) && HandsLater(s) && AppendedInOrder(s) && Busy(s, thread)
    ensures var t := Apply(s, Append(thread)); InRange(t) && HandsLater(t) && AppendedInOrder(t)
  {
    HeldAfterAppend(s, thread);
    var t, h := Apply(s, Append(thread)), s.hand[thread][0];
    assert h < |s.history|;
    hide Apply, Holds, Hands, Busy;
    assert forall i | 0 <= i < |s.appended| :: t.appended[i] == s.appended[i];
  }

  lemma AppendStaysSerial(s: State, thread: nat)
    requires Serial(s)
    ensures Serial(Apply(s, Append(thread)))
  {
    if Busy(s, thread) {
      HeldAfterAppend(s, thread);
      AppendPlaces(s, thread);
      AppendIsLater(s, thread);
      hide Apply, Placed, HandsLater, Hands, AppendedInOrder, Holds;
    }
  }

  lemma StaysSerial(s: State, step: Step)
    requires Serial(s) && Alone(s, step) && FitsStep(step)
    ensures Serial(Apply(s, step))
  {
    hide Serial, HoldsKey, Begin;
    match step {
      case Lock(thread, records) =>
        if !Busy(s, thread) {
          SerialIndex(s, Fold(s.index, records));
          var t := s.(index := Fold(s.index, records));
          SameHolders(s, t);
          assert Clear(t, thread, Applied(records));
          BeginStaysSerial(t, thread, Applied(records));
        }
      case Refresh(thread, r) =>
        if !Busy(s, thread) && r.bodyBytes >= 0 {
          var index := s.index[r.key := s.index[r.key].(lastAccessMs := r.lastAccessMs)];
          SerialIndex(s, index);
          var t := s.(index := index);
          SameHolders(s, t);
          assert Clear(t, thread, [Change(r, true)]);
          BeginStaysSerial(t, thread, [Change(r, true)]);
        }
      case Append(thread) => AppendStaysSerial(s, thread);
    }
  }

  lemma SerialIndex(s: State, index: map<Key, Entry>)
    requires Serial(s)
    ensures Serial(s.(index := index))
  {
    SameHolders(s, s.(index := index));
    hide Holds;
  }

  lemma SameHolders(s: State, t: State)
    requires t.hand == s.hand && t.history == s.history
    ensures forall thread, h :: Holds(t, thread, h) <==> Holds(s, thread, h)
    ensures forall thread, key :: HoldsKey(t, thread, key) <==> HoldsKey(s, thread, key)
  {
  }

  lemma EmptyIsSerial()
    ensures Serial(Empty())
  {
    hide LogHeader;
  }

  lemma {:induction false} RunIsSerial(steps: seq<Step>)
    requires NoOverlap(steps) && forall i | 0 <= i < |steps| :: FitsStep(steps[i])
    ensures Serial(Run(steps))
  {
    hide Serial, Apply, Alone, FitsStep;
    if |steps| == 0 {
      EmptyIsSerial();
    } else {
      var n := |steps| - 1;
      assert forall i | 0 <= i < n :: steps[..n][..i] == steps[..i];
      assert Alone(Run(steps[..n]), steps[n]);
      RunIsSerial(steps[..n]);
      StaysSerial(Run(steps[..n]), steps[n]);
    }
  }

  // ----- So the log agrees -----

  predicate LastAt(records: seq<Record>, i: nat, key: Key) {
    i < |records| && records[i].key == key && forall j | i < j < |records| :: records[j].key != key
  }

  lemma {:induction false} LastSetsAt(records: seq<Record>, i: nat, key: Key)
    requires LastAt(records, i, key)
    ensures LastSets(records, key) <==> records[i].bodyBytes >= 0
    decreases |records|
  {
    if i < |records| - 1 {
      LastSetsAt(records[..|records| - 1], i, key);
    }
  }

  lemma {:induction false} NeverSet(records: seq<Record>, key: Key)
    requires forall i | 0 <= i < |records| :: records[i].key != key
    ensures !LastSets(records, key)
    decreases |records|
  {
    if |records| > 0 {
      NeverSet(records[..|records| - 1], key);
    }
  }

  lemma {:induction false} FindLast(records: seq<Record>, key: Key) returns (i: nat)
    ensures if exists j :: 0 <= j < |records| && records[j].key == key then LastAt(records, i, key) else i == |records|
    decreases |records|
  {
    i := 0;
    if |records| > 0 {
      var n := |records| - 1;
      if records[n].key == key {
        i := n;
      } else {
        i := FindLast(records[..n], key);
        if j :| 0 <= j < |records| && records[j].key == key {
          assert records[..n][j].key == key;
        } else {
          i := |records|;
        }
      }
    }
  }

  lemma {:induction false} AllInIndex(history: seq<Change>)
    requires AllApplied(history)
    ensures |InIndex(history)| == |history| && forall h | 0 <= h < |history| :: InIndex(history)[h] == history[h].record
    decreases |history|
  {
    if |history| > 0 {
      AllInIndex(history[..|history| - 1]);
    }
  }

  lemma SameLast(s: State, key: Key)
    requires Serial(s) && Quiet(s)
    ensures LastSets(InLog(s.history, s.appended), key) == LastSets(InIndex(s.history), key)
  {
    var index, log := InIndex(s.history), InLog(s.history, s.appended);
    AllInIndex(s.history);
    forall h | 0 <= h < |s.history|
      ensures h in s.appended
    {
      assert forall thread: nat :: !Holds(s, thread, h);
    }
    hide LastSets, InIndex;
    var last := FindLast(index, key);
    if last < |index| {
      LastSetsAt(index, last, key);
      assert last in s.appended;
      var i :| 0 <= i < |s.appended| && s.appended[i] == last;
      forall j | i < j < |log|
        ensures log[j].key != key
      {
        assert log[j] == index[s.appended[j]] && log[i] == index[s.appended[i]];
      }
      LastSetsAt(log, i, key);
    } else {
      NeverSet(index, key);
      assert forall i | 0 <= i < |log| :: log[i] == index[s.appended[i]];
      NeverSet(log, key);
    }
  }

  /** As long as no two operations on one key overlap, on whatever threads they run, the log replays to the keys of
      the index whenever no operation is under way. */
  lemma SerialAgrees(steps: seq<Step>, torn: bytes)
    requires |torn| < RECORD_SIZE && forall i | 0 <= i < |steps| :: FitsStep(steps[i])
    requires NoOverlap(steps) && Quiet(Run(steps))
    ensures Replay(Run(steps).log + torn).Keys == Run(steps).index.Keys
  {
    hide Run, Replay, LastSets, InIndex, InLog, FitsStep, Alone, Serial, Quiet;
    AgreeExactly(steps, torn);
    RunIsSerial(steps);
    forall key: Key
      ensures LastSets(InLog(Run(steps).history, Run(steps).appended), key) == LastSets(InIndex(Run(steps).history), key)
    {
      SameLast(Run(steps), key);
    }
  }

  // ----- Operations that do overlap -----

  lemma RunThen(steps: seq<Step>, step: Step)
    ensures Run(steps + [step]) == Apply(Run(steps), step)
  {
    assert (steps + [step])[..|steps|] == steps;
  }

  /** What the two threads 0 and 1 have in hand, and nobody else anything. */
  predicate Looks(s: State, first: seq<nat>, second: seq<nat>, history: seq<Change>, appended: seq<nat>) {
    && (if 0 in s.hand then s.hand[0] == first else first == [])
    && (if 1 in s.hand then s.hand[1] == second else second == [])
    && (forall thread | thread in s.hand :: thread == 0 || thread == 1)
    && s.history == history && s.appended == appended
  }

  lemma LockLooks(steps: seq<Step>, thread: nat, r: Record, first: seq<nat>, second: seq<nat>,
                  history: seq<Change>, appended: seq<nat>)
    requires Looks(Run(steps), first, second, history, appended)
    requires (thread == 0 && first == []) || (thread == 1 && second == [])
    ensures Looks(Run(steps + [Lock(thread, [r])]), if thread == 0 then [|history|] else first,
                  if thread == 1 then [|history|] else second, history + [Change(r, true)], appended)
  {
    RunThen(steps, Lock(thread, [r]));
    hide Fold, Run;
    assert Applied([r]) == [Change(r, true)] && Range(|history|, 1) == [|history|];
  }

  lemma AppendLooks(steps: seq<Step>, thread: nat, first: seq<nat>, second: seq<nat>,
                    history: seq<Change>, appended: seq<nat>)
    requires Looks(Run(steps), first, second, history, appended) && (thread == 0 || thread == 1)
    requires var mine := if thread == 0 then first else second; |mine| > 0 && mine[0] < |history|
    ensures Looks(Run(steps + [Append(thread)]), if thread == 0 then first[1..] else first,
                  if thread == 1 then second[1..] else second, history, appended + [if thread == 0 then first[0] else second[0]])
  {
    RunThen(steps, Append(thread));
    hide PutRecord, Run;
  }

  lemma AllIsQuiet(s: State, history: seq<Change>, appended: seq<nat>)
    requires Looks(s, [], [], history, appended)
    ensures Quiet(s) && s.history == history && s.appended == appended
  {
  }

  lemma InIndexOfThree(x: Change, y: Change, z: Change)
    requires x.applied && y.applied && z.applied
    ensures InIndex([x, y, z]) == [x.record, y.record, z.record]
  {
    assert AllApplied([x, y, z]);
    AllInIndex([x, y, z]);
  }

  lemma LastOfThree(key: Key, a: Record, b: Record, c: Record)
    requires c.key == key
    ensures LastSets([a, b, c], key) <==> c.bodyBytes >= 0
  {
  }

  lemma CommitThenDrop(commit: Record, drop: Record)
    ensures Looks(Run([Lock(0, [commit]), Append(0), Lock(1, [drop])]), [], [1], [Change(commit, true), Change(drop, true)], [0])
  {
    var a, b, c := Lock(0, [commit]), Append(0), Lock(1, [drop]);
    var x := Change(commit, true);
    assert Looks(Run([]), [], [], [], []);
    assert [] + [a] == [a] && [a] + [b] == [a, b] && [a, b] + [c] == [a, b, c];
    assert [] + [x] == [x] && [0][1..] == [];
    hide *;
    LockLooks([], 0, commit, [], [], [], []);
    AppendLooks([a], 0, [0], [], [x], []);
    LockLooks([a, b], 1, drop, [], [], [x], [0]);
  }

  lemma Overtaken(commit: Record, drop: Record) returns (steps: seq<Step>)
    ensures steps == [Lock(0, [commit]), Append(0), Lock(1, [drop])] + [Lock(0, [commit])] + [Append(0)] + [Append(1)]
    ensures var s, x := Run(steps), Change(commit, true);
      Quiet(s) && s.history == [x, Change(drop, true), x] && s.appended == [0, 2, 1]
  {
    var x, y := Change(commit, true), Change(drop, true);
    assert [x, y] + [x] == [x, y, x] && [2][1..] == [] && [1][1..] == [];
    assert [0] + [2] == [0, 2] && [0, 2] + [1] == [0, 2, 1];
    hide *;
    CommitThenDrop(commit, drop);
    var c := [Lock(0, [commit]), Append(0), Lock(1, [drop])];
    LockLooks(c, 0, commit, [], [1], [x, y], [0]);
    AppendLooks(c + [Lock(0, [commit])], 0, [2], [1], [x, y, x], [0]);
    AppendLooks(c + [Lock(0, [commit])] + [Append(0)], 1, [], [1], [x, y, x], [0, 2]);
    steps := c + [Lock(0, [commit])] + [Append(0)] + [Append(1)];
    AllIsQuiet(Run(steps), [x, y, x], [0, 2, 1]);
  }

  /** One thread drops an entry; before it appends its tombstone another commits the key again. For every key and
      size nothing is then under way, the index has the entry, and the log has lost it. */
  lemma OvertakenTombstone(key: Key, bodyBytes: nat, now: int)
    requires FitsRecord(Record(key, bodyBytes, now))
    ensures var commit, drop := [Record(key, bodyBytes, now)], [Record(key, -1, now)];
      var s := Run([Lock(0, commit), Append(0), Lock(1, drop), Lock(0, commit), Append(0), Append(1)]);
      Quiet(s) && key in s.index && key !in Replay(s.log)
  {
    var commit, drop := Record(key, bodyBytes, now), Record(key, -1, now);
    var steps := Overtaken(commit, drop);
    assert steps == [Lock(0, [commit]), Append(0), Lock(1, [drop]), Lock(0, [commit]), Append(0), Append(1)];
    assert forall i | 0 <= i < |steps| :: FitsStep(steps[i]);
    AgreeExactly(steps, []);
    var s := Run(steps);
    NilRight(s.log);
    InIndexOfThree(Change(commit, true), Change(drop, true), Change(commit, true));
    assert InLog(s.history, s.appended) == [commit, commit, drop];
    LastOfThree(key, commit, drop, commit);
    LastOfThree(key, commit, commit, drop);
    hide *;
  }
}
