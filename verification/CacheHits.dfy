/** What the uses of an entry do for it: a commit and a hit are remembered until the next use, a hit protects from
    eviction, and survives a restart exactly if it was flushed. */
module CacheHits {
  import opened Bytes
  import opened Seqs
  import opened CacheMeta
  import opened CacheIndex

  ghost function Onward(s: State, steps: seq<Step>, max: int): State
    decreases |steps|
  {
    if |steps| == 0 then s else Onward(Apply(s, steps[0], max), steps[1..], max)
  }

  lemma {:induction false} RunOnward(before: seq<Step>, after: seq<Step>, max: int)
    ensures Run(before + after, max) == Onward(Run(before, max), after, max)
    decreases |after|
  {
    hide Apply;
    if |after| == 0 {
      NilRight(before);
    } else {
      RunThen(before, after[0], max);
      RunOnward(before + [after[0]], after[1..], max);
      Assoc(before, [after[0]], after[1..]);
      assert [after[0]] + after[1..] == after;
    }
  }

  /** No use of the key, and nothing that looks at every entry but an eviction. */
  predicate LeavesAlone(step: Step, key: Key) {
    match step
    case DoCommit(k, _, _) => k != key
    case DoTouch(k, _) => k != key
    case DoDrop(k, _) => k != key
    case DoRefresh(k, _) => k != key
    case DoScan(_, _, _) => false
    case DoClear => false
    case DoReopen(_, _) => false
    case _ => true
  }

  ghost predicate AllLeaveAlone(steps: seq<Step>, key: Key) {
    forall i | 0 <= i < |steps| :: LeavesAlone(steps[i], key)
  }

  ghost predicate NoEviction(steps: seq<Step>) {
    forall i | 0 <= i < |steps| :: !steps[i].DoEvict?
  }

  /** The entry of `key` in `t`, if it has one, is that in `s`, and it has one unless evicted. */
  predicate Same(s: State, t: State, key: Key, evictions: bool) {
    && (key in t.index ==> key in s.index && t.index[key] == s.index[key])
    && (key in s.index && !evictions ==> key in t.index)
  }

  lemma EvictLeaves(s: State, order: seq<Key>, now: int, max: int, key: Key)
    ensures Same(s, Evict(s, max, order, now), key, true)
  {
    hide Victims, PutRecords;
  }

  lemma StepLeaves(s: State, step: Step, key: Key, max: int)
    requires LeavesAlone(step, key)
    ensures Same(s, Apply(s, step, max), key, step.DoEvict?)
  {
    hide PutRecord, PutRecords, Sum, Replay, Victims;
    match step {
      case DoEvict(order, now) =>
        EvictLeaves(s, order, now, max, key);
        hide Evict, IsAgeOrder;
      case _ =>
    }
  }

  lemma {:induction false} StepsLeave(s: State, steps: seq<Step>, key: Key, max: int)
    requires AllLeaveAlone(steps, key)
    ensures Same(s, Onward(s, steps, max), key, !NoEviction(steps))
    decreases |steps|
  {
    if |steps| > 0 {
      assert LeavesAlone(steps[0], key);
      StepLeaves(s, steps[0], key, max);
      hide Apply, LeavesAlone;
      StepsLeave(Apply(s, steps[0], max), steps[1..], key, max);
    }
  }

  lemma UseThen(before: seq<Step>, use: Step, after: seq<Step>, max: int)
    ensures Run(before + [use] + after, max) == Onward(Apply(Run(before, max), use, max), after, max)
  {
    RunThen(before, use, max);
    RunOnward(before + [use], after, max);
  }

  /** What a use leaves of an entry: a commit its size and time, a hit its time, a drop and a clear nothing. */
  lemma UseSets(s: State, use: Step, key: Key, max: int)
    requires use.DoClear? || ((use.DoCommit? || use.DoTouch? || use.DoDrop?) && use.key == key)
    ensures var index := Apply(s, use, max).index;
      match use
      case DoCommit(_, bodyBytes, now) => key in index && index[key] == Entry(bodyBytes, now)
      case DoTouch(_, now) => (key in index <==> key in s.index) && (key in index ==> index[key] == Entry(s.index[key].bodyBytes, now))
      case _ => key !in index
  {
    hide PutRecord, LogHeader;
  }

  /** Over every run, as long as no other use of the key comes after: what was committed is held with its size and
      time, a hit's time is held, both unless an eviction takes the entry; what was dropped or cleared is not held. */
  lemma LastUseStands(before: seq<Step>, use: Step, after: seq<Step>, key: Key, max: int)
    requires use.DoClear? || ((use.DoCommit? || use.DoTouch? || use.DoDrop?) && use.key == key)
    requires AllLeaveAlone(after, key)
    ensures var was, index := Run(before, max).index, Run(before + [use] + after, max).index;
      match use
      case DoCommit(_, bodyBytes, now) => (key in index ==> index[key] == Entry(bodyBytes, now)) && (NoEviction(after) ==> key in index)
      case DoTouch(_, now) =>
        && (key in index ==> key in was && index[key] == Entry(was[key].bodyBytes, now))
        && (NoEviction(after) && key in was ==> key in index)
      case _ => key !in index
  {
    UseThen(before, use, after, max);
    var s := Run(before, max);
    UseSets(s, use, key, max);
    StepsLeave(Apply(s, use, max), after, key, max);
    hide Apply, Onward, Run, LeavesAlone, AllLeaveAlone, NoEviction;
  }

  // ----- A hit protects -----

  predicate UsedLast(index: map<Key, Entry>, key: Key) {
    key in index && forall k | k in index && k != key :: index[k].lastAccessMs < index[key].lastAccessMs
  }

  /** Nobody goes before those used earlier. */
  lemma LastOfThose(m: map<Key, Entry>, gone: seq<Key>, key: Key)
    requires UsedLast(m, key) && OldestFirst(m, gone)
    ensures key in WithoutAll(m, gone) || WithoutAll(m, gone) == map[]
  {
    if key in gone {
      assert forall k | k in m :: k in gone;
      assert WithoutAll(m, gone).Keys == {};
    }
  }

  lemma Evicts(s: State, order: seq<Key>, now: int, max: int)
    requires IsAgeOrder(s.index, order)
    ensures Apply(s, DoEvict(order, now), max) == Evict(s, max, order, now)
  {
    hide IsAgeOrder, Evict;
  }

  /** The entry used last is evicted last. */
  lemma LastUsedGoesLast(s: State, key: Key, order: seq<Key>, now: int, max: int)
    requires Inv(s) && FitsI64(now) && UsedLast(s.index, key)
    ensures var t := Apply(s, DoEvict(order, now), max); key in t.index || t.index == map[]
  {
    assert key in s.index;
    hide *;
    if max > 0 && s.sizeBytes > max && IsAgeOrder(s.index, order) {
      Evicts(s, order, now, max);
      var gone := EvictsOldestAndNoMore(s, max, order, now);
      LastOfThose(s.index, gone, key);
    } else {
      NothingEvicted(s, order, now, max);
    }
  }

  lemma NothingEvicted(s: State, order: seq<Key>, now: int, max: int)
    requires max <= 0 || s.sizeBytes <= max || !IsAgeOrder(s.index, order)
    ensures Apply(s, DoEvict(order, now), max) == s
  {
    hide IsAgeOrder, Victims;
  }

  /** Over every run: an entry hit later than every other use on record is in the cache after the next eviction, or
      the eviction has left nothing at all. */
  lemma HitProtects(before: seq<Step>, key: Key, hit: int, after: seq<Step>, order: seq<Key>, now: int, max: int)
    requires var steps := before + [DoTouch(key, hit)] + after; forall i | 0 <= i < |steps| :: FitsStep(steps[i])
    requires AllLeaveAlone(after, key) && FitsI64(now)
    requires var index := Run(before + [DoTouch(key, hit)] + after, max).index;
      key in index && forall k | k in index && k != key :: index[k].lastAccessMs < hit
    ensures var t := Run(before + [DoTouch(key, hit)] + after + [DoEvict(order, now)], max);
      key in t.index || t.index == map[]
  {
    var steps := before + [DoTouch(key, hit)] + after;
    LastUseStands(before, DoTouch(key, hit), after, key, max);
    RunKeepsInv(steps, max);
    RunThen(steps, DoEvict(order, now), max);
    hide Run, Apply, Inv, LeavesAlone, FitsStep;
    LastUsedGoesLast(Run(steps, max), key, order, now, max);
  }

  // ----- Restarts -----

  /** What is left of an entry by a restart: the log is replayed, whatever is torn off its end, and a scan puts the
      sizes and times of the files in place of those replayed. */
  ghost function Restarted(s: State, torn: bytes, order: seq<Key>, dead: seq<Key>, now: int, max: int): State {
    var r := Apply(s, DoReopen(torn, order), max);
    Apply(r, DoScan(Found(r), dead, now), max)
  }

  lemma ReopensTo(s: State, torn: bytes, order: seq<Key>, max: int)
    requires Inv(s) && |torn| < RECORD_SIZE && IsOrder(Replay(s.log + torn), order)
    ensures var r := Apply(s, DoReopen(torn, order), max);
      r.files == s.files && r.actual == s.actual && r.index.Keys == s.index.Keys
  {
    hide Replay, PutRecords, LogHeader, Sum, RecordsOf, IsOrder;
    ReplayOfLog(s, torn);
  }

  lemma ScansTo(r: State, dead: seq<Key>, now: int, max: int, key: Key)
    requires IsDead(r, dead) && key in r.index && key in r.files && key in r.actual
    ensures var index := Apply(r, DoScan(Found(r), dead, now), max).index;
      key in index && index[key] == Entry(r.actual[key], r.files[key].lastAccessMs)
  {
    hide PutRecords, Sum;
    assert key !in dead;
  }

  /** After a restart an entry with its files has the size of its body and the time its metadata file has: that of the
      last hit exactly if it was carried there. */
  lemma HitSurvivesExactlyIfFlushed(s: State, key: Key, hit: int, flushed: bool, torn: bytes, order: seq<Key>,
                                    dead: seq<Key>, now: int, max: int)
    requires Inv(s) && FitsI64(hit) && |torn| < RECORD_SIZE && key in s.index && key in s.files
    requires var t := Apply(s, DoTouch(key, hit), max);
      var u := if flushed then Apply(t, DoFlush(key), max) else t;
      && IsOrder(Replay(u.log + torn), order) && IsDead(Apply(u, DoReopen(torn, order), max), dead)
    ensures var t := Apply(s, DoTouch(key, hit), max);
      var u := if flushed then Apply(t, DoFlush(key), max) else t;
      var index := Restarted(u, torn, order, dead, now, max).index;
      && key in index && index[key].bodyBytes == (if key in s.actual then s.actual[key] else 0)
      && (index[key].lastAccessMs == hit <==> flushed || s.files[key].lastAccessMs == hit)
  {
    var t := Apply(s, DoTouch(key, hit), max);
    var u := if flushed then Apply(t, DoFlush(key), max) else t;
    TouchKeeps(s, key, hit);
    FlushKeeps(t, key);
    TouchAndFlush(s, key, hit, flushed, max);
    hide *;
    ReopensTo(u, torn, order, max);
    ScansTo(Apply(u, DoReopen(torn, order), max), dead, now, max, key);
    RestartIs(u, torn, order, dead, now, max);
  }

  lemma RestartIs(s: State, torn: bytes, order: seq<Key>, dead: seq<Key>, now: int, max: int)
    ensures var r := Apply(s, DoReopen(torn, order), max);
      Restarted(s, torn, order, dead, now, max) == Apply(r, DoScan(Found(r), dead, now), max)
  {
    hide Apply;
  }

  lemma TouchAndFlush(s: State, key: Key, hit: int, flushed: bool, max: int)
    requires Inv(s) && key in s.index && key in s.files
    ensures var t := Apply(s, DoTouch(key, hit), max);
      var u := if flushed then Apply(t, DoFlush(key), max) else t;
      && key in u.index && key in u.files && key in u.actual && key in s.actual && u.actual == s.actual
      && u.files[key].lastAccessMs == if flushed then hit else s.files[key].lastAccessMs
  {
    hide LogInv, Agrees, Sum, AllFit;
  }

  // ----- What the log says of a use -----

  lemma LastRecordWins(s: State, r: Record, torn: bytes)
    requires LogInv(s.log, s.records) && FitsRecord(r) && |torn| < RECORD_SIZE && r.bodyBytes >= 0
    ensures var m := Replay(s.log + PutRecord(r) + torn); r.key in m && m[r.key] == Entry(r.bodyBytes, r.lastAccessMs)
  {
    AppendLogged(s.log, s.records, r);
    LogReadsBack(s.records + [r], torn);
    FoldSnoc(map[], s.records, r);
    hide Replay, Fold, PutRecord, PutRecords, LogHeader;
  }

  /** A commit and a refresh are in the log at once, with their time: whatever is torn off behind them, the replay
      gives the entry as it was committed, or the size on record with the time of the refresh. */
  lemma UsesAreLogged(s: State, step: Step, torn: bytes, max: int)
    requires Inv(s) && FitsStep(step) && |torn| < RECORD_SIZE
    requires step.DoCommit? || (step.DoRefresh? && step.key in s.files)
    ensures var m := Replay(Apply(s, step, max).log + torn);
      step.key in m && m[step.key] == Entry(if step.DoCommit? then step.bodyBytes else s.files[step.key].bodyBytes, step.now)
  {
    var r := Record(step.key, if step.DoCommit? then step.bodyBytes else s.files[step.key].bodyBytes, step.now);
    assert Apply(s, step, max).log == s.log + PutRecord(r);
    LastRecordWins(s, r, torn);
    hide Replay, PutRecord, PutRecords;
  }

  /** A refresh gives the entry and its metadata file its time, and leaves its size. */
  lemma RefreshGivesTime(s: State, key: Key, now: int, max: int)
    requires Inv(s) && key in s.files
    ensures var t := Apply(s, DoRefresh(key, now), max);
      && key in t.index && t.index[key] == Entry(s.index[key].bodyBytes, now)
      && key in t.files && t.files[key] == Entry(s.files[key].bodyBytes, now)
  {
    hide PutRecord, LogInv, Agrees, Sum;
  }

  // ----- The marks at the front of the files -----

  /** A metadata file begins with NHCM and an index file with NHCI, each followed by version 1. */
  lemma FilesAreMarked(m: Meta)
    ensures EncodeMeta(m)[..8] == [78, 72, 67, 77, 1, 0, 0, 0] && LogHeader() == [78, 72, 67, 73, 1, 0, 0, 0]
  {
    FourBytes(78, 72, 67, 77);
    FourBytes(78, 72, 67, 73);
    FourBytes(1, 0, 0, 0);
    var rest := EncodeMeta(m)[8..];
    assert EncodeMeta(m) == (PutU32(MAGIC) + PutU32(VERSION)) + rest;
    hide PutU32, PutTop, PutCounted, PutTail;
  }

  lemma FourBytes(a: byte, b: byte, c: byte, d: byte)
    ensures PutU32(a + 256 * (b + 256 * (c + 256 * d))) == [a, b, c, d]
  {
    var z: nat := d;
    var y: nat := c + 256 * z;
    var x: nat := b + 256 * y;
    var n: nat := a + 256 * x;
    assert x < 0x100_0000 && n < 0x1_0000_0000;
    LowByteFirst(a, x, 3);
    LowByteFirst(b, y, 2);
    LowByteFirst(c, z, 1);
    LowByteFirst(d, 0, 0);
    hide LE;
  }

  lemma LowByteFirst(low: byte, rest: nat, k: nat)
    ensures LE(low + 256 * rest, k + 1) == [low] + LE(rest, k)
  {
  }
}
