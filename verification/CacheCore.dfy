/** The cache's mutable core as the object it is: map, size and log file changed in place, with the loops
    that evict, rewrite and replay, each proved against the function of `CacheIndex` that says what it does. */
module CacheCore {
  import opened Bytes
  import opened Seqs
  import opened CacheMeta
  import opened CacheIndex

  predicate Distinct(keys: seq<Key>) {
    forall i, j | 0 <= i < j < |keys| :: keys[i] != keys[j]
  }

  /** The entry used longest ago, found by looking at all of them. */
  method OldestOf(m: map<Key, Entry>) returns (oldest: Key)
    requires |m| > 0
    ensures oldest in m && forall k | k in m :: m[oldest].lastAccessMs <= m[k].lastAccessMs
  {
    var left := m;
    SomeKey(left);
    oldest :| oldest in left;
    Smaller(left, oldest);
    left := Without(left, oldest);
    while |left| > 0
      invariant oldest in m && forall k | k in left :: k in m && left[k] == m[k]
      invariant forall k | k in m && k !in left :: m[oldest].lastAccessMs <= m[k].lastAccessMs
      decreases |left|
    {
      SomeKey(left);
      var key :| key in left;
      Smaller(left, key);
      if left[key].lastAccessMs < m[oldest].lastAccessMs {
        oldest := key;
      }
      left := Without(left, key);
    }
    assert forall k | k in m :: k !in left;
  }

  /** `order` lists distinct keys of `m`, and `left` holds the others. */
  ghost predicate Walked(m: map<Key, Entry>, left: map<Key, Entry>, order: seq<Key>) {
    && (forall k | k in left :: k in m && left[k] == m[k] && k !in order)
    && (forall k | k in m :: k in left || k in order)
    && (forall k | k in order :: k in m)
    && Distinct(order)
  }

  lemma WalkOn(m: map<Key, Entry>, left: map<Key, Entry>, order: seq<Key>, key: Key)
    requires Walked(m, left, order) && key in left
    ensures Walked(m, Without(left, key), order + [key]) && key in m && m[key] == left[key]
  {
  }

  /** What is listed is in order of age and no younger than what is left. */
  ghost predicate AgesSoFar(m: map<Key, Entry>, left: map<Key, Entry>, order: seq<Key>)
    requires Walked(m, left, order)
  {
    && (forall i, j | 0 <= i < j < |order| :: m[order[i]].lastAccessMs <= m[order[j]].lastAccessMs)
    && (forall i, k | 0 <= i < |order| && k in left :: m[order[i]].lastAccessMs <= m[k].lastAccessMs)
  }

  lemma AgeOn(m: map<Key, Entry>, left: map<Key, Entry>, order: seq<Key>, oldest: Key)
    requires Walked(m, left, order) && AgesSoFar(m, left, order) && oldest in left
    requires forall k | k in left :: left[oldest].lastAccessMs <= left[k].lastAccessMs
    ensures Walked(m, Without(left, oldest), order + [oldest]) && AgesSoFar(m, Without(left, oldest), order + [oldest])
  {
    WalkOn(m, left, order, oldest);
  }

  lemma AllWalked(m: map<Key, Entry>, left: map<Key, Entry>, order: seq<Key>)
    requires Walked(m, left, order) && |left| == 0
    ensures IsOrder(m, order) && (AgesSoFar(m, left, order) ==> IsAgeOrder(m, order))
  {
    assert forall k | k in m :: k !in left;
  }

  /** The index by age, oldest first; entries of one age in any order. */
  method ByAge(m: map<Key, Entry>) returns (order: seq<Key>)
    ensures IsAgeOrder(m, order)
  {
    var left := m;
    order := [];
    assert Walked(m, left, order) && AgesSoFar(m, left, order);
    hide Walked, AgesSoFar, IsAgeOrder;
    while |left| > 0
      invariant Walked(m, left, order) && AgesSoFar(m, left, order)
      decreases |left|
    {
      var oldest := OldestOf(left);
      Smaller(left, oldest);
      AgeOn(m, left, order, oldest);
      order := order + [oldest];
      left := Without(left, oldest);
    }
    AllWalked(m, left, order);
  }

  class Core {
    const maxSizeBytes: int
    var index: map<Key, Entry>
    var sizeBytes: int
    var log: bytes

    /** The cache with its files, which other functions read and write, and the steps that led here. */
    ghost var state: State
    ghost var taken: seq<Step>

    ghost predicate Follows()
      reads this
    {
      state.index == index && state.sizeBytes == sizeBytes && state.log == log
    }

    ghost predicate Ran()
      reads `state, `taken
    {
      state == Run(taken, maxSizeBytes) && forall i | 0 <= i < |taken| :: FitsStep(taken[i])
    }

    ghost predicate Valid()
      reads this
    {
      Follows() && Ran()
    }

    constructor (maxSizeBytes: int)
      ensures Valid() && this.maxSizeBytes == maxSizeBytes && index == map[] && taken == []
    {
      this.maxSizeBytes, index, sizeBytes := maxSizeBytes, map[], 0;
      log, state, taken := LogHeader(), Cleared(), [];
    }

    /** One step more, which the fields have followed or are about to. */
    ghost method Stepped(step: Step)
      requires Ran() && FitsStep(step)
      modifies `state, `taken
      ensures Ran() && taken == old(taken) + [step] && state == Apply(old(state), step, maxSizeBytes)
    {
      hide Run, Apply, FitsStep;
      RunThen(taken, step, maxSizeBytes);
      state, taken := Apply(state, step, maxSizeBytes), taken + [step];
    }

    lemma RanKeepsInv()
      requires Ran()
      ensures Inv(state)
    {
      hide Run, FitsStep, Inv;
      RunKeepsInv(taken, maxSizeBytes);
    }

    /** Whatever was done to the object, and whatever is torn off its log: the log gives the keys of the index,
        and the size is the sum of the sizes in the index. */
    lemma LogIsIndex(torn: bytes)
      requires Valid() && |torn| < RECORD_SIZE
      ensures Replay(log + torn).Keys == index.Keys && sizeBytes == Sum(index) && sizeBytes >= 0
    {
      hide Run, Replay, Sum, FitsStep, ScansAgree;
      ReplayIsIndex(taken, maxSizeBytes, torn);
    }

    method AppendIndexRecord(key: Key, bodyBytes: int, lastAccessMs: int)
      modifies `log
      ensures log == old(log) + PutRecord(Record(key, bodyBytes, lastAccessMs))
    {
      var record := key + PutI64(bodyBytes) + PutI64(lastAccessMs);
      assert record == PutRecord(Record(key, bodyBytes, lastAccessMs));
      log := log + record;
    }

    method OnCommitted(key: Key, bodyBytes: nat, now: int)
      requires Valid() && FitsEntry(Entry(bodyBytes, now))
      modifies this
      ensures Valid() && state == Commit(old(state), key, bodyBytes, now)
      ensures taken == old(taken) + [DoCommit(key, bodyBytes, now)]
    {
      hide Ran, PutRecord;
      Stepped(DoCommit(key, bodyBytes, now));
      sizeBytes := sizeBytes + bodyBytes - (if key in index then index[key].bodyBytes else 0);
      index := index[key := Entry(bodyBytes, now)];
      AppendIndexRecord(key, bodyBytes, now);
    }

    method DropEntry(key: Key, now: int)
      requires Valid() && FitsI64(now)
      modifies this
      ensures Valid() && state == Drop(old(state), key, now)
      ensures taken == old(taken) + [DoDrop(key, now)]
    {
      hide Ran, PutRecord;
      Stepped(DoDrop(key, now));
      if key !in index {
        return;
      }
      sizeBytes := sizeBytes - index[key].bodyBytes;
      if sizeBytes < 0 {
        sizeBytes := 0;
      }
      index := Without(index, key);
      AppendIndexRecord(key, -1, now);
    }

    /** The loop that takes victims while the size is above the target. */
    method TakeVictims(byAge: seq<Key>, target: int) returns (victims: seq<Key>)
      requires Distinct(byAge)
      modifies `index, `sizeBytes
      ensures victims == byAge[..Victims(old(index), old(sizeBytes), target, byAge)]
      ensures index == WithoutAll(old(index), victims) && sizeBytes == old(sizeBytes) - SumOf(old(index), victims)
    {
      hide Victims, SumOf, WithoutAll, Without;
      ghost var m, size := index, sizeBytes;
      var i := 0;
      NothingTaken(m, byAge);
      while i < |byAge| && sizeBytes > target
        invariant i <= |byAge| && index == WithoutAll(m, byAge[..i]) && sizeBytes == size - SumOf(m, byAge[..i])
        invariant Victims(m, size, target, byAge) == i + Victims(m, sizeBytes, target, byAge[i..])
      {
        NextVictim(m, byAge, i);
        VictimsNext(m, sizeBytes, target, byAge, i);
        if byAge[i] in index {
          sizeBytes := sizeBytes - index[byAge[i]].bodyBytes;
          index := Without(index, byAge[i]);
        }
        i := i + 1;
      }
      NoMoreVictims(m, sizeBytes, target, byAge[i..]);
      victims := byAge[..i];
    }

    lemma NothingTaken(m: map<Key, Entry>, byAge: seq<Key>)
      ensures WithoutAll(m, byAge[..0]) == m && SumOf(m, byAge[..0]) == 0 && byAge[0..] == byAge
    {
    }

    lemma VictimsNext(m: map<Key, Entry>, size: int, target: int, byAge: seq<Key>, i: nat)
      requires i < |byAge| && size > target
      ensures Victims(m, size, target, byAge[i..]) == 1 + Victims(m, size - SizeAt(m, byAge[i]), target, byAge[i + 1..])
    {
      assert byAge[i..][1..] == byAge[i + 1..];
    }

    lemma NoMoreVictims(m: map<Key, Entry>, size: int, target: int, rest: seq<Key>)
      requires |rest| == 0 || size <= target
      ensures Victims(m, size, target, rest) == 0
    {
    }

    lemma NextVictim(m: map<Key, Entry>, byAge: seq<Key>, i: nat)
      requires Distinct(byAge) && i < |byAge|
      ensures var now := WithoutAll(m, byAge[..i]);
        && (byAge[i] in now <==> byAge[i] in m) && (byAge[i] in m ==> now[byAge[i]] == m[byAge[i]])
        && WithoutAll(m, byAge[..i + 1]) == if byAge[i] in now then Without(now, byAge[i]) else now
      ensures SumOf(m, byAge[..i + 1]) == SumOf(m, byAge[..i]) + SizeAt(m, byAge[i])
    {
      assert byAge[..i + 1] == byAge[..i] + [byAge[i]];
      SumOfSnoc(m, byAge[..i], byAge[i]);
      hide SumOf;
    }

    lemma {:induction false} SumOfSnoc(m: map<Key, Entry>, keys: seq<Key>, key: Key)
      ensures SumOf(m, keys + [key]) == SumOf(m, keys) + SizeAt(m, key)
      decreases |keys|
    {
      if |keys| > 0 {
        assert (keys + [key])[1..] == keys[1..] + [key];
        SumOfSnoc(m, keys[1..], key);
      } else {
        assert ([] + [key])[1..] == [];
      }
    }

    /** One tombstone for every victim. */
    method AppendTombstones(keys: seq<Key>, now: int)
      modifies `log
      ensures log == old(log) + PutRecords(Tombstones(keys, now))
    {
      hide PutRecord;
      var i := 0;
      assert Tombstones(keys[..0], now) == [];
      NilRight(log);
      while i < |keys|
        invariant i <= |keys| && log == old(log) + PutRecords(Tombstones(keys[..i], now))
      {
        var r := Record(keys[i], -1, now);
        assert Tombstones(keys[..i + 1], now) == Tombstones(keys[..i], now) + [r];
        FlatMapSnoc(PutRecord, Tombstones(keys[..i], now), r);
        Assoc(old(log), PutRecords(Tombstones(keys[..i], now)), PutRecord(r));
        AppendIndexRecord(keys[i], -1, now);
        i := i + 1;
      }
      assert keys[..|keys|] == keys;
    }

    method EvictNow(now: int) returns (victims: seq<Key>, ghost order: seq<Key>)
      requires Valid() && FitsI64(now)
      modifies this
      ensures Valid() && IsAgeOrder(old(index), order) && taken == old(taken) + [DoEvict(order, now)]
      ensures state == Evict(old(state), maxSizeBytes, order, now)
      ensures maxSizeBytes > 0 && old(sizeBytes) > maxSizeBytes ==>
        10 * sizeBytes <= 9 * maxSizeBytes && index == WithoutAll(old(index), victims) && OldestFirst(old(index), victims)
      ensures maxSizeBytes <= 0 || old(sizeBytes) <= maxSizeBytes ==> victims == [] && index == old(index)
    {
      hide Ran, FitsStep, Inv, Victims, SumOf, IsOrder, IsAgeOrder, PutRecords, Tombstones;
      ghost var s := state;
      RanKeepsInv();
      victims := [];
      var byAge := ByAge(index);
      order := byAge;
      EvictKeepsAge(s, maxSizeBytes, byAge, now);
      EvictFits(byAge, now);
      Stepped(DoEvict(byAge, now));
      if maxSizeBytes <= 0 || sizeBytes <= maxSizeBytes {
        return;
      }
      ghost var gone := EvictsOldestAndNoMore(s, maxSizeBytes, byAge, now);
      OrderOfAge(index, byAge);
      var target := maxSizeBytes / 10 * 9;
      victims := TakeVictims(byAge, target);
      VictimsOf(byAge, |victims|, old(index), victims);
      if sizeBytes < 0 {
        sizeBytes := 0;
      }
      AppendTombstones(victims, now);
    }

    lemma EvictFits(order: seq<Key>, now: int)
      requires FitsI64(now)
      ensures FitsStep(DoEvict(order, now))
    {
    }

    lemma EvictKeepsAge(s: State, max: int, order: seq<Key>, now: int)
      requires Inv(s) && FitsI64(now) && IsAgeOrder(s.index, order)
      ensures Inv(Evict(s, max, order, now)) && Distinct(order)
    {
      EvictKeeps(s, max, order, now);
    }

    /** `rewriteIndex`: the log anew from the map. */
    method RewriteIndex() returns (ghost order: seq<Key>)
      modifies `log
      ensures IsOrder(index, order) && log == LogHeader() + PutRecords(RecordsOf(index, order))
    {
      var left := index;
      HeaderParts();
      var buf := PutU32(INDEX_MAGIC) + PutU32(INDEX_VERSION);
      order := [];
      ghost var records: seq<Record> := [];
      NilRight(LogHeader());
      assert records == RecordsOf(index, []);
      assert Walked(index, left, order);
      hide PutRecord, LogHeader, PutRecords, Walked, RecordsOf;
      while |left| > 0
        invariant Walked(index, left, order) && forall k | k in order :: k in index
        invariant records == RecordsOf(index, order) && buf == LogHeader() + PutRecords(records)
        decreases |left|
      {
        SomeKey(left);
        var key :| key in left;
        Smaller(left, key);
        var r := Record(key, left[key].bodyBytes, left[key].lastAccessMs);
        PutRecordsSnoc(records, r);
        Assoc(LogHeader(), PutRecords(records), PutRecord(r));
        buf := buf + PutRecord(r);
        WalkOn(index, left, order, key);
        RecordsOfSnoc(index, order, key);
        order, records := order + [key], records + [r];
        left := Without(left, key);
      }
      AllWalked(index, left, order);
      log := buf;
    }

    lemma RecordsOfSnoc(m: map<Key, Entry>, order: seq<Key>, key: Key)
      requires key in m && forall k | k in order :: k in m
      ensures (forall k | k in order + [key] :: k in m)
        && RecordsOf(m, order + [key]) == RecordsOf(m, order) + [Record(key, m[key].bodyBytes, m[key].lastAccessMs)]
    {
    }

    lemma HeaderParts()
      ensures LogHeader() == PutU32(INDEX_MAGIC) + PutU32(INDEX_VERSION) && PutRecords([]) == []
    {
    }

    lemma PutRecordsSnoc(records: seq<Record>, r: Record)
      ensures PutRecords(records + [r]) == PutRecords(records) + PutRecord(r)
    {
      FlatMapSnoc(PutRecord, records, r);
    }

    /** The replay loop of `loadIndex`; a record without a key for a key is a torn tail. */
    method ReplayLog(d: bytes) returns (m: map<Key, Entry>)
      ensures m == Replay(d)
    {
      m := map[];
      if |d| < 8 || FromLE(d[..4]) != INDEX_MAGIC || FromLE(d[4..8]) != INDEX_VERSION {
        return;
      }
      var off := 8;
      while off + RECORD_SIZE <= |d|
        invariant 8 <= off <= |d| && ReplayFrom(map[], d[8..]) == ReplayFrom(m, d[off..])
      {
        var key := d[off..off + KEY_SIZE];
        var body := Signed(FromLE(d[off + KEY_SIZE..off + KEY_SIZE + 8]));
        var access := Signed(FromLE(d[off + KEY_SIZE + 8..off + RECORD_SIZE]));
        SlicesOf(d, off);
        if !IsHexKey(key) {
          return;
        }
        if body < 0 {
          m := Without(m, key);
        } else {
          m := m[key := Entry(body, access)];
        }
        off := off + RECORD_SIZE;
      }
    }

    lemma SlicesOf(d: bytes, off: nat)
      requires off + RECORD_SIZE <= |d|
      ensures d[off..][..KEY_SIZE] == d[off..off + KEY_SIZE]
      ensures d[off..][KEY_SIZE..KEY_SIZE + 8] == d[off + KEY_SIZE..off + KEY_SIZE + 8]
      ensures d[off..][KEY_SIZE + 8..RECORD_SIZE] == d[off + KEY_SIZE + 8..off + RECORD_SIZE]
      ensures d[off..][RECORD_SIZE..] == d[off + RECORD_SIZE..]
    {
    }

    /** `loadIndex`: replay, add up the sizes, compact. The file may end in a torn record. */
    method LoadIndex(torn: bytes) returns (ghost order: seq<Key>)
      requires Valid() && |torn| < RECORD_SIZE
      modifies this
      ensures Valid() && index == Replay(old(log) + torn) && index.Keys == old(index).Keys
      ensures IsOrder(index, order) && taken == old(taken) + [DoReopen(torn, order)]
      ensures state == Reopened(old(state), torn, order)
    {
      hide Ran, Inv, Replay, PutRecords, RecordsOf, Sum, LogHeader, IsOrder;
      LogIsIndex(torn);
      index := ReplayLog(log + torn);
      sizeBytes := AddUp();
      order := RewriteIndex();
      ReopenFits(torn, order);
      Stepped(DoReopen(torn, order));
    }

    lemma ReopenFits(torn: bytes, order: seq<Key>)
      ensures FitsStep(DoReopen(torn, order))
    {
    }

    method AddUp() returns (total: int)
      ensures total == Sum(index)
    {
      var left := index;
      total := 0;
      while |left| > 0
        invariant total + Sum(left) == Sum(index)
        decreases |left|
      {
        SomeKey(left);
        var key :| key in left;
        SumWithout(left, key);
        Smaller(left, key);
        total := total + left[key].bodyBytes;
        left := Without(left, key);
      }
    }

    /** What the disk says of the keys that have been looked at: a corrected entry for each that has its files,
        the others in `dead`. */
    ghost predicate Looked(s: State, left: map<Key, Entry>, restored: map<Key, Entry>, dead: seq<Key>) {
      && (forall k | k in left :: k in s.index && k !in restored && k !in dead)
      && (forall k | k in s.index :: k in left || (if k in s.files && k in s.actual then k in restored else k in dead))
      && (forall k | k in restored ::
            k in s.index && k in s.files && k in s.actual && restored[k] == Entry(s.actual[k], s.files[k].lastAccessMs))
      && (forall k | k in dead :: k in s.index && !(k in s.files && k in s.actual)) && Distinct(dead)
    }

    lemma LookOn(s: State, left: map<Key, Entry>, restored: map<Key, Entry>, dead: seq<Key>, key: Key)
      requires Looked(s, left, restored, dead) && key in left
      ensures key in s.files && key in s.actual ==>
        Looked(s, Without(left, key), restored[key := Entry(s.actual[key], s.files[key].lastAccessMs)], dead)
      ensures !(key in s.files && key in s.actual) ==> Looked(s, Without(left, key), restored, dead + [key])
    {
    }

    lemma AllLooked(s: State, left: map<Key, Entry>, restored: map<Key, Entry>, dead: seq<Key>)
      requires Looked(s, left, restored, dead) && |left| == 0
      ensures restored == Found(s) && Distinct(dead) && (s.actual.Keys == s.files.Keys ==> IsDead(s, dead))
      ensures s.index.Keys == restored.Keys + (set k | k in dead) && restored.Keys !! (set k | k in dead)
    {
      assert forall k | k in s.index :: k !in left;
      FoundOrDead(s, restored, dead);
      hide Looked, Found, IsDead;
    }

    lemma FoundOrDead(s: State, restored: map<Key, Entry>, dead: seq<Key>)
      requires Looked(s, map[], restored, dead)
      ensures restored == Found(s) && Distinct(dead) && (s.actual.Keys == s.files.Keys ==> IsDead(s, dead))
      ensures s.index.Keys == restored.Keys + (set k | k in dead) && restored.Keys !! (set k | k in dead)
    {
      assert restored.Keys == Found(s).Keys;
    }

    /** The entries found, carried over one by one; a key that has left the index meanwhile is skipped. */
    method Correct(restored: map<Key, Entry>)
      modifies `index, `sizeBytes
      ensures index == Corrected(old(index), restored) && sizeBytes - Sum(index) == old(sizeBytes) - Sum(old(index))
    {
      hide Sum, Corrected;
      var left := restored;
      while |left| > 0
        invariant index.Keys == old(index).Keys && forall k | k in left :: k in restored && left[k] == restored[k]
        invariant forall k | k in index :: index[k] == if k in restored && k !in left then restored[k] else old(index)[k]
        invariant sizeBytes - Sum(index) == old(sizeBytes) - Sum(old(index))
        decreases |left|
      {
        SomeKey(left);
        var key :| key in left;
        Smaller(left, key);
        if key in index {
          SumWith(index, key, left[key]);
          sizeBytes := sizeBytes + left[key].bodyBytes - index[key].bodyBytes;
          index := index[key := left[key]];
        }
        left := Without(left, key);
      }
      assert forall k | k in restored :: k !in left;
    }

    /** The dead leave the index one by one; one that has left it meanwhile is skipped. */
    method Reap(dead: seq<Key>)
      modifies `index, `sizeBytes
      ensures index == WithoutAll(old(index), dead) && sizeBytes - Sum(index) == old(sizeBytes) - Sum(old(index))
    {
      hide Sum;
      var i := 0;
      while i < |dead|
        invariant i <= |dead| && index == WithoutAll(old(index), dead[..i])
        invariant sizeBytes - Sum(index) == old(sizeBytes) - Sum(old(index))
      {
        ReapOn(old(index), dead, i);
        if dead[i] in index {
          SumWithout(index, dead[i]);
          sizeBytes := sizeBytes - index[dead[i]].bodyBytes;
          index := Without(index, dead[i]);
        }
        i := i + 1;
      }
      assert dead[..|dead|] == dead;
    }

    lemma ReapOn(m: map<Key, Entry>, dead: seq<Key>, i: nat)
      requires i < |dead|
      ensures var before := WithoutAll(m, dead[..i]);
        WithoutAll(m, dead[..i + 1]) == if dead[i] in before then Without(before, dead[i]) else before
    {
      assert dead[..i + 1] == dead[..i] + [dead[i]];
    }

    /** The first half of a scan, which reads the disk: `files` the metadata and `actual` the body sizes. */
    method LookAtFiles(files: map<Key, Entry>, actual: map<Key, nat>, ghost s: State)
      returns (restored: map<Key, Entry>, dead: seq<Key>)
      requires s.index == index && s.files == files && s.actual == actual
      ensures restored == Found(s) && Distinct(dead) && (actual.Keys == files.Keys ==> IsDead(s, dead))
      ensures index.Keys == restored.Keys + (set k | k in dead) && restored.Keys !! (set k | k in dead)
    {
      var left := index;
      restored, dead := map[], [];
      assert Looked(s, left, restored, dead);
      hide Looked, Found;
      while |left| > 0
        invariant Looked(s, left, restored, dead)
        decreases |left|
      {
        SomeKey(left);
        var key :| key in left;
        Smaller(left, key);
        LookOn(s, left, restored, dead, key);
        if key !in files || key !in actual {
          dead := dead + [key];
        } else {
          restored := restored[key := Entry(actual[key], files[key].lastAccessMs)];
        }
        left := Without(left, key);
      }
      AllLooked(s, left, restored, dead);
    }

    /** The second half, under the lock: what was found is carried over and what is dead leaves. */
    method CorrectAndReap(restored: map<Key, Entry>, dead: seq<Key>)
      modifies `index, `sizeBytes
      ensures index == WithoutAll(Corrected(old(index), restored), dead)
      ensures sizeBytes == AtLeastZero(old(sizeBytes) + Sum(index) - Sum(old(index)))
    {
      hide Sum, Corrected, WithoutAll;
      Correct(restored);
      Reap(dead);
      if sizeBytes < 0 {
        sizeBytes := 0;
      }
    }

    method ApplyScan(restored: map<Key, Entry>, dead: seq<Key>, now: int)
      modifies `index, `sizeBytes, `log
      ensures index == WithoutAll(Corrected(old(index), restored), dead)
      ensures sizeBytes == AtLeastZero(old(sizeBytes) + Sum(index) - Sum(old(index)))
      ensures log == old(log) + PutRecords(Tombstones(dead, now))
    {
      hide *;
      CorrectAndReap(restored, dead);
      AppendTombstones(dead, now);
    }

    /** The second half as a whole, whatever the index has become since the disk was read. */
    method FinishScan(restored: map<Key, Entry>, dead: seq<Key>, now: int)
      requires Valid() && AllFit(restored) && FitsI64(now)
      modifies this
      ensures Valid() && taken == old(taken) + [DoScan(restored, dead, now)]
      ensures state == Scan(old(state), restored, dead, now)
    {
      FieldsAre();
      ScanStep(state, restored, dead, now, maxSizeBytes);
      hide *;
      Stepped(DoScan(restored, dead, now));
      ApplyScan(restored, dead, now);
      FollowsAgain();
    }

    /** What other threads do meanwhile: commits and drops. */
    method Others()
      requires Valid()
      modifies this
      ensures Valid() && old(taken) <= taken
    {
      hide Valid, Ran, Follows;
      var n: nat :| n >= 0;
      for i := 0 to n
        invariant Valid() && old(taken) <= taken
      {
        var key: Key, bodyBytes: nat, now: int := *, *, *;
        if FitsEntry(Entry(bodyBytes, now)) && FitsI64(now) {
          if * {
            OnCommitted(key, bodyBytes, now);
          } else {
            DropEntry(key, now);
          }
        }
      }
    }

    /** `scanEntries`, with what the disk holds; between its halves other threads go on. */
    method ScanEntries(files: map<Key, Entry>, actual: map<Key, nat>, now: int)
        returns (restored: map<Key, Entry>, dead: seq<Key>)
      requires Valid() && files == state.files && actual == state.actual && FitsI64(now)
      modifies this
      ensures Valid() && restored == Found(old(state)) && IsDead(old(state), dead)
      ensures |taken| > |old(taken)| && old(taken) <= taken[..|taken| - 1] && taken[|taken| - 1] == DoScan(restored, dead, now)
    {
      FieldsAre();
      hide *;
      restored, dead := LookAtFiles(files, actual, state);
      Others();
      ghost var before := taken;
      FinishScan(restored, dead, now);
      assert taken[..|taken| - 1] == before;
    }

    lemma FieldsAre()
      requires Valid()
      ensures state.actual.Keys == state.files.Keys && AllFit(Found(state))
      ensures state.index == index && state.sizeBytes == sizeBytes && state.log == log
    {
      RanKeepsInv();
    }

    lemma FollowsAgain()
      requires Ran() && state.index == index && state.sizeBytes == sizeBytes && state.log == log
      ensures Valid()
    {
    }

    lemma ScanStep(s: State, found: map<Key, Entry>, dead: seq<Key>, now: int, max: int)
      requires AllFit(found) && FitsI64(now)
      ensures FitsStep(DoScan(found, dead, now)) && var t := Apply(s, DoScan(found, dead, now), max);
        && t == Scan(s, found, dead, now) && t.index == WithoutAll(Corrected(s.index, found), dead)
        && t.log == s.log + PutRecords(Tombstones(dead, now))
        && t.sizeBytes == AtLeastZero(s.sizeBytes + Sum(t.index) - Sum(s.index))
    {
      hide Sum, Corrected, PutRecords, Tombstones, WithoutAll, Commit, Drop, Refresh, Evict, Reopened, AtLeastZero;
    }
  }
}
