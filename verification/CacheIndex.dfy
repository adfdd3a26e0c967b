/** The disk cache's index: a map in memory, an append-only log on disk, and the size they account for.
    Replaying the log always gives the keys of the map, and its sizes but for those a scan has corrected. */
module CacheIndex {
  import opened Bytes
  import opened Seqs
  import opened CacheMeta

  const INDEX_MAGIC := 0x4943_484e
  const INDEX_VERSION := 1
  const KEY_SIZE := 64
  const RECORD_SIZE := 80

  predicate IsHex(c: byte) {
    48 <= c <= 57 || 97 <= c <= 102
  }

  predicate IsHexKey(key: bytes) {
    |key| == KEY_SIZE && forall i | 0 <= i < |key| :: IsHex(key[i])
  }

  type Key = key: bytes | IsHexKey(key) witness seq(KEY_SIZE, _ => 48)

  datatype Entry = Entry(bodyBytes: int, lastAccessMs: int)

  // ----- The log -----

  /** A record of the log; a negative size is a tombstone. */
  datatype Record = Record(key: Key, bodyBytes: int, lastAccessMs: int)

  predicate FitsRecord(r: Record) {
    FitsI64(r.bodyBytes) && FitsI64(r.lastAccessMs)
  }

  function PutRecord(r: Record): (b: bytes)
    ensures |b| == RECORD_SIZE
  {
    r.key + (PutI64(r.bodyBytes) + PutI64(r.lastAccessMs))
  }

  function PutRecords(records: seq<Record>): bytes {
    FlatMap(PutRecord, records)
  }

  function LogHeader(): (b: bytes)
    ensures |b| == 8
  {
    PutU32(INDEX_MAGIC) + PutU32(INDEX_VERSION)
  }

  function Without(m: map<Key, Entry>, key: Key): map<Key, Entry> {
    m - {key}
  }

  /** Last record per key wins; a record whose key is no key ends the replay. */
  function ReplayFrom(m: map<Key, Entry>, d: bytes): map<Key, Entry>
    decreases |d|
  {
    if |d| < RECORD_SIZE then m else
    var key := d[..KEY_SIZE];
    var body, access := Signed(FromLE(d[KEY_SIZE..KEY_SIZE + 8])), Signed(FromLE(d[KEY_SIZE + 8..RECORD_SIZE]));
    if !IsHexKey(key) then m
    else ReplayFrom(if body < 0 then Without(m, key) else m[key := Entry(body, access)], d[RECORD_SIZE..])
  }

  /** `loadIndex`, up to the compaction: a log without its header counts as empty. */
  function Replay(log: bytes): map<Key, Entry> {
    if |log| < 8 || FromLE(log[..4]) != INDEX_MAGIC || FromLE(log[4..8]) != INDEX_VERSION then map[]
    else ReplayFrom(map[], log[8..])
  }

  function Replayed(m: map<Key, Entry>, r: Record): map<Key, Entry> {
    if r.bodyBytes < 0 then Without(m, r.key) else m[r.key := Entry(r.bodyBytes, r.lastAccessMs)]
  }

  function Fold(m: map<Key, Entry>, records: seq<Record>): map<Key, Entry>
    decreases |records|
  {
    if |records| == 0 then m else Fold(Replayed(m, records[0]), records[1..])
  }

  lemma RecordReadsBack(m: map<Key, Entry>, r: Record, rest: bytes)
    requires FitsRecord(r)
    ensures ReplayFrom(m, PutRecord(r) + rest) == ReplayFrom(Replayed(m, r), rest)
  {
    var d := PutRecord(r) + rest;
    assert d[..KEY_SIZE] == r.key;
    assert d[KEY_SIZE..KEY_SIZE + 8] == PutI64(r.bodyBytes);
    assert d[KEY_SIZE + 8..RECORD_SIZE] == PutI64(r.lastAccessMs);
    assert d[RECORD_SIZE..] == rest;
    I64ReadsBack(r.bodyBytes, []);
    I64ReadsBack(r.lastAccessMs, []);
    NilRight(PutI64(r.bodyBytes));
    NilRight(PutI64(r.lastAccessMs));
    assert PutI64(r.bodyBytes)[..8] == PutI64(r.bodyBytes) && PutI64(r.lastAccessMs)[..8] == PutI64(r.lastAccessMs);
    hide FromLE, PutI64;
  }

  /** Whatever is torn off the end of the log changes nothing. */
  lemma {:induction false} RecordsReadBack(m: map<Key, Entry>, records: seq<Record>, torn: bytes)
    requires |torn| < RECORD_SIZE && forall i | 0 <= i < |records| :: FitsRecord(records[i])
    ensures ReplayFrom(m, PutRecords(records) + torn) == Fold(m, records)
    decreases |records|
  {
    if |records| == 0 {
      NilLeft(torn);
    } else {
      Assoc(PutRecord(records[0]), PutRecords(records[1..]), torn);
      RecordReadsBack(m, records[0], PutRecords(records[1..]) + torn);
      RecordsReadBack(Replayed(m, records[0]), records[1..], torn);
    }
  }

  lemma HeaderIs()
    ensures FromLE(LogHeader()[..4]) == INDEX_MAGIC && FromLE(LogHeader()[4..]) == INDEX_VERSION
  {
    U32ReadsBack(INDEX_MAGIC, PutU32(INDEX_VERSION));
    U32ReadsBack(INDEX_VERSION, []);
    NilRight(PutU32(INDEX_VERSION));
    var v := PutU32(INDEX_VERSION);
    assert v[..4] == v;
    hide FromLE, PutU32;
  }

  lemma HeaderReads(rest: bytes)
    ensures Replay(LogHeader() + rest) == ReplayFrom(map[], rest)
  {
    HeaderIs();
    var log := LogHeader() + rest;
    assert log[..4] == LogHeader()[..4] && log[4..8] == LogHeader()[4..] && log[8..] == rest;
    hide FromLE, LogHeader, ReplayFrom;
  }

  lemma LogReadsBack(records: seq<Record>, torn: bytes)
    requires |torn| < RECORD_SIZE && forall i | 0 <= i < |records| :: FitsRecord(records[i])
    ensures Replay(LogHeader() + PutRecords(records) + torn) == Fold(map[], records)
  {
    hide Replay, LogHeader, PutRecords;
    Assoc(LogHeader(), PutRecords(records), torn);
    HeaderReads(PutRecords(records) + torn);
    RecordsReadBack(map[], records, torn);
  }

  lemma {:induction false} FoldAppend(m: map<Key, Entry>, a: seq<Record>, b: seq<Record>)
    ensures Fold(m, a + b) == Fold(Fold(m, a), b)
    decreases |a|
  {
    if |a| == 0 {
      NilLeft(b);
    } else {
      assert (a + b)[0] == a[0] && (a + b)[1..] == a[1..] + b;
      FoldAppend(Replayed(m, a[0]), a[1..], b);
    }
  }

  lemma FoldSnoc(m: map<Key, Entry>, a: seq<Record>, r: Record)
    ensures Fold(m, a + [r]) == Replayed(Fold(m, a), r)
  {
    FoldAppend(m, a, [r]);
    assert [r][1..] == [];
  }

  // ----- Sizes -----

  ghost function Sum(m: map<Key, Entry>): int
    decreases |m|
  {
    if |m| == 0 then 0 else
    SomeKey(m);
    var key :| key in m;
    Smaller(m, key);
    m[key].bodyBytes + Sum(Without(m, key))
  }

  lemma SomeKey(m: map<Key, Entry>)
    ensures |m| == 0 || exists key :: key in m
  {
    if forall key :: key !in m {
      assert m == map[];
    }
  }

  lemma Smaller(m: map<Key, Entry>, key: Key)
    requires key in m
    ensures |Without(m, key)| == |m| - 1
  {
    assert Without(m, key).Keys == m.Keys - {key};
  }

  lemma {:induction false} SumWithout(m: map<Key, Entry>, key: Key)
    requires key in m
    ensures Sum(m) == m[key].bodyBytes + Sum(Without(m, key))
    decreases |m|
  {
    var first := SumUnfolds(m);
    hide Sum;
    if first != key {
      Smaller(m, first);
      Smaller(m, key);
      WithoutBoth(m, first, key);
      SumWithout(Without(m, first), key);
      SumWithout(Without(m, key), first);
    }
  }

  lemma SumUnfolds(m: map<Key, Entry>) returns (first: Key)
    requires |m| > 0
    ensures first in m && Sum(m) == m[first].bodyBytes + Sum(Without(m, first))
  {
    SomeKey(m);
    first :| first in m && Sum(m) == m[first].bodyBytes + Sum(Without(m, first));
  }

  lemma WithoutBoth(m: map<Key, Entry>, a: Key, b: Key)
    ensures Without(Without(m, a), b) == Without(Without(m, b), a)
  {
  }

  lemma SumWith(m: map<Key, Entry>, key: Key, e: Entry)
    ensures Sum(m[key := e]) == Sum(m) - (if key in m then m[key].bodyBytes else 0) + e.bodyBytes
  {
    var with := m[key := e];
    SumWithout(with, key);
    if key in m {
      SumWithout(m, key);
      assert Without(with, key) == Without(m, key);
    } else {
      assert Without(with, key) == m;
    }
  }

  predicate NoNegatives(m: map<Key, Entry>) {
    forall key | key in m :: m[key].bodyBytes >= 0
  }

  lemma {:induction false} SumIsNatural(m: map<Key, Entry>)
    requires NoNegatives(m)
    ensures Sum(m) >= 0
    decreases |m|
  {
    if |m| > 0 {
      SomeKey(m);
      var key :| key in m;
      Smaller(m, key);
      SumWithout(m, key);
      SumIsNatural(Without(m, key));
    }
  }

  // ----- The cache -----

  /** `files` are the metadata files on disk, with the size they record, and `actual` the sizes of the body
      files beside them. `records` is the log as records and `logged` what it replays to, up to access times:
      they only record. */
  datatype State = State(
    index: map<Key, Entry>,
    sizeBytes: int,
    files: map<Key, Entry>,
    actual: map<Key, nat>,
    log: bytes,
    records: seq<Record>,
    logged: map<Key, Entry>)

  function Kept(sizes: map<Key, nat>, keys: seq<Key>): map<Key, nat> {
    sizes - (set k | k in keys)
  }

  function Append(s: State, r: Record): State {
    s.(log := s.log + PutRecord(r), records := s.records + [r])
  }

  function AppendAll(s: State, rs: seq<Record>): State {
    s.(log := s.log + PutRecords(rs), records := s.records + rs)
  }

  function AtLeastZero(n: int): int {
    if n < 0 then 0 else n
  }

  /** `onCommitted`, the files having been put in place. */
  function Commit(s: State, key: Key, bodyBytes: nat, now: int): State {
    var e := Entry(bodyBytes, now);
    var was := if key in s.index then s.index[key].bodyBytes else 0;
    Append(s.(index := s.index[key := e], sizeBytes := s.sizeBytes + bodyBytes - was, files := s.files[key := e],
              actual := s.actual[key := bodyBytes], logged := s.logged[key := e]),
           Record(key, bodyBytes, now))
  }

  /** A hit moves the access time in memory only. */
  function Touch(s: State, key: Key, now: int): State {
    if key in s.index then s.(index := s.index[key := s.index[key].(lastAccessMs := now)]) else s
  }

  /** `flushTouched` carries it to the metadata file later. */
  function FlushTouched(s: State, key: Key): State {
    if key in s.index && key in s.files
    then s.(files := s.files[key := s.files[key].(lastAccessMs := s.index[key].lastAccessMs)])
    else s
  }

  /** `dropEntry`. */
  function Drop(s: State, key: Key, now: int): State {
    if key !in s.index then s else
    Append(s.(index := Without(s.index, key), sizeBytes := AtLeastZero(s.sizeBytes - s.index[key].bodyBytes),
              files := Without(s.files, key), actual := Kept(s.actual, [key]), logged := Without(s.logged, key)),
           Record(key, -1, now))
  }

  /** `refreshMetadata`, which does nothing if there is no metadata to refresh. */
  function Refresh(s: State, key: Key, now: int): State {
    if key !in s.files then s else
    var t := Touch(s.(files := s.files[key := s.files[key].(lastAccessMs := now)]), key, now);
    Append(t.(logged := s.logged[key := Entry(s.files[key].bodyBytes, now)]), Record(key, s.files[key].bodyBytes, now))
  }

  /** A file disappears behind the cache's back. */
  function LoseFile(s: State, key: Key): State {
    s.(files := Without(s.files, key), actual := Kept(s.actual, [key]))
  }

  /** A body file changes its size behind the cache's back. */
  function Resize(s: State, key: Key, size: nat): State {
    if key in s.files then s.(actual := s.actual[key := size]) else s
  }

  function Tombstones(keys: seq<Key>, now: int): (rs: seq<Record>)
    ensures |rs| == |keys| && forall i | 0 <= i < |keys| :: rs[i] == Record(keys[i], -1, now)
  {
    seq(|keys|, i requires 0 <= i < |keys| => Record(keys[i], -1, now))
  }

  function WithoutAll(m: map<Key, Entry>, keys: seq<Key>): map<Key, Entry> {
    m - (set k | k in keys)
  }

  /** What a scan finds on disk for the entries that have files. */
  function Found(s: State): map<Key, Entry> {
    map k | k in s.index && k in s.files && k in s.actual :: Entry(s.actual[k], s.files[k].lastAccessMs)
  }

  /** The entries found, in place of those of the same keys. */
  function Corrected(index: map<Key, Entry>, found: map<Key, Entry>): (m: map<Key, Entry>)
    ensures m.Keys == index.Keys && forall k | k in m :: m[k] == if k in found then found[k] else index[k]
  {
    index + (found - (found.Keys - index.Keys))
  }

  /** The second half of `scanEntries`, under the lock: what was `found` on disk corrects the index, and what
      was found `dead` is reaped, in that order. Since the disk was read the index may have changed. */
  ghost function Scan(s: State, found: map<Key, Entry>, dead: seq<Key>, now: int): State {
    var index := WithoutAll(Corrected(s.index, found), dead);
    AppendAll(s.(index := index, sizeBytes := AtLeastZero(s.sizeBytes + Sum(index) - Sum(s.index)),
                 files := WithoutAll(s.files, dead), actual := Kept(s.actual, dead), logged := WithoutAll(s.logged, dead)),
              Tombstones(dead, now))
  }

  /** The keys without files, in the order in which the scan lists them. */
  predicate IsDead(s: State, dead: seq<Key>) {
    && (forall i, j | 0 <= i < j < |dead| :: dead[i] != dead[j])
    && (forall k | k in dead :: k in s.index && k !in s.files)
    && (forall k | k in s.index && k !in s.files :: k in dead)
  }

  /** `clear`. */
  function Cleared(): State {
    State(map[], 0, map[], map[], LogHeader(), [], map[])
  }

  /** Every key once, in whatever order the hash map yields them. */
  predicate IsOrder(m: map<Key, Entry>, order: seq<Key>) {
    && (forall i, j | 0 <= i < j < |order| :: order[i] != order[j])
    && (forall k | k in order :: k in m) && (forall k | k in m :: k in order)
  }

  function RecordsOf(m: map<Key, Entry>, order: seq<Key>): seq<Record>
    requires forall k | k in order :: k in m
  {
    seq(|order|, i requires 0 <= i < |order| => assert order[i] in order; Record(order[i], m[order[i]].bodyBytes, m[order[i]].lastAccessMs))
  }

  /** `open`: the log is replayed, the sizes added up, the log rewritten from the map. */
  ghost function Reopened(s: State, torn: bytes, order: seq<Key>): State
    requires IsOrder(Replay(s.log + torn), order)
  {
    var m := Replay(s.log + torn);
    s.(index := m, logged := m, sizeBytes := Sum(m), log := LogHeader() + PutRecords(RecordsOf(m, order)), records := RecordsOf(m, order))
  }

  // ----- Eviction -----

  /** Oldest first. */
  predicate IsAgeOrder(m: map<Key, Entry>, order: seq<Key>) {
    IsOrder(m, order) && forall i, j | 0 <= i < j < |order| :: m[order[i]].lastAccessMs <= m[order[j]].lastAccessMs
  }

  /** Evictions stop at 90 % of the cap, so that a stream of commits does not pay for one each. */
  function EvictionTarget(maxSizeBytes: int): int {
    maxSizeBytes / 10 * 9
  }

  /** How many of the oldest go. */
  function Victims(m: map<Key, Entry>, size: int, target: int, order: seq<Key>): (n: nat)
    ensures n <= |order|
    decreases |order|
  {
    if |order| == 0 || size <= target then 0
    else 1 + Victims(m, size - SizeAt(m, order[0]), target, order[1..])
  }

  /** `evictNow`. */
  function Evict(s: State, maxSizeBytes: int, order: seq<Key>, now: int): State {
    if maxSizeBytes <= 0 || s.sizeBytes <= maxSizeBytes then s else
    var gone := order[..Victims(s.index, s.sizeBytes, EvictionTarget(maxSizeBytes), order)];
    var index := WithoutAll(s.index, gone);
    AppendAll(s.(index := index, sizeBytes := AtLeastZero(s.sizeBytes - SumOf(s.index, gone)), files := WithoutAll(s.files, gone),
                 actual := Kept(s.actual, gone), logged := WithoutAll(s.logged, gone)),
              Tombstones(gone, now))
  }

  function SizeAt(m: map<Key, Entry>, key: Key): int {
    if key in m then m[key].bodyBytes else 0
  }

  function SumOf(m: map<Key, Entry>, keys: seq<Key>): int {
    if |keys| == 0 then 0 else SizeAt(m, keys[0]) + SumOf(m, keys[1..])
  }

  // ----- What every operation keeps -----

  predicate SameSizes(a: map<Key, Entry>, b: map<Key, Entry>) {
    a.Keys == b.Keys && forall k | k in a :: a[k].bodyBytes == b[k].bodyBytes
  }

  /** The records, replayed, are the index, up to access times. */
  predicate Agrees(records: seq<Record>, index: map<Key, Entry>) {
    SameSizes(Fold(map[], records), index)
  }

  predicate FitsEntry(e: Entry) {
    0 <= e.bodyBytes < SIGN64 && FitsI64(e.lastAccessMs)
  }

  predicate AllFit(m: map<Key, Entry>) {
    forall k | k in m :: FitsEntry(m[k])
  }

  predicate LogInv(log: bytes, records: seq<Record>) {
    log == LogHeader() + PutRecords(records) && forall i | 0 <= i < |records| :: FitsRecord(records[i])
  }

  predicate FilesInv(files: map<Key, Entry>, actual: map<Key, nat>, logged: map<Key, Entry>) {
    && AllFit(files) && actual.Keys == files.Keys && (forall k | k in actual :: actual[k] < SIGN64)
    && forall k | k in files :: k in logged && files[k].bodyBytes == logged[k].bodyBytes
  }

  ghost predicate Inv(s: State) {
    && LogInv(s.log, s.records) && Agrees(s.records, s.logged) && s.logged.Keys == s.index.Keys
    && s.sizeBytes == Sum(s.index) && AllFit(s.index) && AllFit(s.logged) && FilesInv(s.files, s.actual, s.logged)
  }

  /** No size in the index has been corrected that the log does not know. */
  predicate SizesLogged(s: State) {
    SameSizes(s.logged, s.index)
  }

  lemma AppendLogged(log: bytes, records: seq<Record>, r: Record)
    requires LogInv(log, records) && FitsRecord(r)
    ensures LogInv(log + PutRecord(r), records + [r])
  {
    FlatMapSnoc(PutRecord, records, r);
    Assoc(LogHeader(), PutRecords(records), PutRecord(r));
    hide LogHeader, PutRecord;
  }

  lemma AppendAllLogged(log: bytes, records: seq<Record>, rs: seq<Record>)
    requires LogInv(log, records) && forall i | 0 <= i < |rs| :: FitsRecord(rs[i])
    ensures LogInv(log + PutRecords(rs), records + rs)
  {
    FlatMapAppend(PutRecord, records, rs);
    Assoc(LogHeader(), PutRecords(records), PutRecords(rs));
    hide LogHeader, PutRecord;
  }

  lemma AgreesSet(records: seq<Record>, index: map<Key, Entry>, r: Record, access: int)
    requires Agrees(records, index) && r.bodyBytes >= 0
    ensures Agrees(records + [r], index[r.key := Entry(r.bodyBytes, access)])
  {
    FoldSnoc(map[], records, r);
    hide Fold;
  }

  lemma AgreesDrop(records: seq<Record>, index: map<Key, Entry>, r: Record)
    requires Agrees(records, index) && r.bodyBytes < 0
    ensures Agrees(records + [r], Without(index, r.key))
  {
    FoldSnoc(map[], records, r);
    hide Fold;
  }

  lemma {:induction false} AgreesTombstones(records: seq<Record>, index: map<Key, Entry>, keys: seq<Key>, now: int)
    requires Agrees(records, index)
    ensures Agrees(records + Tombstones(keys, now), WithoutAll(index, keys))
    decreases |keys|
  {
    hide Agrees;
    if |keys| == 0 {
      NilRight(records);
      assert Tombstones(keys, now) == [] && WithoutAll(index, keys) == index;
    } else {
      var r := Record(keys[0], -1, now);
      AgreesDrop(records, index, r);
      AgreesTombstones(records + [r], Without(index, keys[0]), keys[1..], now);
      assert Tombstones(keys, now) == [r] + Tombstones(keys[1..], now);
      Assoc(records, [r], Tombstones(keys[1..], now));
      WithoutAllNext(index, keys);
    }
  }

  lemma AgreesSame(records: seq<Record>, index: map<Key, Entry>, index': map<Key, Entry>)
    requires Agrees(records, index) && SameSizes(index, index')
    ensures Agrees(records, index')
  {
    hide Fold;
  }

  lemma {:induction false} SumSame(a: map<Key, Entry>, b: map<Key, Entry>)
    requires SameSizes(a, b)
    ensures Sum(a) == Sum(b)
    decreases |a|
  {
    assert |a.Keys| == |b.Keys|;
    if |a| > 0 {
      SomeKey(a);
      var key :| key in a;
      SumWithout(a, key);
      SumWithout(b, key);
      Smaller(a, key);
      SumSame(Without(a, key), Without(b, key));
    }
  }

  lemma {:induction false} SumWithoutAll(m: map<Key, Entry>, keys: seq<Key>)
    requires forall k | k in keys :: k in m
    requires forall i, j | 0 <= i < j < |keys| :: keys[i] != keys[j]
    ensures Sum(WithoutAll(m, keys)) == Sum(m) - SumOf(m, keys)
    decreases |keys|
  {
    if |keys| == 0 {
      assert WithoutAll(m, keys) == m;
    } else {
      var key, tail := keys[0], keys[1..];
      var rest := Without(m, key);
      OthersStay(m, keys);
      hide Sum, SumOf, WithoutAll, Without;
      SumWithout(m, key);
      SumWithoutAll(rest, tail);
      SumOfSame(m, rest, tail);
      WithoutAllNext(m, keys);
    }
  }

  lemma OthersStay(m: map<Key, Entry>, keys: seq<Key>)
    requires |keys| > 0 && forall k | k in keys :: k in m
    requires forall i, j | 0 <= i < j < |keys| :: keys[i] != keys[j]
    ensures SumOf(m, keys) == m[keys[0]].bodyBytes + SumOf(m, keys[1..])
    ensures forall k | k in keys[1..] :: k in Without(m, keys[0]) && m[k] == Without(m, keys[0])[k]
  {
  }

  lemma WithoutAllNext(m: map<Key, Entry>, keys: seq<Key>)
    requires |keys| > 0
    ensures WithoutAll(m, keys) == WithoutAll(Without(m, keys[0]), keys[1..])
  {
    assert keys == [keys[0]] + keys[1..];
  }

  lemma {:induction false} SumOfSame(m: map<Key, Entry>, n: map<Key, Entry>, keys: seq<Key>)
    requires forall k | k in keys :: k in m && k in n && m[k] == n[k]
    ensures SumOf(m, keys) == SumOf(n, keys)
    decreases |keys|
  {
    if |keys| > 0 {
      SumOfSame(m, n, keys[1..]);
    }
  }

  lemma FitIsNatural(m: map<Key, Entry>)
    requires AllFit(m)
    ensures Sum(m) >= 0
  {
    SumIsNatural(m);
  }

  lemma CommitKeeps(s: State, key: Key, bodyBytes: nat, now: int)
    requires Inv(s) && FitsEntry(Entry(bodyBytes, now))
    ensures Inv(Commit(s, key, bodyBytes, now))
  {
    hide LogInv, Agrees, Sum, PutRecord;
    var r := Record(key, bodyBytes, now);
    assert FitsRecord(r);
    AppendLogged(s.log, s.records, r);
    AgreesSet(s.records, s.logged, r, now);
    SumWith(s.index, key, Entry(bodyBytes, now));
  }

  lemma TouchKeeps(s: State, key: Key, now: int)
    requires Inv(s) && FitsI64(now)
    ensures Inv(Touch(s, key, now))
  {
    hide LogInv, Agrees, Sum;
    var t := Touch(s, key, now);
    assert SameSizes(s.index, t.index);
    SumSame(s.index, t.index);
  }

  lemma FlushKeeps(s: State, key: Key)
    requires Inv(s)
    ensures Inv(FlushTouched(s, key)) && Inv(LoseFile(s, key))
  {
    hide LogInv, Agrees, Sum;
  }

  lemma ResizeKeeps(s: State, key: Key, size: nat)
    requires Inv(s) && size < SIGN64
    ensures Inv(Resize(s, key, size))
  {
    hide LogInv, Agrees, Sum;
  }

  lemma DropKeeps(s: State, key: Key, now: int)
    requires Inv(s) && FitsI64(now)
    ensures Inv(Drop(s, key, now))
  {
    if key in s.index {
      hide LogInv, Agrees, Sum, PutRecord;
      var r := Record(key, -1, now);
      AppendLogged(s.log, s.records, r);
      AgreesDrop(s.records, s.logged, r);
      SumWithout(s.index, key);
      FitIsNatural(Without(s.index, key));
      DroppedFiles(s, key);
    }
  }

  lemma DroppedFiles(s: State, key: Key)
    requires FilesInv(s.files, s.actual, s.logged)
    ensures FilesInv(Without(s.files, key), Kept(s.actual, [key]), Without(s.logged, key))
  {
  }

  lemma RefreshKeeps(s: State, key: Key, now: int)
    requires Inv(s) && FitsI64(now)
    ensures Inv(Refresh(s, key, now))
  {
    if key in s.files {
      hide LogInv, Agrees, Sum, PutRecord;
      var r := Record(key, s.files[key].bodyBytes, now);
      var t := Refresh(s, key, now);
      AppendLogged(s.log, s.records, r);
      AgreesSet(s.records, s.logged, r, now);
      RefreshedFiles(s, key, now);
      RefreshedIndex(s, key, now);
      assert t.log == s.log + PutRecord(r) && t.records == s.records + [r] && t.sizeBytes == s.sizeBytes;
      hide Refresh, FilesInv, AllFit, SameSizes;
    }
  }

  lemma RefreshedIndex(s: State, key: Key, now: int)
    requires AllFit(s.index) && AllFit(s.logged) && s.logged.Keys == s.index.Keys && FitsI64(now)
    requires key in s.files && key in s.logged && FitsEntry(s.files[key])
    ensures var t := Refresh(s, key, now);
      && Sum(t.index) == Sum(s.index) && AllFit(t.index) && AllFit(t.logged) && t.logged.Keys == t.index.Keys
      && t.logged == s.logged[key := Entry(s.files[key].bodyBytes, now)]
  {
    hide Sum, PutRecord;
    var t := Refresh(s, key, now);
    assert SameSizes(s.index, t.index);
    SumSame(s.index, t.index);
  }

  lemma RefreshedFiles(s: State, key: Key, now: int)
    requires FilesInv(s.files, s.actual, s.logged) && key in s.files && FitsI64(now)
    ensures var t := Refresh(s, key, now); FilesInv(t.files, t.actual, t.logged)
  {
    hide PutRecord;
  }

  lemma ScanKeeps(s: State, found: map<Key, Entry>, dead: seq<Key>, now: int)
    requires Inv(s) && FitsI64(now) && AllFit(found)
    ensures Inv(Scan(s, found, dead, now))
  {
    var t := Scan(s, found, dead, now);
    AppendAllLogged(s.log, s.records, Tombstones(dead, now));
    AgreesTombstones(s.records, s.logged, dead, now);
    hide LogInv, Agrees, Sum, PutRecords, Corrected;
    assert AllFit(t.index) && t.logged.Keys == t.index.Keys;
    FitIsNatural(t.index);
    ReapedFiles(s, dead);
  }

  lemma ReapedFiles(s: State, dead: seq<Key>)
    requires FilesInv(s.files, s.actual, s.logged)
    ensures FilesInv(WithoutAll(s.files, dead), Kept(s.actual, dead), WithoutAll(s.logged, dead))
  {
  }

  /** Every body file has the size that `m` says. */
  predicate BodiesAre(s: State, m: map<Key, Entry>) {
    forall k | k in s.files && k in s.index && k in s.actual && k in m :: s.actual[k] == m[k].bodyBytes
  }

  /** What was found has the sizes logged. */
  predicate FoundAsLogged(s: State, found: map<Key, Entry>, dead: seq<Key>) {
    forall k | k in s.index && k in found && k !in dead && k in s.logged :: found[k].bodyBytes == s.logged[k].bodyBytes
  }

  lemma ScanDecides(s: State, found: map<Key, Entry>, dead: seq<Key>, now: int)
    requires Inv(s)
    ensures SizesLogged(Scan(s, found, dead, now)) ==> FoundAsLogged(s, found, dead)
    ensures SizesLogged(s) && FoundAsLogged(s, found, dead) ==> SizesLogged(Scan(s, found, dead, now))
  {
    hide LogInv, Agrees, Sum, Corrected;
    var t := Scan(s, found, dead, now);
    assert forall k | k in t.index :: k in s.index && k !in dead && t.logged[k] == s.logged[k];
    assert forall k | k in s.index && k !in dead :: k in t.index;
  }

  /** With nothing in between, the scan leaves exactly what is on disk. */
  lemma WholeScan(s: State, dead: seq<Key>, now: int)
    requires Inv(s) && IsDead(s, dead)
    ensures var t := Scan(s, Found(s), dead, now);
      t.index == Found(s) && AllFit(Found(s)) && (SizesLogged(t) <==> BodiesAre(s, s.logged))
  {
    hide LogInv, Agrees, Sum, Corrected, PutRecords;
    var t := Scan(s, Found(s), dead, now);
    assert forall k | k in s.index :: k in dead || k in Found(s);
    assert t.index == Found(s);
    assert forall k | k in t.index :: t.index[k].bodyBytes == s.actual[k] && t.logged[k] == s.logged[k];
  }

  lemma ClearKeeps()
    ensures Inv(Cleared())
  {
    NilRight(LogHeader());
    assert Sum(map[]) == 0;
    hide LogHeader;
  }

  /** Distinct entries go, with their files and a tombstone each. */
  function Evicted(s: State, gone: seq<Key>, now: int): State {
    AppendAll(s.(index := WithoutAll(s.index, gone), sizeBytes := AtLeastZero(s.sizeBytes - SumOf(s.index, gone)),
                 files := WithoutAll(s.files, gone), actual := Kept(s.actual, gone), logged := WithoutAll(s.logged, gone)),
              Tombstones(gone, now))
  }

  lemma EvictedKeeps(s: State, gone: seq<Key>, now: int)
    requires Inv(s) && FitsI64(now) && forall k | k in gone :: k in s.index
    requires forall i, j | 0 <= i < j < |gone| :: gone[i] != gone[j]
    ensures Inv(Evicted(s, gone, now)) && Evicted(s, gone, now).sizeBytes == s.sizeBytes - SumOf(s.index, gone)
  {
    hide LogInv, Agrees, Sum, SumOf, PutRecords;
    AppendAllLogged(s.log, s.records, Tombstones(gone, now));
    AgreesTombstones(s.records, s.logged, gone, now);
    SumWithoutAll(s.index, gone);
    FitIsNatural(WithoutAll(s.index, gone));
  }

  lemma EvictIs(s: State, maxSizeBytes: int, order: seq<Key>, now: int) returns (gone: seq<Key>)
    requires IsOrder(s.index, order) && maxSizeBytes > 0 && s.sizeBytes > maxSizeBytes
    ensures gone == order[..Victims(s.index, s.sizeBytes, EvictionTarget(maxSizeBytes), order)]
    ensures forall k | k in gone :: k in s.index
    ensures forall i, j | 0 <= i < j < |gone| :: gone[i] != gone[j]
    ensures Evict(s, maxSizeBytes, order, now) == Evicted(s, gone, now)
  {
    gone := order[..Victims(s.index, s.sizeBytes, EvictionTarget(maxSizeBytes), order)];
    assert forall k | k in gone :: k in order;
    hide Victims, SumOf, PutRecords;
  }

  lemma EvictKeeps(s: State, maxSizeBytes: int, order: seq<Key>, now: int)
    requires Inv(s) && FitsI64(now) && IsOrder(s.index, order)
    ensures Inv(Evict(s, maxSizeBytes, order, now))
  {
    hide Inv, Evicted;
    if maxSizeBytes > 0 && s.sizeBytes > maxSizeBytes {
      var gone := EvictIs(s, maxSizeBytes, order, now);
      EvictedKeeps(s, gone, now);
    }
  }

  // ----- Compaction -----

  function Taken(m: map<Key, Entry>, keys: seq<Key>): map<Key, Entry> {
    m - (set k | k in m && k !in keys)
  }

  lemma TakenSnoc(m: map<Key, Entry>, keys: seq<Key>, key: Key)
    requires key in m
    ensures Taken(m, keys + [key]) == Taken(m, keys)[key := m[key]]
  {
  }

  lemma {:induction false} FoldOfRecords(m: map<Key, Entry>, order: seq<Key>, n: nat)
    requires forall k | k in order :: k in m && m[k].bodyBytes >= 0
    requires n <= |order|
    ensures Fold(map[], RecordsOf(m, order)[..n]) == Taken(m, order[..n])
    decreases n
  {
    var rs := RecordsOf(m, order);
    if n > 0 {
      FoldOfRecords(m, order, n - 1);
      hide Fold, Taken;
      assert order[n - 1] in order;
      assert rs[..n] == rs[..n - 1] + [rs[n - 1]];
      FoldSnoc(map[], rs[..n - 1], rs[n - 1]);
      assert order[..n] == order[..n - 1] + [order[n - 1]];
      TakenSnoc(m, order[..n - 1], order[n - 1]);
    } else {
      assert rs[..0] == [] && order[..0] == [];
    }
  }

  /** A log rewritten from a map, in any order, replays to that map: compaction loses nothing. */
  lemma CompactionKeepsReplay(m: map<Key, Entry>, order: seq<Key>, torn: bytes)
    requires IsOrder(m, order) && AllFit(m) && |torn| < RECORD_SIZE
    ensures Replay(LogHeader() + PutRecords(RecordsOf(m, order)) + torn) == m
    ensures Fold(map[], RecordsOf(m, order)) == m && forall i | 0 <= i < |order| :: FitsRecord(RecordsOf(m, order)[i])
  {
    var rs := RecordsOf(m, order);
    FoldOfRecords(m, order, |order|);
    assert rs[..|order|] == rs && order[..|order|] == order;
    assert forall k | k in m :: k in order;
    forall i | 0 <= i < |order|
      ensures FitsRecord(rs[i])
    {
      assert order[i] in order && FitsEntry(m[order[i]]);
    }
    LogReadsBack(rs, torn);
    hide Replay, Fold, PutRecords, LogHeader;
  }

  lemma {:induction false} FoldFits(m: map<Key, Entry>, records: seq<Record>)
    requires AllFit(m) && forall i | 0 <= i < |records| :: FitsRecord(records[i])
    ensures AllFit(Fold(m, records))
    decreases |records|
  {
    if |records| > 0 {
      FoldFits(Replayed(m, records[0]), records[1..]);
    }
  }

  lemma ReplayOfLog(s: State, torn: bytes)
    requires Inv(s) && |torn| < RECORD_SIZE
    ensures var m := Replay(s.log + torn); AllFit(m) && SameSizes(m, s.logged)
  {
    hide Replay, Fold, PutRecords, LogHeader, Sum;
    LogReadsBack(s.records, torn);
    FoldFits(map[], s.records);
  }

  lemma CompactedOk(m: map<Key, Entry>, order: seq<Key>)
    requires IsOrder(m, order) && AllFit(m)
    ensures LogInv(LogHeader() + PutRecords(RecordsOf(m, order)), RecordsOf(m, order)) && Agrees(RecordsOf(m, order), m)
  {
    hide Fold, PutRecords, LogHeader;
    CompactionKeepsReplay(m, order, []);
  }

  lemma ReopenKeeps(s: State, torn: bytes, order: seq<Key>)
    requires Inv(s) && |torn| < RECORD_SIZE && IsOrder(Replay(s.log + torn), order)
    ensures Inv(Reopened(s, torn, order)) && SameSizes(Reopened(s, torn, order).index, s.logged)
  {
    hide Replay, PutRecords, LogHeader, Sum, LogInv, Agrees, RecordsOf;
    ReplayOfLog(s, torn);
    CompactedOk(Replay(s.log + torn), order);
  }

  // ----- Runs -----

  datatype Step =
    | DoCommit(key: Key, bodyBytes: nat, now: int)
    | DoTouch(key: Key, now: int)
    | DoFlush(key: Key)
    | DoDrop(key: Key, now: int)
    | DoRefresh(key: Key, now: int)
    | DoLoseFile(key: Key)
    | DoResize(key: Key, size: nat)
    | DoScan(found: map<Key, Entry>, dead: seq<Key>, now: int)
    | DoEvict(order: seq<Key>, now: int)
    | DoClear
    | DoReopen(torn: bytes, order: seq<Key>)

  /** Times and sizes are machine words. */
  predicate FitsStep(step: Step) {
    match step
    case DoCommit(_, bodyBytes, now) => FitsEntry(Entry(bodyBytes, now))
    case DoTouch(_, now) => FitsI64(now)
    case DoDrop(_, now) => FitsI64(now)
    case DoRefresh(_, now) => FitsI64(now)
    case DoResize(_, size) => size < SIGN64
    case DoScan(found, _, now) => AllFit(found) && FitsI64(now)
    case DoEvict(_, now) => FitsI64(now)
    case _ => true
  }

  /** Steps that are not enabled change nothing. */
  ghost function Apply(s: State, step: Step, maxSizeBytes: int): State {
    match step
    case DoCommit(key, bodyBytes, now) => Commit(s, key, bodyBytes, now)
    case DoTouch(key, now) => Touch(s, key, now)
    case DoFlush(key) => FlushTouched(s, key)
    case DoDrop(key, now) => Drop(s, key, now)
    case DoRefresh(key, now) => Refresh(s, key, now)
    case DoLoseFile(key) => LoseFile(s, key)
    case DoResize(key, size) => Resize(s, key, size)
    case DoScan(found, dead, now) => Scan(s, found, dead, now)
    case DoEvict(order, now) => if IsAgeOrder(s.index, order) then Evict(s, maxSizeBytes, order, now) else s
    case DoClear => Cleared()
    case DoReopen(torn, order) =>
      if |torn| < RECORD_SIZE && IsOrder(Replay(s.log + torn), order) then Reopened(s, torn, order) else s
  }

  ghost function Run(steps: seq<Step>, maxSizeBytes: int): State {
    if |steps| == 0 then Cleared() else Apply(Run(steps[..|steps| - 1], maxSizeBytes), steps[|steps| - 1], maxSizeBytes)
  }

  lemma StepKeepsInv(s: State, step: Step, maxSizeBytes: int)
    requires Inv(s) && FitsStep(step)
    ensures Inv(Apply(s, step, maxSizeBytes))
  {
    hide Inv, Commit, Touch, FlushTouched, Drop, Refresh, LoseFile, Resize, Scan, Evict, Reopened, Cleared, Replay;
    match step {
      case DoCommit(key, bodyBytes, now) => CommitKeeps(s, key, bodyBytes, now);
      case DoTouch(key, now) => TouchKeeps(s, key, now);
      case DoFlush(key) => FlushKeeps(s, key);
      case DoDrop(key, now) => DropKeeps(s, key, now);
      case DoRefresh(key, now) => RefreshKeeps(s, key, now);
      case DoLoseFile(key) => FlushKeeps(s, key);
      case DoResize(key, size) => ResizeKeeps(s, key, size);
      case DoScan(found, dead, now) => ScanKeeps(s, found, dead, now);
      case DoEvict(order, now) =>
        if IsAgeOrder(s.index, order) {
          EvictKeeps(s, maxSizeBytes, order, now);
        }
      case DoClear => ClearKeeps();
      case DoReopen(torn, order) =>
        if |torn| < RECORD_SIZE && IsOrder(Replay(s.log + torn), order) {
          ReopenKeeps(s, torn, order);
        }
    }
  }

  lemma {:induction false} RunKeepsInv(steps: seq<Step>, maxSizeBytes: int)
    requires forall i | 0 <= i < |steps| :: FitsStep(steps[i])
    ensures Inv(Run(steps, maxSizeBytes))
  {
    hide Inv, Apply, FitsStep;
    if |steps| == 0 {
      ClearKeeps();
    } else {
      RunKeepsInv(steps[..|steps| - 1], maxSizeBytes);
      StepKeepsInv(Run(steps[..|steps| - 1], maxSizeBytes), steps[|steps| - 1], maxSizeBytes);
    }
  }

  // ----- The main results -----

  /** No scan of the run corrects a size to another than was logged. */
  ghost predicate ScansAgree(steps: seq<Step>, maxSizeBytes: int) {
    forall i | 0 <= i < |steps| :: ScanAgrees(Run(steps[..i], maxSizeBytes), steps[i])
  }

  predicate ScanAgrees(s: State, step: Step) {
    step.DoScan? ==> FoundAsLogged(s, step.found, step.dead)
  }

  /** Nothing but a scan makes the sizes of the index differ from those of the log. */
  lemma SizesStayLogged(s: State, step: Step, maxSizeBytes: int)
    requires Inv(s) && FitsStep(step) && SizesLogged(s) && ScanAgrees(s, step)
    ensures SizesLogged(Apply(s, step, maxSizeBytes))
  {
    hide LogInv, Agrees, Sum, PutRecord, PutRecords, Replay, Victims;
    match step {
      case DoScan(found, dead, now) => ScanDecides(s, found, dead, now);
      case DoEvict(order, now) => EvictedSizes(s, order, now, maxSizeBytes);
      case _ => OtherSizes(s, step, maxSizeBytes);
    }
  }

  lemma EvictedSizes(s: State, order: seq<Key>, now: int, maxSizeBytes: int)
    requires SizesLogged(s)
    ensures SizesLogged(Evict(s, maxSizeBytes, order, now))
  {
    hide PutRecords, Victims, SumOf;
  }

  lemma OtherSizes(s: State, step: Step, maxSizeBytes: int)
    requires Inv(s) && FitsStep(step) && SizesLogged(s) && !step.DoScan? && !step.DoEvict?
    ensures SizesLogged(Apply(s, step, maxSizeBytes))
  {
    hide LogInv, Agrees, Sum, PutRecord, PutRecords, Replay, AllFit;
  }

  lemma {:induction false} SizesLoggedUntilCorrected(steps: seq<Step>, maxSizeBytes: int)
    requires ScansAgree(steps, maxSizeBytes) && forall i | 0 <= i < |steps| :: FitsStep(steps[i])
    ensures SizesLogged(Run(steps, maxSizeBytes))
  {
    if |steps| > 0 {
      var n := |steps| - 1;
      AgreedBefore(steps, maxSizeBytes);
      hide ScanAgrees, ScansAgree, Apply, SizesLogged, FitsStep;
      SizesLoggedUntilCorrected(steps[..n], maxSizeBytes);
      RunKeepsInv(steps[..n], maxSizeBytes);
      SizesStayLogged(Run(steps[..n], maxSizeBytes), steps[n], maxSizeBytes);
    }
  }

  lemma AgreedBefore(steps: seq<Step>, maxSizeBytes: int)
    requires ScansAgree(steps, maxSizeBytes) && |steps| > 0
    ensures ScansAgree(steps[..|steps| - 1], maxSizeBytes)
    ensures ScanAgrees(Run(steps[..|steps| - 1], maxSizeBytes), steps[|steps| - 1])
  {
    hide ScanAgrees, Run;
    var before := steps[..|steps| - 1];
    assert forall i | 0 <= i < |before| :: before[..i] == steps[..i] && before[i] == steps[i];
  }

  /** After any operations, whatever is torn off the end of the log: replaying it gives the keys of the index,
      and the size accounted is the sum of the sizes in the index. Unless a scan has found a body file at
      another size, the replay gives their sizes too. */
  lemma ReplayIsIndex(steps: seq<Step>, maxSizeBytes: int, torn: bytes)
    requires |torn| < RECORD_SIZE && forall i | 0 <= i < |steps| :: FitsStep(steps[i])
    ensures var s := Run(steps, maxSizeBytes);
      && Replay(s.log + torn).Keys == s.index.Keys && s.sizeBytes == Sum(s.index) && s.sizeBytes >= 0
      && (ScansAgree(steps, maxSizeBytes) ==> SameSizes(Replay(s.log + torn), s.index))
  {
    var s := Run(steps, maxSizeBytes);
    RunKeepsInv(steps, maxSizeBytes);
    ReplayOfLog(s, torn);
    FitIsNatural(s.index);
    if ScansAgree(steps, maxSizeBytes) {
      SizesLoggedUntilCorrected(steps, maxSizeBytes);
    }
    hide Run, Replay, Fold, Sum, ScansAgree;
  }

  /** A scan corrects the index and not the log: replayed after it, the log gives the sizes of the index exactly
      if every body file had the size that the log gave before it. */
  lemma ScanThenReplay(steps: seq<Step>, dead: seq<Key>, now: int, maxSizeBytes: int, torn: bytes)
    requires |torn| < RECORD_SIZE && FitsI64(now) && forall i | 0 <= i < |steps| :: FitsStep(steps[i])
    requires IsDead(Run(steps, maxSizeBytes), dead)
    ensures var s := Run(steps, maxSizeBytes);
      var t := Run(steps + [DoScan(Found(s), dead, now)], maxSizeBytes);
      t.index == Found(s) && (SameSizes(Replay(t.log + torn), t.index) <==> BodiesAre(s, Replay(s.log)))
  {
    var s := Run(steps, maxSizeBytes);
    hide Run, Replay, Inv, Scan, IsDead, BodiesAre, SameSizes, Found, AllFit;
    RunThen(steps, DoScan(Found(s), dead, now), maxSizeBytes);
    RunKeepsInv(steps, maxSizeBytes);
    WholeScan(s, dead, now);
    var t := Scan(s, Found(s), dead, now);
    ScanKeeps(s, Found(s), dead, now);
    ReplayOfLog(t, torn);
    ReplayOfLog(s, []);
    NilRight(s.log);
    SameBodies(s, Replay(s.log));
    SameAs(Replay(t.log + torn), t);
  }

  /** An entry committed while a scan was reading the disk is thrown away again if and only if the scan had
      found its key without files. */
  lemma ScanReapsFresh(steps: seq<Step>, key: Key, bodyBytes: nat, found: map<Key, Entry>, dead: seq<Key>, now: int, max: int)
    ensures key in Run(steps + [DoCommit(key, bodyBytes, now)] + [DoScan(found, dead, now)], max).index <==> key !in dead
  {
    RunThen(steps, DoCommit(key, bodyBytes, now), max);
    RunThen(steps + [DoCommit(key, bodyBytes, now)], DoScan(found, dead, now), max);
    hide Run, Corrected, PutRecords, Sum, PutRecord;
  }

  lemma SameBodies(s: State, m: map<Key, Entry>)
    requires SameSizes(m, s.logged)
    ensures BodiesAre(s, m) <==> BodiesAre(s, s.logged)
  {
    assert forall k | k in m :: m[k].bodyBytes == s.logged[k].bodyBytes;
  }

  lemma SameAs(m: map<Key, Entry>, s: State)
    requires SameSizes(m, s.logged)
    ensures SameSizes(m, s.index) <==> SizesLogged(s)
  {
  }

  /** The correction a scan makes is in memory only: a log replayed after it still has the size before. */
  lemma CorrectionIsNotLogged(key: Key, committed: nat, actual: nat, now: int, max: int)
    requires FitsEntry(Entry(committed, now)) && actual < SIGN64 && actual != committed
    ensures var s := Run([DoCommit(key, committed, now), DoResize(key, actual), DoScan(map[key := Entry(actual, now)], [], now)], max);
      && Found(Run([DoCommit(key, committed, now), DoResize(key, actual)], max)) == map[key := Entry(actual, now)]
      && s.index == map[key := Entry(actual, now)] && s.sizeBytes == actual
      && key in Replay(s.log) && Replay(s.log)[key].bodyBytes == committed
  {
    var steps := [DoCommit(key, committed, now), DoResize(key, actual), DoScan(map[key := Entry(actual, now)], [], now)];
    assert forall i | 0 <= i < |steps| :: FitsStep(steps[i]);
    hide *;
    CorrectedRun(key, committed, actual, now, max);
    RunKeepsInv(steps, max);
    var s := Run(steps, max);
    IndexedSum(s);
    SumOfOne(key, Entry(actual, now));
    ReplayOfLog(s, []);
    NilRight(s.log);
    SizeOfOne(Replay(s.log), s.logged, key, Entry(committed, now));
  }

  lemma SizeOfOne(m: map<Key, Entry>, n: map<Key, Entry>, key: Key, e: Entry)
    requires SameSizes(m, n) && n == map[key := e]
    ensures key in m && m[key].bodyBytes == e.bodyBytes
  {
  }

  lemma CorrectedRun(key: Key, committed: nat, actual: nat, now: int, max: int)
    ensures var s := Run([DoCommit(key, committed, now), DoResize(key, actual), DoScan(map[key := Entry(actual, now)], [], now)], max);
      s.index == map[key := Entry(actual, now)] && s.logged == map[key := Entry(committed, now)]
    ensures Found(Run([DoCommit(key, committed, now), DoResize(key, actual)], max)) == map[key := Entry(actual, now)]
  {
    var a := [DoCommit(key, committed, now)];
    var b := a + [DoResize(key, actual)];
    var c := b + [DoScan(map[key := Entry(actual, now)], [], now)];
    hide Run, Scan, Resize, Commit, Cleared, OneEntry, Found;
    assert Run(a, max) == Commit(Cleared(), key, committed, now) by {
      RunThen([], a[0], max);
      assert [] + [a[0]] == a;
      NoSteps(max);
    }
    RunThen(a, b[1], max);
    CommittedThenResized(key, committed, actual, now);
    RunThen(b, c[2], max);
    CorrectedOne(Run(b, max), key, committed, actual, now);
    assert b == [DoCommit(key, committed, now), DoResize(key, actual)];
    assert c == [DoCommit(key, committed, now), DoResize(key, actual), DoScan(map[key := Entry(actual, now)], [], now)];
  }

  lemma NoSteps(maxSizeBytes: int)
    ensures Run([], maxSizeBytes) == Cleared()
  {
  }

  predicate OneEntry(s: State, key: Key, indexed: nat, logged: nat, actual: nat, now: int) {
    && s.index == map[key := Entry(indexed, now)] && s.logged == map[key := Entry(logged, now)]
    && s.files == map[key := Entry(logged, now)] && s.actual == map[key := actual]
  }

  lemma CommittedThenResized(key: Key, committed: nat, actual: nat, now: int)
    ensures OneEntry(Resize(Commit(Cleared(), key, committed, now), key, actual), key, committed, committed, actual, now)
  {
    hide PutRecord, LogHeader;
  }

  lemma CorrectedOne(s: State, key: Key, committed: nat, actual: nat, now: int)
    requires OneEntry(s, key, committed, committed, actual, now)
    ensures Found(s) == map[key := Entry(actual, now)]
    ensures var t := Scan(s, map[key := Entry(actual, now)], [], now);
      t.index == map[key := Entry(actual, now)] && t.logged == map[key := Entry(committed, now)]
  {
    hide PutRecords, Sum;
  }

  lemma IndexedSum(s: State)
    requires Inv(s)
    ensures s.sizeBytes == Sum(s.index)
  {
  }

  lemma SumOfOne(key: Key, e: Entry)
    ensures Sum(map[key := e]) == e.bodyBytes
  {
    SumWithout(map[key := e], key);
    assert Without(map[key := e], key) == map[];
    assert Sum(map[]) == 0;
  }

  lemma RunThen(steps: seq<Step>, step: Step, maxSizeBytes: int)
    ensures Run(steps + [step], maxSizeBytes) == Apply(Run(steps, maxSizeBytes), step, maxSizeBytes)
  {
    assert (steps + [step])[..|steps|] == steps;
  }

  lemma {:induction false} VictimsStop(m: map<Key, Entry>, size: int, target: int, order: seq<Key>)
    ensures var n := Victims(m, size, target, order);
      && (n < |order| ==> size - SumOf(m, order[..n]) <= target)
      && (n > 0 ==> size - SumOf(m, order[..n - 1]) > target)
    decreases |order|
  {
    if |order| > 0 && size > target {
      var n := Victims(m, size, target, order);
      VictimsStop(m, size - SizeAt(m, order[0]), target, order[1..]);
      assert order[..n][1..] == order[1..][..n - 1];
      if n > 1 {
        assert order[..n - 1][1..] == order[1..][..n - 2];
      }
    }
  }

  /** Nobody in `gone` was used later than anybody else. */
  predicate OldestFirst(m: map<Key, Entry>, gone: seq<Key>)
  {
    forall v, k | v in gone && v in m && k in m && k !in gone :: m[v].lastAccessMs <= m[k].lastAccessMs
  }

  lemma VictimsOf(order: seq<Key>, n: nat, m: map<Key, Entry>, gone: seq<Key>)
    requires IsAgeOrder(m, order) && n <= |order| && gone == order[..n]
    ensures OldestFirst(m, gone)
  {
    forall v, k | v in gone && v in m && k in m && k !in gone
      ensures m[v].lastAccessMs <= m[k].lastAccessMs
    {
      var i :| 0 <= i < n && order[i] == v;
      assert k in order;
      var j :| 0 <= j < |order| && order[j] == k;
      assert forall l | 0 <= l < n :: order[l] in gone;
    }
  }

  /** Over the cap, eviction ends at or below 90 % of it; nobody evicted was used later than anybody kept; and
      with one victim fewer it would still have been above. Within the cap nothing is evicted. */
  lemma EvictsOldestAndNoMore(s: State, maxSizeBytes: int, order: seq<Key>, now: int) returns (gone: seq<Key>)
    requires Inv(s) && FitsI64(now) && IsAgeOrder(s.index, order) && maxSizeBytes > 0
    ensures s.sizeBytes <= maxSizeBytes ==> Evict(s, maxSizeBytes, order, now) == s
    ensures s.sizeBytes > maxSizeBytes ==>
      var t := Evict(s, maxSizeBytes, order, now);
      && (forall k | k in gone :: k in s.index) && t.index == WithoutAll(s.index, gone)
      && 10 * t.sizeBytes <= 9 * maxSizeBytes
      && OldestFirst(s.index, gone)
      && |gone| > 0 && s.sizeBytes - SumOf(s.index, gone[..|gone| - 1]) > maxSizeBytes / 10 * 9
  {
    gone := [];
    if s.sizeBytes > maxSizeBytes {
      TargetIsBelow(maxSizeBytes);
      hide *;
      OrderOfAge(s.index, order);
      gone := EvictIs(s, maxSizeBytes, order, now);
      EnoughAndNoMore(s, EvictionTarget(maxSizeBytes), order, now, gone);
      VictimsOf(order, |gone|, s.index, gone);
      EvictedKeeps(s, gone, now);
      EvictedIndex(s, gone, now);
    }
  }

  lemma TargetIsBelow(maxSizeBytes: int)
    requires maxSizeBytes > 0
    ensures maxSizeBytes > EvictionTarget(maxSizeBytes) >= 0 && EvictionTarget(maxSizeBytes) == maxSizeBytes / 10 * 9
    ensures forall n: int | n <= EvictionTarget(maxSizeBytes) :: 10 * n <= 9 * maxSizeBytes
  {
  }

  lemma EvictedIndex(s: State, gone: seq<Key>, now: int)
    ensures Evicted(s, gone, now).index == WithoutAll(s.index, gone)
  {
  }

  lemma OrderOfAge(m: map<Key, Entry>, order: seq<Key>)
    requires IsAgeOrder(m, order)
    ensures IsOrder(m, order)
  {
  }

  lemma EnoughAndNoMore(s: State, target: int, order: seq<Key>, now: int, gone: seq<Key>)
    requires Inv(s) && IsOrder(s.index, order) && s.sizeBytes > target >= 0
    requires gone == order[..Victims(s.index, s.sizeBytes, target, order)]
    ensures forall k | k in gone :: k in s.index
    ensures 0 < |gone| <= |order| && gone == order[..|gone|] && s.sizeBytes - SumOf(s.index, gone) <= target
    ensures s.sizeBytes - SumOf(s.index, gone[..|gone| - 1]) > target
  {
    hide Inv, SumOf, Victims;
    assert forall k | k in gone :: k in order;
    VictimsStop(s.index, s.sizeBytes, target, order);
    if |gone| == |order| {
      assert gone == order;
      NobodyLeft(s, order, now);
    }
    if |gone| > 0 {
      assert gone[..|gone| - 1] == order[..|gone| - 1];
    } else {
      SumOfNone(s.index, gone);
    }
  }

  lemma SumOfNone(m: map<Key, Entry>, keys: seq<Key>)
    requires |keys| == 0
    ensures SumOf(m, keys) == 0
  {
  }

  lemma NobodyLeft(s: State, gone: seq<Key>, now: int)
    requires Inv(s) && (forall k | k in gone :: k in s.index) && forall k | k in s.index :: k in gone
    requires forall i, j | 0 <= i < j < |gone| :: gone[i] != gone[j]
    ensures s.sizeBytes - SumOf(s.index, gone) == 0 && (|gone| == 0 ==> s.sizeBytes == 0)
  {
    SumWithoutAll(s.index, gone);
    assert WithoutAll(s.index, gone) == map[];
    assert Sum(map[]) == 0;
    hide Sum, Agrees, LogInv;
  }
}
