/** Payloads Dart reads in place: held by an arena while the transfer lives, by a process-wide registry
    after it, and freed once, when Dart has copied them or has stopped reading. */
module Payloads {

  const MAX_BYTES := 33554432
  const MAX_BUCKETS := 256

  datatype Key = Key(socket: bool, id: int)

  datatype Entry = Entry(seq_: nat, size: nat)

  datatype Bucket = Bucket(entries: seq<Entry>, bytes: int, generation: nat)

  datatype Registry = Registry(buckets: map<Key, Bucket>, totalBytes: int, nextGeneration: nat)

  const NOTHING := Registry(map[], 0, 1)

  function Size(entries: seq<Entry>): nat {
    if |entries| == 0 then 0 else entries[0].size + Size(entries[1..])
  }

  lemma {:induction false} SizeAppend(a: seq<Entry>, b: seq<Entry>)
    ensures Size(a + b) == Size(a) + Size(b)
  {
    if |a| == 0 {
      assert a + b == b;
    } else {
      assert (a + b)[1..] == a[1..] + b;
      SizeAppend(a[1..], b);
    }
  }

  /** How many an acknowledgement of everything below `acked` releases from the front. */
  function Due(entries: seq<Entry>, acked: int): (n: nat)
    ensures n <= |entries|
  {
    if |entries| == 0 || entries[0].seq_ >= acked then 0 else 1 + Due(entries[1..], acked)
  }

  lemma {:induction false} DueExactly(entries: seq<Entry>, acked: int)
    ensures forall i | 0 <= i < Due(entries, acked) :: entries[i].seq_ < acked
    ensures Due(entries, acked) < |entries| ==> entries[Due(entries, acked)].seq_ >= acked
  {
    if |entries| > 0 && entries[0].seq_ < acked {
      DueExactly(entries[1..], acked);
      forall i | 0 < i < Due(entries, acked)
        ensures entries[i].seq_ < acked
      {
        assert entries[i] == entries[1..][i - 1];
      }
    }
  }

  // ----- The registry -----

  function Without(buckets: map<Key, Bucket>, key: Key): map<Key, Bucket> {
    buckets - {key}
  }

  /** The sum of all bucket sizes. */
  ghost function Total(buckets: map<Key, Bucket>): int
    decreases |buckets|
  {
    if |buckets| == 0 then 0 else
    SomeKey(buckets);
    var key :| key in buckets;
    Smaller(buckets, key);
    buckets[key].bytes + Total(Without(buckets, key))
  }

  lemma SomeKey(buckets: map<Key, Bucket>)
    ensures |buckets| == 0 || exists key :: key in buckets
  {
    if forall key :: key !in buckets {
      assert buckets == map[];
    }
  }

  lemma Smaller(buckets: map<Key, Bucket>, key: Key)
    requires key in buckets
    ensures |Without(buckets, key)| == |buckets| - 1
  {
    assert Without(buckets, key).Keys == buckets.Keys - {key};
  }

  lemma {:induction false} TotalWithout(buckets: map<Key, Bucket>, key: Key)
    requires key in buckets
    ensures Total(buckets) == buckets[key].bytes + Total(Without(buckets, key))
    decreases |buckets|
  {
    var first := TotalUnfolds(buckets);
    hide Total;
    if first != key {
      Smaller(buckets, first);
      Smaller(buckets, key);
      TotalWithoutBoth(buckets, key, first);
      TotalWithout(Without(buckets, first), key);
      TotalWithout(Without(buckets, key), first);
    }
  }

  lemma TotalUnfolds(buckets: map<Key, Bucket>) returns (first: Key)
    requires |buckets| > 0
    ensures first in buckets && Total(buckets) == buckets[first].bytes + Total(Without(buckets, first))
  {
    SomeKey(buckets);
    first :| first in buckets && Total(buckets) == buckets[first].bytes + Total(Without(buckets, first));
  }

  lemma TotalWithoutBoth(buckets: map<Key, Bucket>, a: Key, b: Key)
    ensures Without(Without(buckets, a), b) == Without(Without(buckets, b), a)
  {
  }

  predicate OverCaps(r: Registry) {
    r.totalBytes > MAX_BYTES || |r.buckets| > MAX_BUCKETS
  }

  predicate IsOldest(buckets: map<Key, Bucket>, key: Key) {
    key in buckets && forall k | k in buckets :: buckets[key].generation <= buckets[k].generation
  }

  /** Every bucket has its own generation, and the sizes are what they say. */
  ghost predicate RegistryOk(r: Registry) {
    && r.totalBytes == Total(r.buckets) && r.nextGeneration > 0
    && (forall k | k in r.buckets ::
          0 < r.buckets[k].generation < r.nextGeneration && r.buckets[k].bytes == Size(r.buckets[k].entries))
    && (forall j, k | j in r.buckets && k in r.buckets && r.buckets[j].generation == r.buckets[k].generation :: j == k)
  }

  lemma {:induction false} OldestExists(buckets: map<Key, Bucket>)
    requires |buckets| > 0
    ensures exists key :: IsOldest(buckets, key)
    decreases |buckets|
  {
    SomeKey(buckets);
    var key :| key in buckets;
    Smaller(buckets, key);
    if |buckets| == 1 {
      assert |Without(buckets, key)| == 0;
      assert forall k | k in buckets :: k == key || k in Without(buckets, key);
      assert IsOldest(buckets, key);
    } else {
      OldestExists(Without(buckets, key));
      var other :| IsOldest(Without(buckets, key), other);
      assert forall k | k in buckets :: k == key || k in Without(buckets, key);
      if buckets[key].generation <= buckets[other].generation {
        assert IsOldest(buckets, key);
      } else {
        assert IsOldest(buckets, other);
      }
    }
  }

  function Evict1(r: Registry, key: Key): Registry
    requires key in r.buckets
  {
    r.(buckets := Without(r.buckets, key), totalBytes := r.totalBytes - r.buckets[key].bytes)
  }

  /** `collectEvictions`: oldest first until both caps hold. */
  ghost function Evicted(r: Registry): Registry
    decreases |r.buckets|
  {
    if !OverCaps(r) || |r.buckets| == 0 then r else
    OldestExists(r.buckets);
    var key :| IsOldest(r.buckets, key);
    Smaller(r.buckets, key);
    Evicted(Evict1(r, key))
  }

  lemma Evict1Ok(r: Registry, key: Key)
    requires RegistryOk(r) && key in r.buckets
    ensures RegistryOk(Evict1(r, key))
  {
    TotalWithout(r.buckets, key);
  }

  /** Whoever is still held is younger than whoever has gone. */
  predicate YoungestKept(r: Registry, t: Registry) {
    && (forall k | k in t.buckets :: k in r.buckets && t.buckets[k] == r.buckets[k])
    && (forall gone, k | gone in r.buckets && gone !in t.buckets && k in t.buckets ::
          r.buckets[gone].generation < r.buckets[k].generation)
  }

  /** The entries of some buckets, in the order given. */
  function EntriesOf(buckets: map<Key, Bucket>, keys: seq<Key>): seq<Entry> {
    if |keys| == 0 then [] else
    var last := keys[|keys| - 1];
    EntriesOf(buckets, keys[..|keys| - 1]) + if last in buckets then buckets[last].entries else []
  }

  /** `gone` are the buckets that `t` has no more, each once. */
  predicate IsGone(r: Registry, t: Registry, gone: seq<Key>) {
    && (forall i, j | 0 <= i < j < |gone| :: gone[i] != gone[j])
    && (forall k | k in gone :: k in r.buckets && k !in t.buckets)
    && (forall k | k in r.buckets :: k in t.buckets || k in gone)
  }

  /** They went in the order in which they had come. */
  predicate InOrderOfAge(r: Registry, gone: seq<Key>) {
    && (forall k | k in gone :: k in r.buckets)
    && forall i, j | 0 <= i < j < |gone| :: r.buckets[gone[i]].generation < r.buckets[gone[j]].generation
  }

  lemma GoneOn(r: Registry, u: Registry, gone: seq<Key>, key: Key)
    requires YoungestKept(r, u) && IsGone(r, u, gone) && InOrderOfAge(r, gone) && IsOldest(u.buckets, key)
    requires RegistryOk(u)
    ensures var t := Evict1(u, key);
      YoungestKept(r, t) && IsGone(r, t, gone + [key]) && InOrderOfAge(r, gone + [key])
    ensures EntriesOf(r.buckets, gone + [key]) == EntriesOf(r.buckets, gone) + u.buckets[key].entries
  {
    hide RegistryOk, EntriesOf, Total, Size, IsGone, InOrderOfAge;
    Evict1Youngest(u, key);
    YoungestTrans(r, u, Evict1(u, key));
    GoneInOrder(r, u, gone, key);
    GoneOnce(r, u, gone, key);
    GoneEntries(r, u, gone, key);
  }

  lemma GoneOnce(r: Registry, u: Registry, gone: seq<Key>, key: Key)
    requires YoungestKept(r, u) && IsGone(r, u, gone) && key in u.buckets
    ensures IsGone(r, Evict1(u, key), gone + [key])
  {
  }

  lemma GoneInOrder(r: Registry, u: Registry, gone: seq<Key>, key: Key)
    requires YoungestKept(r, u) && IsGone(r, u, gone) && InOrderOfAge(r, gone) && key in u.buckets
    ensures InOrderOfAge(r, gone + [key])
  {
  }

  lemma GoneEntries(r: Registry, u: Registry, gone: seq<Key>, key: Key)
    requires YoungestKept(r, u) && key in u.buckets
    ensures EntriesOf(r.buckets, gone + [key]) == EntriesOf(r.buckets, gone) + u.buckets[key].entries
  {
    assert (gone + [key])[..|gone|] == gone;
  }

  /** With the youngest of those evicted put back, a cap would still be exceeded. */
  ghost predicate NoMoreThanNeeded(r: Registry, t: Registry) {
    exists last: Registry, key :: LastEviction(r, last, key, t)
  }

  ghost predicate LastEviction(r: Registry, last: Registry, key: Key, t: Registry) {
    OverCaps(last) && IsOldest(last.buckets, key) && t == Evict1(last, key) && YoungestKept(r, last)
  }

  lemma Evict1Youngest(r: Registry, key: Key)
    requires RegistryOk(r) && IsOldest(r.buckets, key)
    ensures YoungestKept(r, Evict1(r, key))
  {
    hide Total, Size;
  }

  lemma YoungestTrans(r: Registry, u: Registry, t: Registry)
    requires YoungestKept(r, u) && YoungestKept(u, t)
    ensures YoungestKept(r, t)
  {
  }

  lemma EvictedMeans(r: Registry) returns (key: Key)
    requires OverCaps(r) && |r.buckets| > 0
    ensures IsOldest(r.buckets, key) && Evicted(r) == Evicted(Evict1(r, key)) && |Evict1(r, key).buckets| < |r.buckets|
  {
    OldestExists(r.buckets);
    key :| IsOldest(r.buckets, key) && Evicted(r) == Evicted(Evict1(r, key));
    Smaller(r.buckets, key);
  }

  /** Evictions end within both caps, take the oldest, and take no more than they must. */
  lemma {:induction false} EvictedOk(r: Registry)
    requires RegistryOk(r)
    ensures var t := Evicted(r);
      && RegistryOk(t) && !OverCaps(t) && YoungestKept(r, t) && t.nextGeneration == r.nextGeneration
      && (OverCaps(r) ==> NoMoreThanNeeded(r, t)) && (!OverCaps(r) ==> t == r)
    decreases |r.buckets|
  {
    if OverCaps(r) {
      OverIsNotEmpty(r);
      var key := EvictedMeans(r);
      hide Evicted, RegistryOk, YoungestKept, OverCaps;
      var u := Evict1(r, key);
      Evict1Ok(r, key);
      Evict1Youngest(r, key);
      EvictedOk(u);
      YoungestTrans(r, u, Evicted(u));
      YoungestSelf(r);
      if OverCaps(u) {
        var last, k :| LastEviction(u, last, k, Evicted(u));
        YoungestTrans(r, u, last);
        assert LastEviction(r, last, k, Evicted(r));
      } else {
        assert LastEviction(r, r, key, Evicted(r));
      }
    }
  }

  lemma OverIsNotEmpty(r: Registry)
    requires RegistryOk(r) && OverCaps(r)
    ensures |r.buckets| > 0
  {
  }

  lemma YoungestSelf(r: Registry)
    ensures YoungestKept(r, r)
  {
  }

  function BucketAt(r: Registry, key: Key): Bucket {
    if key in r.buckets then r.buckets[key] else Bucket([], 0, r.nextGeneration)
  }

  /** `adopt`, before the evictions: an existing bucket keeps its generation. */
  function Added(r: Registry, key: Key, taken: seq<Entry>): Registry {
    var b := BucketAt(r, key);
    Registry(r.buckets[key := Bucket(b.entries + taken, b.bytes + Size(taken), b.generation)],
             r.totalBytes + Size(taken), if key in r.buckets then r.nextGeneration else r.nextGeneration + 1)
  }

  ghost function Adopted(r: Registry, key: Key, taken: seq<Entry>): Registry {
    if |taken| == 0 then r else Evicted(Added(r, key, taken))
  }

  /** A bucket, with the first `n` of its entries gone, and the total with it; an empty one is erased. */
  function Shrunk(r: Registry, key: Key, n: nat): Registry
    requires key in r.buckets && n <= |r.buckets[key].entries|
  {
    var b := r.buckets[key];
    var freed := Size(b.entries[..n]);
    Registry(if n == |b.entries| then Without(r.buckets, key)
             else r.buckets[key := Bucket(b.entries[n..], b.bytes - freed, b.generation)],
             r.totalBytes - freed, r.nextGeneration)
  }

  function Acked(r: Registry, key: Key, acked: int): Registry {
    if key !in r.buckets then r else Shrunk(r, key, Due(r.buckets[key].entries, acked))
  }

  function ReleasedAll(r: Registry, key: Key): Registry {
    if key !in r.buckets then r else Evict1(r, key)
  }

  function Dropped(r: Registry): Registry {
    r.(buckets := map[], totalBytes := 0)
  }

  lemma SetTotal(buckets: map<Key, Bucket>, key: Key, b: Bucket)
    ensures Total(buckets[key := b]) == Total(buckets) - (if key in buckets then buckets[key].bytes else 0) + b.bytes
  {
    hide Total;
    var with := buckets[key := b];
    TotalWithout(with, key);
    if key in buckets {
      TotalWithout(buckets, key);
      assert Without(with, key) == Without(buckets, key);
    } else {
      assert Without(with, key) == buckets;
    }
  }

  /** A bucket that changes in place, with its accounts. */
  lemma ReplacedOk(r: Registry, key: Key, b: Bucket)
    requires RegistryOk(r) && key in r.buckets && b.generation == r.buckets[key].generation && b.bytes == Size(b.entries)
    ensures RegistryOk(r.(buckets := r.buckets[key := b], totalBytes := r.totalBytes - r.buckets[key].bytes + b.bytes))
    ensures |r.buckets[key := b]| == |r.buckets|
  {
    hide Total, Size;
    SetTotal(r.buckets, key, b);
    assert r.buckets[key := b].Keys == r.buckets.Keys;
  }

  lemma AddedOk(r: Registry, key: Key, taken: seq<Entry>)
    requires RegistryOk(r)
    ensures RegistryOk(Added(r, key, taken))
  {
    hide Total, Size;
    var b := BucketAt(r, key);
    SizeOfNone();
    SizeAppend(b.entries, taken);
    SetTotal(r.buckets, key, Added(r, key, taken).buckets[key]);
  }

  lemma SizeOfNone()
    ensures Size([]) == 0
  {
  }

  lemma SizeSplit(entries: seq<Entry>, n: nat)
    requires n <= |entries|
    ensures Size(entries) == Size(entries[..n]) + Size(entries[n..])
  {
    SizeAppend(entries[..n], entries[n..]);
    assert entries == entries[..n] + entries[n..];
  }

  lemma ShrunkOk(r: Registry, key: Key, n: nat)
    requires RegistryOk(r) && key in r.buckets && n <= |r.buckets[key].entries|
    ensures RegistryOk(Shrunk(r, key, n)) && Shrunk(r, key, n).totalBytes <= r.totalBytes
    ensures |Shrunk(r, key, n).buckets| <= |r.buckets|
  {
    var b := r.buckets[key];
    SizeSplit(b.entries, n);
    ShrunkIs(r, key, n);
    hide *;
    if n == |b.entries| {
      EmptiedOk(r, key, Size(b.entries[..n]));
    } else {
      ReplacedOk(r, key, Bucket(b.entries[n..], b.bytes - Size(b.entries[..n]), b.generation));
    }
  }

  lemma ShrunkIs(r: Registry, key: Key, n: nat)
    requires RegistryOk(r) && key in r.buckets && n <= |r.buckets[key].entries|
    ensures var b := r.buckets[key];
      var freed := Size(b.entries[..n]);
      && b.bytes == Size(b.entries) && freed >= 0 && (n == |b.entries| ==> b.entries[..n] == b.entries)
      && Shrunk(r, key, n) == if n == |b.entries| then Registry(Without(r.buckets, key), r.totalBytes - freed, r.nextGeneration)
      else
        var left := Bucket(b.entries[n..], b.bytes - freed, b.generation);
        r.(buckets := r.buckets[key := left], totalBytes := r.totalBytes - b.bytes + left.bytes)
  {
    hide Total, Size;
  }

  lemma EmptiedOk(r: Registry, key: Key, freed: nat)
    requires RegistryOk(r) && key in r.buckets && r.buckets[key].bytes == freed
    ensures RegistryOk(Registry(Without(r.buckets, key), r.totalBytes - freed, r.nextGeneration))
    ensures |Without(r.buckets, key)| <= |r.buckets|
  {
    hide RegistryOk, Total, Size;
    Smaller(r.buckets, key);
    Evict1Ok(r, key);
  }

  lemma AckedOk(r: Registry, key: Key, acked: int)
    requires RegistryOk(r)
    ensures RegistryOk(Acked(r, key, acked)) && (!OverCaps(r) ==> !OverCaps(Acked(r, key, acked)))
  {
    hide RegistryOk, Due, Shrunk;
    if key in r.buckets {
      ShrunkOk(r, key, Due(r.buckets[key].entries, acked));
    }
  }

  /** Adoption ends within both caps. */
  lemma AdoptedOk(r: Registry, key: Key, taken: seq<Entry>)
    requires RegistryOk(r) && !OverCaps(r)
    ensures RegistryOk(Adopted(r, key, taken)) && !OverCaps(Adopted(r, key, taken))
  {
    AddedOk(r, key, taken);
    EvictedOk(Added(r, key, taken));
  }

  lemma ReleasedOk(r: Registry, key: Key)
    requires RegistryOk(r) && !OverCaps(r)
    ensures RegistryOk(ReleasedAll(r, key)) && !OverCaps(ReleasedAll(r, key))
  {
    if key in r.buckets {
      Evict1Ok(r, key);
      Smaller(r.buckets, key);
    }
  }

  lemma DroppedOk(r: Registry)
    requires RegistryOk(r)
    ensures RegistryOk(Dropped(r)) && !OverCaps(Dropped(r))
  {
    assert Total(map[]) == 0;
  }
}
