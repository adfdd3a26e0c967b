/** The arena and the registry as objects: deques, maps and counters changed in place, proved against the
    functions of `Payloads`. */
module PayloadObjects {
  import opened Payloads

  class ChunkArena {
    var live: seq<Entry>
    var liveBytes: int

    ghost predicate Valid()
      reads this
    {
      liveBytes == Size(live)
    }

    constructor ()
      ensures Valid() && live == []
    {
      live, liveBytes := [], 0;
    }

    /** An empty payload owns nothing and is released at once. */
    method Track(seq_: nat, size: nat) returns (freed: seq<Entry>)
      requires Valid()
      modifies this
      ensures Valid()
      ensures if size == 0 then live == old(live) && freed == [Entry(seq_, 0)]
              else live == old(live) + [Entry(seq_, size)] && freed == []
    {
      if size == 0 {
        return [Entry(seq_, 0)];
      }
      SizeAppend(live, [Entry(seq_, size)]);
      live, liveBytes := live + [Entry(seq_, size)], liveBytes + size;
      return [];
    }

    /** Everything releasable is at the front; a repeated or stale ack frees nothing. */
    method Ack(acked: int) returns (freed: seq<Entry>)
      requires Valid()
      modifies this
      ensures Valid()
      ensures var n := Due(old(live), acked); freed == old(live)[..n] && live == old(live)[n..]
    {
      freed := [];
      while |live| > 0 && live[0].seq_ < acked
        invariant Valid() && freed + live == old(live)
        invariant Due(old(live), acked) == |freed| + Due(live, acked)
        decreases |live|
      {
        var entry := live[0];
        freed, live := freed + [entry], live[1..];
        liveBytes := liveBytes - entry.size;
      }
      assert old(live)[..|freed|] == freed && old(live)[|freed|..] == live;
    }

    /** What is left, for the registry. */
    method Drain() returns (taken: seq<Entry>)
      modifies this
      ensures Valid() && live == [] && taken == old(live)
    {
      taken := live;
      live, liveBytes := [], 0;
    }
  }

  class DeferredPayloads {
    var buckets: map<Key, Bucket>
    var totalBytes: int
    var nextGeneration: nat

    ghost function Contents(): Registry
      reads this
    {
      Registry(buckets, totalBytes, nextGeneration)
    }

    ghost predicate Valid()
      reads this
    {
      RegistryOk(Contents()) && !OverCaps(Contents())
    }

    constructor ()
      ensures Valid() && Contents() == NOTHING
    {
      buckets, totalBytes, nextGeneration := map[], 0, 1;
      assert Total(map[]) == 0;
    }

    /** The bucket adopted first, found by looking at all of them. */
    method Oldest() returns (oldest: Key)
      requires |buckets| > 0
      ensures IsOldest(buckets, oldest)
    {
      var left := buckets;
      SomeKey(left);
      oldest :| oldest in left;
      left := Without(left, oldest);
      Smaller(buckets, oldest);
      while |left| > 0
        invariant oldest in buckets && oldest !in left
        invariant forall k | k in left :: k in buckets && left[k] == buckets[k]
        invariant forall k | k in buckets && k !in left :: buckets[oldest].generation <= buckets[k].generation
        decreases |left|
      {
        SomeKey(left);
        var key :| key in left;
        Smaller(left, key);
        if left[key].generation < buckets[oldest].generation {
          oldest := key;
        }
        left := Without(left, key);
      }
      assert forall k | k in buckets :: k !in left;
    }

    /** `doomed` is everything the evicted buckets held, in the order of their eviction. */
    method CollectEvictions() returns (doomed: seq<Entry>, ghost gone: seq<Key>)
      requires RegistryOk(Contents())
      modifies `buckets, `totalBytes
      ensures Valid() && Contents() == Evicted(old(Contents()))
      ensures IsGone(old(Contents()), Contents(), gone) && InOrderOfAge(old(Contents()), gone)
      ensures doomed == EntriesOf(old(buckets), gone)
    {
      hide RegistryOk, Evicted, IsOldest, YoungestKept, IsGone, InOrderOfAge, EntriesOf, Total, Size, Added, NoMoreThanNeeded;
      ghost var r := Contents();
      doomed, gone := [], [];
      NothingGone(r);
      while totalBytes > MAX_BYTES || |buckets| > MAX_BUCKETS
        invariant RegistryOk(Contents()) && Evicted(Contents()) == Evicted(r)
        invariant YoungestKept(r, Contents()) && IsGone(r, Contents(), gone) && InOrderOfAge(r, gone)
        invariant doomed == EntriesOf(r.buckets, gone)
        decreases |buckets|
      {
        OverIsNotEmpty(Contents());
        var oldest := Oldest();
        EvictionStep(Contents(), oldest);
        GoneOn(r, Contents(), gone, oldest);
        OldestIsHeld(oldest);
        ghost var next := Evict1(Contents(), oldest);
        totalBytes := totalBytes - buckets[oldest].bytes;
        doomed, gone := doomed + buckets[oldest].entries, gone + [oldest];
        buckets := Without(buckets, oldest);
        assert Contents() == next;
      }
      EvictedOk(Contents());
    }

    lemma OldestIsHeld(key: Key)
      requires IsOldest(buckets, key)
      ensures key in buckets
    {
    }

    lemma NothingGone(r: Registry)
      ensures YoungestKept(r, r) && IsGone(r, r, []) && InOrderOfAge(r, []) && EntriesOf(r.buckets, []) == []
    {
    }

    /** Payloads join a bucket one by one. */
    method Join(b: Bucket, total: int, taken: seq<Entry>) returns (joined: Bucket, newTotal: int)
      ensures joined == Bucket(b.entries + taken, b.bytes + Size(taken), b.generation) && newTotal == total + Size(taken)
    {
      joined, newTotal := b, total;
      var i := 0;
      while i < |taken|
        invariant i <= |taken| && newTotal == total + Size(taken[..i])
        invariant joined == Bucket(b.entries + taken[..i], b.bytes + Size(taken[..i]), b.generation)
      {
        assert taken[..i + 1] == taken[..i] + [taken[i]];
        SizeAppend(taken[..i], [taken[i]]);
        joined := Bucket(joined.entries + [taken[i]], joined.bytes + taken[i].size, joined.generation);
        newTotal := newTotal + taken[i].size;
        i := i + 1;
      }
      assert taken[..|taken|] == taken;
    }

    /** `adopt`: ends within both caps. */
    method Adopt(key: Key, taken: seq<Entry>) returns (doomed: seq<Entry>, ghost gone: seq<Key>)
      requires Valid()
      modifies this
      ensures Valid() && Contents() == Adopted(old(Contents()), key, taken)
      ensures totalBytes <= 33554432 && |buckets| <= 256
      ensures |taken| == 0 ==> gone == [] && doomed == []
      ensures |taken| > 0 ==> var added := Added(old(Contents()), key, taken);
        IsGone(added, Contents(), gone) && InOrderOfAge(added, gone) && doomed == EntriesOf(added.buckets, gone)
    {
      hide RegistryOk, Evicted, Size, IsGone, InOrderOfAge, EntriesOf;
      if |taken| == 0 {
        return [], [];
      }
      AddedOk(Contents(), key, taken);
      var b := if key in buckets then buckets[key] else Bucket([], 0, nextGeneration);
      if key !in buckets {
        nextGeneration := nextGeneration + 1;
      }
      b, totalBytes := Join(b, totalBytes, taken);
      buckets := buckets[key := b];
      doomed, gone := CollectEvictions();
    }

    /** The front of a bucket, as far as it has been copied. */
    method TakeDue(b: Bucket, total: int, acked: int) returns (freed: seq<Entry>, left: Bucket, newTotal: int)
      ensures var n := Due(b.entries, acked);
        && freed == b.entries[..n] && newTotal == total - Size(freed)
        && left == Bucket(b.entries[n..], b.bytes - Size(freed), b.generation)
    {
      var n, bytes := 0, b.bytes;
      newTotal := total;
      while n < |b.entries| && b.entries[n].seq_ < acked
        invariant n <= |b.entries| && Due(b.entries, acked) == n + Due(b.entries[n..], acked)
        invariant bytes == b.bytes - Size(b.entries[..n]) && newTotal == total - Size(b.entries[..n])
      {
        DueNext(b.entries, n, acked);
        bytes, newTotal := bytes - b.entries[n].size, newTotal - b.entries[n].size;
        n := n + 1;
      }
      freed, left := b.entries[..n], Bucket(b.entries[n..], bytes, b.generation);
    }

    lemma DueNext(entries: seq<Entry>, n: nat, acked: int)
      requires n < |entries| && entries[n].seq_ < acked
      ensures Due(entries[n..], acked) == 1 + Due(entries[n + 1..], acked)
      ensures Size(entries[..n + 1]) == Size(entries[..n]) + entries[n].size
    {
      assert entries[n..][1..] == entries[n + 1..];
      assert entries[..n + 1] == entries[..n] + [entries[n]];
      SizeAppend(entries[..n], [entries[n]]);
    }

    /** Entries of a retired stream that Dart has copied. */
    method Ack(key: Key, acked: int) returns (freed: seq<Entry>)
      requires Valid()
      modifies this
      ensures Valid() && Contents() == Acked(old(Contents()), key, acked)
      ensures freed == if key !in old(buckets) then [] else
        var entries := old(buckets)[key].entries; entries[..Due(entries, acked)]
    {
      hide RegistryOk, Due, Size;
      if key !in buckets {
        return [];
      }
      AckedOk(Contents(), key, acked);
      var left;
      freed, left, totalBytes := TakeDue(buckets[key], totalBytes, acked);
      if |left.entries| == 0 {
        buckets := Without(buckets, key);
      } else {
        buckets := buckets[key := left];
      }
    }

    method ReleaseAll(key: Key) returns (freed: seq<Entry>)
      requires Valid()
      modifies this
      ensures Valid() && Contents() == ReleasedAll(old(Contents()), key)
      ensures freed == if key in old(buckets) then old(buckets)[key].entries else []
    {
      if key !in buckets {
        return [];
      }
      ReleasedOk(Contents(), key);
      totalBytes := totalBytes - buckets[key].bytes;
      freed := buckets[key].entries;
      buckets := Without(buckets, key);
    }

    /** Every bucket goes, in whatever order the map yields them. */
    method DropEverything() returns (doomed: seq<Entry>, ghost gone: seq<Key>)
      requires Valid()
      modifies this
      ensures Valid() && Contents() == Dropped(old(Contents()))
      ensures IsGone(old(Contents()), Contents(), gone) && doomed == EntriesOf(old(buckets), gone)
    {
      hide RegistryOk, EntriesOf;
      ghost var r := Contents();
      DroppedOk(r);
      var left := buckets;
      doomed, gone := [], [];
      NothingGone(r);
      while |left| > 0
        invariant IsGone(r, r.(buckets := left), gone) && doomed == EntriesOf(r.buckets, gone)
        invariant Contents() == r && forall k | k in left :: k in r.buckets && left[k] == r.buckets[k]
        decreases |left|
      {
        SomeKey(left);
        var key :| key in left;
        Smaller(left, key);
        EntriesOn(r.buckets, gone, key);
        doomed, gone := doomed + left[key].entries, gone + [key];
        left := Without(left, key);
      }
      buckets, totalBytes := map[], 0;
    }

    lemma EntriesOn(m: map<Key, Bucket>, keys: seq<Key>, key: Key)
      requires key in m
      ensures EntriesOf(m, keys + [key]) == EntriesOf(m, keys) + m[key].entries
    {
      assert (keys + [key])[..|keys|] == keys;
    }
  }

  /** There is only one oldest bucket, so the eviction takes the one that was found. */
  lemma EvictionStep(r: Registry, key: Key)
    requires RegistryOk(r) && OverCaps(r) && IsOldest(r.buckets, key)
    ensures Evicted(r) == Evicted(Evict1(r, key)) && RegistryOk(Evict1(r, key))
    ensures |Evict1(r, key).buckets| < |r.buckets|
  {
    OverIsNotEmpty(r);
    var other := EvictedMeans(r);
    Evict1Ok(r, key);
    hide Evicted, Total, Size;
    assert r.buckets[key].generation == r.buckets[other].generation;
    assert key == other;
  }
}
