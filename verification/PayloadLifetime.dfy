/** The ownership of payloads between the engine and Dart: emitted in place, read and counted by the
    isolate some time later, acknowledged through grants that arrive later still, with teardown, refused
    grants and hot restart at any moment. */
module PayloadLifetime {
  import opened Payloads

  datatype Why = WasEmpty | WasAcked | WasReleased | WasEvicted | WasReset

  datatype Freed = Freed(seq_: nat, why: Why)

  /** `acked` is how many payloads Dart had copied; `terminal` says that it will read no more. */
  datatype Grant = Grant(terminal: bool, acked: nat)

  /** `Draining` lies between the two locked regions of a teardown: what was in the arena is in its hand. */
  datatype Phase = Live | Draining | Torn

  /** One transfer or socket. `arena` is what the arena holds, or the hand of a teardown under way. Messages `received..emitted` are on their way to Dart. */
  datatype Stream = Stream(
    phase: Phase,
    arena: seq<Entry>,
    emitted: nat,
    received: nat,
    stopped: bool,
    grants: seq<Grant>,
    freed: seq<Freed>)

  datatype State = State(registry: Registry, streams: map<Key, Stream>)

  const INITIAL := State(NOTHING, map[])

  /** A request's grant is taken in one step of its engine's loop. A socket's is taken on the isolate's thread
      in two locked regions, the arena's and then the registry's; one refused after shutdown goes to the
      registry alone. */
  datatype Step =
    | Open(key: Key)
    | Emit(key: Key, size: nat)
    | DrainArena(key: Key)
    | Adopt(key: Key)
    | DartReads(key: Key)
    | DartStops(key: Key)
    | DartGrants(key: Key)
    | TakeGrant(key: Key)
    | GrantArena(key: Key)
    | GrantRegistry(key: Key)
    | ResetAll

  function AllFreed(entries: seq<Entry>, why: Why): seq<Freed> {
    if |entries| == 0 then [] else [Freed(entries[0].seq_, why)] + AllFreed(entries[1..], why)
  }

  /** `track`: an empty payload is released at once. */
  function EmitTo(st: Stream, size: nat): Stream {
    if st.phase != Live then st
    else if size == 0 then st.(emitted := st.emitted + 1, freed := st.freed + [Freed(st.emitted, WasEmpty)])
    else st.(emitted := st.emitted + 1, arena := st.arena + [Entry(st.emitted, size)])
  }

  /** `ChunkArena::ack`. */
  function AckArena(st: Stream, acked: int): Stream {
    var n := Due(st.arena, acked);
    st.(arena := st.arena[n..], freed := st.freed + AllFreed(st.arena[..n], WasAcked))
  }

  function EntriesAt(r: Registry, key: Key): seq<Entry> {
    if key in r.buckets then r.buckets[key].entries else []
  }

  /** What a grant frees in the registry. */
  function AckBucket(st: Stream, entries: seq<Entry>, g: Grant): Stream {
    if g.terminal then st.(freed := st.freed + AllFreed(entries, WasReleased))
    else st.(freed := st.freed + AllFreed(entries[..Due(entries, g.acked)], WasAcked))
  }

  function RegistryGrant(r: Registry, key: Key, g: Grant): Registry {
    if g.terminal then ReleasedAll(r, key) else Acked(r, key, g.acked)
  }

  /** What is left of a stream when the registry has gone from `r` to `t`. */
  function Settled(st: Stream, key: Key, r: Registry, t: Registry, why: Why): Stream {
    if key in t.buckets then st else st.(freed := st.freed + AllFreed(EntriesAt(r, key), why))
  }

  /** `adopt`: the arena's payloads move to the registry, and the caps are enforced on all. */
  ghost function TeardownOf(s: State, key: Key): State
    requires key in s.streams
  {
    var st := s.streams[key];
    var moved := s.streams[key := st.(phase := Torn, arena := [])];
    var r := BeforeEvictions(s.registry, key, st.arena);
    var t := Adopted(s.registry, key, st.arena);
    State(t, map k | k in moved :: Settled(moved[k], k, r, t, WasEvicted))
  }

  ghost function Apply(s: State, step: Step): State {
    if step.ResetAll? then
      State(Dropped(s.registry),
            map k | k in s.streams :: Settled(s.streams[k], k, s.registry, Dropped(s.registry), WasReset))
    else if step.Open? then
      if step.key in s.streams then s
      else s.(streams := s.streams[step.key := FRESH])
    else if step.key !in s.streams then s else
    var key := step.key;
    var st := s.streams[key];
    match step
    case Emit(_, size) => s.(streams := s.streams[key := EmitTo(st, size)])
    case DrainArena(_) => if st.phase == Live then s.(streams := s.streams[key := st.(phase := Draining)]) else s
    case Adopt(_) => if st.phase == Draining then TeardownOf(s, key) else s
    case DartReads(_) =>
      if st.stopped || st.received == st.emitted then s
      else s.(streams := s.streams[key := st.(received := st.received + 1)])
    case DartStops(_) => s.(streams := s.streams[key := st.(stopped := true)])
    case DartGrants(_) => s.(streams := s.streams[key := st.(grants := st.grants + [Grant(st.stopped, st.received)])])
    case TakeGrant(_) =>
      if |st.grants| == 0 || st.phase == Draining then s else
      var g, u := st.grants[0], st.(grants := st.grants[1..]);
      if st.phase == Live then s.(streams := s.streams[key := AckArena(u, g.acked)])
      else State(RegistryGrant(s.registry, key, g), s.streams[key := AckBucket(u, EntriesAt(s.registry, key), g)])
    case GrantArena(_) =>
      if |st.grants| == 0 || st.phase != Live then s
      else s.(streams := s.streams[key := AckArena(st, st.grants[0].acked)])
    case GrantRegistry(_) =>
      if |st.grants| == 0 then s else
      var g, u := st.grants[0], st.(grants := st.grants[1..]);
      State(RegistryGrant(s.registry, key, g), s.streams[key := AckBucket(u, EntriesAt(s.registry, key), g)])
  }

  ghost function Run(steps: seq<Step>): State {
    if |steps| == 0 then INITIAL else Apply(Run(steps[..|steps| - 1]), steps[|steps| - 1])
  }

  // ----- What every run keeps -----

  function Held(entries: seq<Entry>): multiset<nat> {
    if |entries| == 0 then multiset{} else multiset{entries[0].seq_} + Held(entries[1..])
  }

  function Gone(freed: seq<Freed>): multiset<nat> {
    if |freed| == 0 then multiset{} else multiset{freed[0].seq_} + Gone(freed[1..])
  }

  function UpTo(n: nat): multiset<nat> {
    if n == 0 then multiset{} else UpTo(n - 1) + multiset{n - 1}
  }

  lemma {:induction false} UpToCounts(n: nat, i: nat)
    ensures UpTo(n)[i] == if i < n then 1 else 0
  {
    if n > 0 {
      UpToCounts(n - 1, i);
    }
  }

  lemma {:induction false} HeldAppend(a: seq<Entry>, b: seq<Entry>)
    ensures Held(a + b) == Held(a) + Held(b)
  {
    if |a| == 0 {
      assert a + b == b;
    } else {
      assert (a + b)[1..] == a[1..] + b;
      HeldAppend(a[1..], b);
    }
  }

  lemma {:induction false} GoneAppend(a: seq<Freed>, b: seq<Freed>)
    ensures Gone(a + b) == Gone(a) + Gone(b)
  {
    if |a| == 0 {
      assert a + b == b;
    } else {
      assert (a + b)[1..] == a[1..] + b;
      GoneAppend(a[1..], b);
    }
  }

  lemma {:induction false} AllFreedIs(entries: seq<Entry>, why: Why)
    ensures Gone(AllFreed(entries, why)) == Held(entries) && |AllFreed(entries, why)| == |entries|
    ensures forall i | 0 <= i < |entries| :: AllFreed(entries, why)[i] == Freed(entries[i].seq_, why)
  {
    if |entries| > 0 {
      AllFreedIs(entries[1..], why);
    }
  }

  predicate Sorted(entries: seq<Entry>, n: nat) {
    && (forall i, j | 0 <= i < j < |entries| :: entries[i].seq_ < entries[j].seq_)
    && (forall i | 0 <= i < |entries| :: entries[i].seq_ < n)
  }

  /** Nothing is freed while Dart may still read it, except by the caps, a reset, or because it is empty. */
  predicate FreedOk(f: Freed, received: nat, stopped: bool) {
    match f.why
    case WasAcked => f.seq_ < received
    case WasReleased => stopped
    case _ => true
  }

  predicate FreedsOk(freed: seq<Freed>, received: nat, stopped: bool) {
    forall i | 0 <= i < |freed| :: FreedOk(freed[i], received, stopped)
  }

  /** Each payload emitted is in the arena, in the registry or freed: in one of them, once. */
  predicate Conserved(st: Stream, entries: seq<Entry>) {
    Held(st.arena) + Held(entries) + Gone(st.freed) == UpTo(st.emitted)
  }

  predicate GrantOk(g: Grant, received: nat, stopped: bool) {
    g.acked <= received && (g.terminal ==> stopped)
  }

  predicate StreamOk(st: Stream, entries: seq<Entry>) {
    && Conserved(st, entries)
    && (if st.phase == Torn then |st.arena| == 0 else |entries| == 0)
    && Sorted(st.arena, st.emitted) && Sorted(entries, st.emitted)
    && st.received <= st.emitted
    && (forall i | 0 <= i < |st.grants| :: GrantOk(st.grants[i], st.received, st.stopped))
    && FreedsOk(st.freed, st.received, st.stopped)
  }

  ghost predicate Inv(s: State) {
    && RegistryOk(s.registry) && !OverCaps(s.registry)
    && (forall k | k in s.registry.buckets :: k in s.streams)
    && (forall k | k in s.streams :: StreamOk(s.streams[k], EntriesAt(s.registry, k)))
  }

  lemma HeldSnoc(entries: seq<Entry>, e: Entry)
    ensures Held(entries + [e]) == Held(entries) + multiset{e.seq_}
  {
    HeldAppend(entries, [e]);
    assert [e][1..] == [];
  }

  lemma GoneSnoc(freed: seq<Freed>, f: Freed)
    ensures Gone(freed + [f]) == Gone(freed) + multiset{f.seq_}
  {
    GoneAppend(freed, [f]);
    assert [f][1..] == [];
  }

  lemma Swap(a: multiset<nat>, b: multiset<nat>, c: multiset<nat>, a': multiset<nat>, c': multiset<nat>)
    requires a + c == a' + c'
    ensures a + b + c == a' + b + c' && b + a + c == b + a' + c'
  {
    forall x: nat
      ensures (a + b + c)[x] == (a' + b + c')[x] && (b + a + c)[x] == (b + a' + c')[x]
    {
      assert (a + c)[x] == (a' + c')[x];
    }
  }

  lemma OneMore(a: multiset<nat>, b: multiset<nat>, c: multiset<nat>, x: nat)
    ensures (a + multiset{x}) + b + c == (a + b + c) + multiset{x}
    ensures a + b + (c + multiset{x}) == (a + b + c) + multiset{x}
  {
  }

  lemma SortedTail(entries: seq<Entry>, n: nat, i: nat)
    requires Sorted(entries, n) && i <= |entries|
    ensures Sorted(entries[i..], n)
  {
  }

  lemma SortedSnoc(entries: seq<Entry>, n: nat, size: nat)
    requires Sorted(entries, n)
    ensures Sorted(entries + [Entry(n, size)], n + 1) && Sorted(entries, n + 1)
  {
  }

  lemma UpToNext(n: nat)
    ensures UpTo(n + 1) == UpTo(n) + multiset{n}
  {
  }

  lemma EmitOk(st: Stream, entries: seq<Entry>, size: nat)
    requires StreamOk(st, entries)
    ensures StreamOk(EmitTo(st, size), entries)
  {
    hide Held, Gone, UpTo, Sorted;
    UpToNext(st.emitted);
    SortedSnoc(st.arena, st.emitted, size);
    SortedSnoc(entries, st.emitted, size);
    if st.phase == Live {
      OneMore(Held(st.arena), Held(entries), Gone(st.freed), st.emitted);
      if size == 0 {
        GoneSnoc(st.freed, Freed(st.emitted, WasEmpty));
      } else {
        HeldSnoc(st.arena, Entry(st.emitted, size));
      }
      assert Conserved(EmitTo(st, size), entries);
      hide Conserved;
    }
  }

  /** Freeing the first `n` of a row of entries: what is held and what is gone stay the same together. */
  lemma FreeSome(entries: seq<Entry>, n: nat, freed: seq<Freed>, why: Why)
    requires n <= |entries|
    ensures Held(entries) + Gone(freed) == Held(entries[n..]) + Gone(freed + AllFreed(entries[..n], why))
  {
    hide Held, Gone, AllFreed;
    HeldAppend(entries[..n], entries[n..]);
    assert entries == entries[..n] + entries[n..];
    AllFreedIs(entries[..n], why);
    GoneAppend(freed, AllFreed(entries[..n], why));
  }

  lemma FreedMore(freed: seq<Freed>, entries: seq<Entry>, why: Why, received: nat, stopped: bool)
    requires FreedsOk(freed, received, stopped)
    requires forall i | 0 <= i < |entries| :: FreedOk(Freed(entries[i].seq_, why), received, stopped)
    ensures FreedsOk(freed + AllFreed(entries, why), received, stopped)
  {
    AllFreedIs(entries, why);
    var more := AllFreed(entries, why);
    hide AllFreed, Gone, Held;
    forall i | 0 <= i < |freed + more|
      ensures FreedOk((freed + more)[i], received, stopped)
    {
      if i >= |freed| {
        assert (freed + more)[i] == Freed(entries[i - |freed|].seq_, why);
      }
    }
  }

  lemma ArenaConserved(st: Stream, entries: seq<Entry>, n: nat, why: Why)
    requires Conserved(st, entries) && n <= |st.arena|
    ensures Conserved(st.(arena := st.arena[n..], freed := st.freed + AllFreed(st.arena[..n], why)), entries)
  {
    hide Held, Gone, UpTo, AllFreed;
    FreeSome(st.arena, n, st.freed, why);
    Swap(Held(st.arena), Held(entries), Gone(st.freed), Held(st.arena[n..]), Gone(st.freed + AllFreed(st.arena[..n], why)));
  }

  lemma BucketConserved(st: Stream, entries: seq<Entry>, n: nat, why: Why)
    requires Conserved(st, entries) && n <= |entries|
    ensures Conserved(st.(freed := st.freed + AllFreed(entries[..n], why)), entries[n..])
  {
    hide Held, Gone, UpTo, AllFreed;
    FreeSome(entries, n, st.freed, why);
    Swap(Held(entries), Held(st.arena), Gone(st.freed), Held(entries[n..]), Gone(st.freed + AllFreed(entries[..n], why)));
  }

  lemma AckArenaOk(st: Stream, g: Grant, entries: seq<Entry>)
    requires StreamOk(st, entries) && GrantOk(g, st.received, st.stopped)
    ensures StreamOk(AckArena(st, g.acked), entries)
  {
    hide Conserved, Due, AllFreed, FreedsOk, Sorted;
    var n := Due(st.arena, g.acked);
    DueExactly(st.arena, g.acked);
    ArenaConserved(st, entries, n, WasAcked);
    FreedMore(st.freed, st.arena[..n], WasAcked, st.received, st.stopped);
    SortedTail(st.arena, st.emitted, n);
  }

  /** The first `n` entries of a bucket are freed for a good reason. */
  lemma FreeFromBucket(st: Stream, entries: seq<Entry>, n: nat, why: Why)
    requires StreamOk(st, entries) && n <= |entries|
    requires forall i | 0 <= i < n :: FreedOk(Freed(entries[i].seq_, why), st.received, st.stopped)
    ensures StreamOk(st.(freed := st.freed + AllFreed(entries[..n], why)), entries[n..])
  {
    hide Conserved, AllFreed, FreedsOk, Sorted;
    BucketConserved(st, entries, n, why);
    FreedMore(st.freed, entries[..n], why, st.received, st.stopped);
    SortedTail(entries, st.emitted, n);
  }

  lemma AckBucketOk(st: Stream, g: Grant, entries: seq<Entry>)
    requires StreamOk(st, entries) && GrantOk(g, st.received, st.stopped)
    ensures StreamOk(AckBucket(st, entries, g), if g.terminal then [] else entries[Due(entries, g.acked)..])
  {
    DueExactly(entries, g.acked);
    hide StreamOk, Due, AllFreed;
    if g.terminal {
      FreeAll(st, entries, WasReleased);
    } else {
      FreeFromBucket(st, entries, Due(entries, g.acked), WasAcked);
    }
  }

  lemma FreeAll(st: Stream, entries: seq<Entry>, why: Why)
    requires StreamOk(st, entries) && !why.WasAcked? && (why.WasReleased? ==> st.stopped)
    ensures StreamOk(st.(freed := st.freed + AllFreed(entries, why)), [])
  {
    hide StreamOk, AllFreed;
    FreeFromBucket(st, entries, |entries|, why);
    assert entries[..|entries|] == entries && entries[|entries|..] == [];
  }

  lemma MovedOk(st: Stream)
    requires StreamOk(st, []) && st.phase == Draining
    ensures StreamOk(st.(phase := Torn, arena := []), st.arena)
  {
  }

  // ----- Steps -----

  /** A step of one stream that leaves the registry alone. */
  lemma LocalKeepsInv(s: State, key: Key, st: Stream)
    requires Inv(s) && key in s.streams && StreamOk(st, EntriesAt(s.registry, key))
    ensures Inv(s.(streams := s.streams[key := st]))
  {
    hide StreamOk, RegistryOk, OverCaps;
  }

  /** A step of one stream with its own bucket. */
  lemma BucketKeepsInv(s: State, key: Key, st: Stream, r: Registry)
    requires Inv(s) && key in s.streams && RegistryOk(r) && !OverCaps(r)
    requires forall k | k != key :: EntriesAt(r, k) == EntriesAt(s.registry, k)
    requires forall k | k in r.buckets :: k in s.registry.buckets
    requires StreamOk(st, EntriesAt(r, key))
    ensures Inv(State(r, s.streams[key := st]))
  {
    hide StreamOk, RegistryOk, OverCaps;
  }

  lemma RegistryGrantKeeps(r: Registry, key: Key, g: Grant)
    requires RegistryOk(r) && !OverCaps(r)
    ensures var t := RegistryGrant(r, key, g);
      && RegistryOk(t) && !OverCaps(t)
      && (forall k | k != key :: EntriesAt(t, k) == EntriesAt(r, k))
      && (forall k | k in t.buckets :: k in r.buckets)
      && EntriesAt(t, key) == if g.terminal then [] else EntriesAt(r, key)[Due(EntriesAt(r, key), g.acked)..]
  {
    ReleasedOk(r, key);
    AckedOk(r, key, g.acked);
    hide RegistryOk, OverCaps, Due, Size;
  }

  /** A grant is popped: what it says is still true of the stream it came from. */
  lemma GrantPopped(s: State, key: Key)
    requires Inv(s) && key in s.streams && |s.streams[key].grants| > 0
    ensures var st := s.streams[key];
      && StreamOk(st.(grants := st.grants[1..]), EntriesAt(s.registry, key))
      && GrantOk(st.grants[0], st.received, st.stopped) && RegistryOk(s.registry) && !OverCaps(s.registry)
  {
    StreamAt(s, key);
    hide Inv, StreamOk;
    PoppedOk(s.streams[key], EntriesAt(s.registry, key));
  }

  lemma PoppedOk(st: Stream, entries: seq<Entry>)
    requires StreamOk(st, entries) && |st.grants| > 0
    ensures StreamOk(st.(grants := st.grants[1..]), entries) && GrantOk(st.grants[0], st.received, st.stopped)
  {
    hide Held, Gone, UpTo, Sorted, FreedsOk;
  }

  lemma GrantToArena(s: State, key: Key)
    requires Inv(s) && key in s.streams && |s.streams[key].grants| > 0
    ensures var st := s.streams[key];
      Inv(s.(streams := s.streams[key := AckArena(st.(grants := st.grants[1..]), st.grants[0].acked)]))
  {
    hide Inv, StreamOk, AckArena;
    GrantPopped(s, key);
    var st := s.streams[key];
    AckArenaOk(st.(grants := st.grants[1..]), st.grants[0], EntriesAt(s.registry, key));
    LocalKeepsInv(s, key, AckArena(st.(grants := st.grants[1..]), st.grants[0].acked));
  }

  lemma GrantHalfway(s: State, key: Key)
    requires Inv(s) && key in s.streams && |s.streams[key].grants| > 0
    ensures var st := s.streams[key]; Inv(s.(streams := s.streams[key := AckArena(st, st.grants[0].acked)]))
  {
    hide Inv, StreamOk, AckArena;
    StreamAt(s, key);
    FirstGrantOk(s.streams[key], EntriesAt(s.registry, key));
    AckArenaOk(s.streams[key], s.streams[key].grants[0], EntriesAt(s.registry, key));
    LocalKeepsInv(s, key, AckArena(s.streams[key], s.streams[key].grants[0].acked));
  }

  lemma FirstGrantOk(st: Stream, entries: seq<Entry>)
    requires StreamOk(st, entries) && |st.grants| > 0
    ensures GrantOk(st.grants[0], st.received, st.stopped) && st.grants[0].acked <= st.emitted
  {
  }

  lemma GrantToRegistry(s: State, key: Key)
    requires Inv(s) && key in s.streams && |s.streams[key].grants| > 0
    ensures var st, g := s.streams[key], s.streams[key].grants[0];
      Inv(State(RegistryGrant(s.registry, key, g),
                s.streams[key := AckBucket(st.(grants := st.grants[1..]), EntriesAt(s.registry, key), g)]))
  {
    hide Inv, StreamOk, AckBucket, RegistryOk, OverCaps, RegistryGrant, GrantOk;
    GrantPopped(s, key);
    var st, g, entries := s.streams[key], s.streams[key].grants[0], EntriesAt(s.registry, key);
    var u := st.(grants := st.grants[1..]);
    RegistryGrantKeeps(s.registry, key, g);
    AckBucketOk(u, g, entries);
    BucketKeepsInv(s, key, AckBucket(u, entries, g), RegistryGrant(s.registry, key, g));
  }

  lemma StreamAt(s: State, key: Key)
    requires Inv(s) && key in s.streams
    ensures var st := s.streams[key];
      StreamOk(st, EntriesAt(s.registry, key)) && st.received <= st.emitted && (st.phase != Torn ==> EntriesAt(s.registry, key) == [])
    ensures RegistryOk(s.registry) && !OverCaps(s.registry)
  {
    hide RegistryOk, OverCaps, Conserved, Sorted, FreedsOk;
  }

  /** The registry before its evictions. */
  function BeforeEvictions(r: Registry, key: Key, taken: seq<Entry>): Registry {
    if |taken| == 0 then r else Added(r, key, taken)
  }

  lemma AdoptionKeeps(r: Registry, key: Key, taken: seq<Entry>)
    requires RegistryOk(r) && !OverCaps(r) && EntriesAt(r, key) == []
    ensures var u, t := BeforeEvictions(r, key, taken), Adopted(r, key, taken);
      && RegistryOk(t) && !OverCaps(t)
      && (forall k | k in t.buckets :: k in u.buckets && t.buckets[k] == u.buckets[k])
      && (forall k | k in u.buckets :: k in r.buckets || k == key)
      && EntriesAt(u, key) == taken && (forall k | k != key :: EntriesAt(u, k) == EntriesAt(r, k))
  {
    hide RegistryOk, OverCaps, Size, Evicted, NoMoreThanNeeded;
    AdoptedOk(r, key, taken);
    AddedOk(r, key, taken);
    EvictedOk(Added(r, key, taken));
  }

  /** Adoption touches the stream's own bucket; what the caps take from the others is freed. */
  lemma TeardownKeepsInv(s: State, key: Key)
    requires Inv(s) && key in s.streams && s.streams[key].phase == Draining
    ensures Inv(TeardownOf(s, key))
  {
    hide Adopted, Added, StreamOk, RegistryOk, OverCaps;
    StreamAt(s, key);
    var st := s.streams[key];
    var moved := s.streams[key := st.(phase := Torn, arena := [])];
    var u, t := BeforeEvictions(s.registry, key, st.arena), Adopted(s.registry, key, st.arena);
    MovedOk(st);
    AdoptionKeeps(s.registry, key, st.arena);
    forall k | k in moved
      ensures StreamOk(moved[k], EntriesAt(u, k))
    {
      StreamAt(s, k);
    }
    assert forall k | k in u.buckets :: k in moved;
    hide Inv;
    SettleAll(moved, u, t, WasEvicted);
  }

  /** Buckets that have gone are freed to the streams they belonged to; the others are as they were. */
  lemma SettleAll(streams: map<Key, Stream>, r: Registry, t: Registry, why: Why)
    requires forall k | k in streams :: StreamOk(streams[k], EntriesAt(r, k))
    requires forall k | k in r.buckets :: k in streams
    requires forall k | k in t.buckets :: k in r.buckets && t.buckets[k] == r.buckets[k]
    requires RegistryOk(t) && !OverCaps(t) && (why.WasEvicted? || why.WasReset?)
    ensures Inv(State(t, map k | k in streams :: Settled(streams[k], k, r, t, why)))
  {
    hide StreamOk, RegistryOk, OverCaps, AllFreed;
    forall k | k in streams
      ensures StreamOk(Settled(streams[k], k, r, t, why), EntriesAt(t, k))
    {
      if k !in t.buckets {
        FreeAll(streams[k], EntriesAt(r, k), why);
      }
    }
  }

  lemma ResetKeepsInv(s: State)
    requires Inv(s)
    ensures Inv(Apply(s, ResetAll))
  {
    DroppedOk(s.registry);
    hide StreamOk, RegistryOk, OverCaps;
    SettleAll(s.streams, s.registry, Dropped(s.registry), WasReset);
  }

  lemma DrainingOk(st: Stream, entries: seq<Entry>)
    requires StreamOk(st, entries) && st.phase == Live
    ensures StreamOk(st.(phase := Draining), entries)
  {
    hide Held, Gone, UpTo, Sorted;
  }

  const FRESH := Stream(Live, [], 0, 0, false, [], [])

  lemma FreshOk()
    ensures StreamOk(FRESH, [])
  {
  }

  lemma OpenKeepsInv(s: State, key: Key)
    requires Inv(s) && key !in s.streams
    ensures Inv(s.(streams := s.streams[key := FRESH]))
  {
    hide RegistryOk, OverCaps, StreamOk;
    FreshOk();
    assert EntriesAt(s.registry, key) == [];
  }

  lemma DartKeepsOk(st: Stream, entries: seq<Entry>)
    requires StreamOk(st, entries)
    ensures st.received < st.emitted ==> StreamOk(st.(received := st.received + 1), entries)
    ensures StreamOk(st.(stopped := true), entries)
    ensures StreamOk(st.(grants := st.grants + [Grant(st.stopped, st.received)]), entries)
  {
    hide Held, Gone, UpTo, Sorted;
  }

  lemma TeardownStepKeeps(s: State, step: Step)
    requires Inv(s) && (step.DrainArena? || step.Adopt?) && step.key in s.streams
    ensures Inv(Apply(s, step))
  {
    hide Inv, StreamOk, TeardownOf;
    var key, st := step.key, s.streams[step.key];
    StreamAt(s, key);
    if step.DrainArena? && st.phase == Live {
      DrainingOk(st, EntriesAt(s.registry, key));
      LocalKeepsInv(s, key, st.(phase := Draining));
    }
    if step.Adopt? && st.phase == Draining {
      TeardownKeepsInv(s, key);
    }
  }

  lemma GrantStepKeeps(s: State, step: Step)
    requires Inv(s) && (step.TakeGrant? || step.GrantArena? || step.GrantRegistry?) && step.key in s.streams
    ensures Inv(Apply(s, step))
  {
    hide Inv, StreamOk, AckArena, AckBucket, RegistryGrant;
    if |s.streams[step.key].grants| > 0 {
      GrantToArena(s, step.key);
      GrantHalfway(s, step.key);
      GrantToRegistry(s, step.key);
    }
  }

  lemma EmitKeepsInv(s: State, key: Key, size: nat)
    requires Inv(s) && key in s.streams
    ensures Inv(Apply(s, Emit(key, size)))
  {
    hide Inv, StreamOk, EmitTo;
    StreamAt(s, key);
    EmitOk(s.streams[key], EntriesAt(s.registry, key), size);
    LocalKeepsInv(s, key, EmitTo(s.streams[key], size));
  }

  lemma StepKeepsInv(s: State, step: Step)
    requires Inv(s)
    ensures Inv(Apply(s, step))
  {
    if step.ResetAll? {
      ResetKeepsInv(s);
    } else if step.Open? {
      if step.key !in s.streams {
        OpenKeepsInv(s, step.key);
      }
    } else if step.key in s.streams {
      hide Inv, Apply;
      match step {
        case Emit(key, size) => EmitKeepsInv(s, key, size);
        case DrainArena(_) => TeardownStepKeeps(s, step);
        case Adopt(_) => TeardownStepKeeps(s, step);
        case TakeGrant(_) => GrantStepKeeps(s, step);
        case GrantArena(_) => GrantStepKeeps(s, step);
        case GrantRegistry(_) => GrantStepKeeps(s, step);
        case _ => DartKeepsInv(s, step);
      }
    }
  }

  lemma DartKeepsInv(s: State, step: Step)
    requires Inv(s) && (step.DartReads? || step.DartStops? || step.DartGrants?) && step.key in s.streams
    ensures Inv(Apply(s, step))
  {
    hide Inv, StreamOk;
    var key, st := step.key, s.streams[step.key];
    StreamAt(s, key);
    DartKeepsOk(st, EntriesAt(s.registry, key));
    match step {
      case DartReads(_) =>
        if !st.stopped && st.received < st.emitted {
          LocalKeepsInv(s, key, st.(received := st.received + 1));
        }
      case DartStops(_) => LocalKeepsInv(s, key, st.(stopped := true));
      case DartGrants(_) => LocalKeepsInv(s, key, st.(grants := st.grants + [Grant(st.stopped, st.received)]));
    }
  }

  lemma {:induction false} RunKeepsInv(steps: seq<Step>)
    ensures Inv(Run(steps))
  {
    if |steps| == 0 {
      assert Total(map[]) == 0;
    } else {
      RunKeepsInv(steps[..|steps| - 1]);
      StepKeepsInv(Run(steps[..|steps| - 1]), steps[|steps| - 1]);
    }
    hide Apply, StreamOk;
  }

  // ----- The main results -----

  /** Over every run: each payload emitted has exactly one owner, the arena or the hand of a teardown or the
      registry, or has been freed, exactly once. */
  lemma EachPayloadHasOneOwner(steps: seq<Step>, key: Key, i: nat)
    requires key in Run(steps).streams && i < Run(steps).streams[key].emitted
    ensures var s := Run(steps);
      var st := s.streams[key];
      && Held(st.arena)[i] + Held(EntriesAt(s.registry, key))[i] + Gone(st.freed)[i] == 1
      && (if st.phase == Torn then st.arena == [] else EntriesAt(s.registry, key) == [])
  {
    var s := Run(steps);
    RunKeepsInv(steps);
    var st, entries := s.streams[key], EntriesAt(s.registry, key);
    assert StreamOk(st, entries);
    UpToCounts(st.emitted, i);
    hide Run, Inv;
    assert (Held(st.arena) + Held(entries) + Gone(st.freed))[i] == UpTo(st.emitted)[i];
  }

  /** What Dart has still to read is not freed under it, unless the caps or a hot restart took it, or there
      was nothing in it to read. */
  lemma NotFreedBeforeRead(steps: seq<Step>, key: Key, j: nat)
    requires key in Run(steps).streams && j < |Run(steps).streams[key].freed|
    ensures var st := Run(steps).streams[key];
      st.freed[j].seq_ >= st.received && !st.stopped ==>
        st.freed[j].why == WasEmpty || st.freed[j].why == WasEvicted || st.freed[j].why == WasReset
  {
    RunKeepsInv(steps);
    StreamAt(Run(steps), key);
    var st := Run(steps).streams[key];
    hide Run, Inv;
    assert FreedOk(st.freed[j], st.received, st.stopped);
  }

  /** The registry is within both caps after every step, and its accounts are exact. */
  lemma WithinCaps(steps: seq<Step>)
    ensures var r := Run(steps).registry;
      && r.totalBytes <= 33554432 && |r.buckets| <= 256 && r.totalBytes == Total(r.buckets)
      && forall k | k in r.buckets :: r.buckets[k].bytes == Size(r.buckets[k].entries)
  {
    RunKeepsInv(steps);
  }

  /** An acknowledgement releases everything below it. */
  lemma NoneDueLeft(entries: seq<Entry>, n: nat, acked: int)
    requires Sorted(entries, n)
    ensures forall e | e in entries[Due(entries, acked)..] :: e.seq_ >= acked
  {
    DueExactly(entries, acked);
  }

  lemma NothingHeld(st: Stream, entries: seq<Entry>)
    requires StreamOk(st, entries) && st.phase == Torn && entries == []
    ensures Gone(st.freed) == UpTo(st.emitted)
  {
    assert Held([]) == multiset{} && st.arena == [];
    hide Gone, UpTo;
    assert multiset{} + multiset{} + Gone(st.freed) == Gone(st.freed);
  }

  lemma StreamSorted(st: Stream, entries: seq<Entry>)
    requires StreamOk(st, entries)
    ensures Sorted(st.arena, st.emitted) && Sorted(entries, st.emitted)
  {
  }

  lemma NothingIn(entries: seq<Entry>)
    ensures Held(entries) == multiset{} <==> entries == []
  {
  }

  lemma AllFreedExactly(st: Stream, entries: seq<Entry>)
    requires StreamOk(st, entries)
    ensures Gone(st.freed) == UpTo(st.emitted) <==> st.arena == [] && entries == []
  {
    NothingIn(st.arena);
    NothingIn(entries);
    assert |Held(st.arena) + Held(entries) + Gone(st.freed)| == |Held(st.arena)| + |Held(entries)| + |Gone(st.freed)|;
    hide Held, Gone, UpTo, Sorted;
    assert st.arena == [] && entries == [] ==> multiset{} + multiset{} + Gone(st.freed) == Gone(st.freed);
  }

  /** What is due is all of it exactly if all of it is acknowledged. */
  lemma AllDue(entries: seq<Entry>, n: nat, acked: int)
    requires Sorted(entries, n)
    ensures entries[Due(entries, acked)..] == [] <==> forall e | e in entries :: e.seq_ < acked
  {
    DueExactly(entries, acked);
  }

  /** A grant taken by the loop thread frees exactly what it acknowledges while the transfer lives, terminal or
      not, so it leaves nothing if and only if it acknowledges all that is held. Once the transfer is gone it
      frees what it acknowledges in the registry, and a terminal one leaves nothing. */
  lemma GrantsRelease(steps: seq<Step>, key: Key)
    requires key in Run(steps).streams && |Run(steps).streams[key].grants| > 0 && Run(steps).streams[key].phase != Draining
    ensures var s := Run(steps);
      var st, g, t := s.streams[key], s.streams[key].grants[0], Apply(s, TakeGrant(key));
      var allFreed := Gone(t.streams[key].freed) == UpTo(t.streams[key].emitted);
      && (st.phase == Live ==>
            && t.streams[key].arena == st.arena[Due(st.arena, g.acked)..]
            && (forall e | e in t.streams[key].arena :: e.seq_ >= g.acked)
            && (allFreed <==> forall e | e in st.arena :: e.seq_ < g.acked))
      && (st.phase == Torn ==>
            && (forall e | e in EntriesAt(t.registry, key) :: e.seq_ >= g.acked)
            && (allFreed <==> g.terminal || forall e | e in EntriesAt(s.registry, key) :: e.seq_ < g.acked))
  {
    RunKeepsInv(steps);
    hide Run, Inv, StreamOk, Sorted, RegistryOk, OverCaps, RegistryGrant, AllFreed, Gone, UpTo, Held, Due;
    var s := Run(steps);
    var t := Apply(s, TakeGrant(key));
    var st, g, entries := s.streams[key], s.streams[key].grants[0], EntriesAt(s.registry, key);
    StreamAt(s, key);
    StreamSorted(st, entries);
    NoneDueLeft(st.arena, st.emitted, g.acked);
    NoneDueLeft(entries, st.emitted, g.acked);
    AllDue(st.arena, st.emitted, g.acked);
    AllDue(entries, st.emitted, g.acked);
    RegistryGrantKeeps(s.registry, key, g);
    StepKeepsInv(s, TakeGrant(key));
    TakeGrantIs(s, key);
    hide Apply, AckArena, AckBucket;
    StreamAt(t, key);
    AllFreedExactly(t.streams[key], EntriesAt(t.registry, key));
    EmptyOnceTorn(st, entries);
    EmptyOnceTorn(t.streams[key], EntriesAt(t.registry, key));
  }

  lemma TakeGrantIs(s: State, key: Key)
    requires key in s.streams && |s.streams[key].grants| > 0 && s.streams[key].phase != Draining
    ensures var st, g, t := s.streams[key], s.streams[key].grants[0], Apply(s, TakeGrant(key));
      && key in t.streams && t.streams[key].phase == st.phase
      && t.registry == (if st.phase == Live then s.registry else RegistryGrant(s.registry, key, g))
      && t.streams[key].arena == (if st.phase == Live then st.arena[Due(st.arena, g.acked)..] else st.arena)
  {
    hide Due, RegistryGrant, AllFreed;
  }

  /** A grant refused by `push` after shutdown has begun goes to the registry alone: it frees what it
      acknowledges there, leaves the arena as it is, and a terminal one leaves nothing if and only if the arena
      is empty and no teardown is under way with payloads in its hand. */
  lemma RefusedGrantReleases(steps: seq<Step>, key: Key)
    requires key in Run(steps).streams && |Run(steps).streams[key].grants| > 0
    ensures var s := Run(steps);
      var st, g, t := s.streams[key], s.streams[key].grants[0], Apply(s, GrantRegistry(key));
      && key in t.streams && t.streams[key].arena == st.arena
      && (forall e | e in EntriesAt(t.registry, key) :: e.seq_ >= g.acked)
      && (g.terminal ==> (Gone(t.streams[key].freed) == UpTo(t.streams[key].emitted) <==> st.arena == []))
  {
    RunKeepsInv(steps);
    hide Run;
    SecondHalf(Run(steps), key);
  }

  lemma EmptyOnceTorn(st: Stream, entries: seq<Entry>)
    requires StreamOk(st, entries)
    ensures if st.phase == Torn then st.arena == [] else entries == []
  {
  }

  predicate TakesGrant(step: Step, key: Key) {
    (step.TakeGrant? || step.GrantArena? || step.GrantRegistry?) && step.key == key
  }

  /** Between the two halves of a grant that did not find a teardown under way: whatever has not reached the
      registry was not acknowledged by it. */
  predicate HalfGranted(s: State, key: Key, g: Grant) {
    && key in s.streams && |s.streams[key].grants| > 0 && s.streams[key].grants[0] == g
    && (s.streams[key].phase != Torn ==> forall e | e in s.streams[key].arena :: e.seq_ >= g.acked)
  }

  /** The other case: what the teardown has in its hand stays there until it is adopted. */
  predicate Caught(s: State, key: Key, g: Grant, hand: seq<Entry>) {
    && key in s.streams && |s.streams[key].grants| > 0 && s.streams[key].grants[0] == g
    && (s.streams[key].phase == Torn || (s.streams[key].phase == Draining && s.streams[key].arena == hand))
  }

  /** How other steps move a stream on: grants queue up behind, and the arena gains only what is new. */
  predicate MovedOn(st: Stream, u: Stream) {
    && st.grants <= u.grants
    && (st.phase == Torn ==> u.phase == Torn) && (st.phase == Draining ==> u.phase == Torn || u == st.(
          grants := u.grants, received := u.received, stopped := u.stopped, freed := u.freed))
    && (u.phase != Torn ==> forall e | e in u.arena :: e in st.arena || e.seq_ == st.emitted)
  }

  lemma Settles(s: State, step: Step, key: Key)
    requires key in s.streams && (step.ResetAll? || step.Adopt?)
    ensures key in Apply(s, step).streams && MovedOn(s.streams[key], Apply(s, step).streams[key])
  {
    hide Adopted, Added, AllFreed, BeforeEvictions, EntriesAt, Dropped;
  }

  lemma StreamMovesOn(s: State, step: Step, key: Key)
    requires key in s.streams && !TakesGrant(step, key)
    ensures key in Apply(s, step).streams && MovedOn(s.streams[key], Apply(s, step).streams[key])
  {
    if step.ResetAll? || step.Adopt? {
      Settles(s, step, key);
    }
    hide TeardownOf, RegistryGrant, AckBucket, AckArena, EntriesAt, Settled;
  }

  lemma HalfGrantedStays(s: State, step: Step, key: Key, g: Grant)
    requires Inv(s) && HalfGranted(s, key, g) && !TakesGrant(step, key)
    ensures HalfGranted(Apply(s, step), key, g)
  {
    hide Inv, StreamOk, Apply, TakesGrant;
    StreamAt(s, key);
    FirstGrantOk(s.streams[key], EntriesAt(s.registry, key));
    StreamMovesOn(s, step, key);
  }

  lemma CaughtStays(s: State, step: Step, key: Key, g: Grant, hand: seq<Entry>)
    requires Caught(s, key, g, hand) && !TakesGrant(step, key)
    ensures Caught(Apply(s, step), key, g, hand)
  {
    hide Apply, TakesGrant;
    StreamMovesOn(s, step, key);
  }

  lemma {:induction false} Between(steps: seq<Step>, between: seq<Step>, key: Key, g: Grant, hand: seq<Entry>)
    requires forall i | 0 <= i < |between| :: !TakesGrant(between[i], key)
    ensures HalfGranted(Run(steps), key, g) ==> HalfGranted(Run(steps + between), key, g)
    ensures Caught(Run(steps), key, g, hand) ==> Caught(Run(steps + between), key, g, hand)
    decreases |between|
  {
    hide HalfGranted, Caught, TakesGrant, Apply;
    if |between| == 0 {
      assert steps + between == steps;
    } else {
      var n := |between| - 1;
      Between(steps, between[..n], key, g, hand);
      var all := steps + between;
      assert all[..|all| - 1] == steps + between[..n];
      var s := Run(steps + between[..n]);
      RunKeepsInv(steps + between[..n]);
      if HalfGranted(s, key, g) {
        HalfGrantedStays(s, between[n], key, g);
      }
      if Caught(s, key, g, hand) {
        CaughtStays(s, between[n], key, g, hand);
      }
    }
  }

  lemma GrantArenaIs(s: State, key: Key)
    requires key in s.streams && |s.streams[key].grants| > 0
    ensures Apply(s, GrantArena(key)) ==
      if s.streams[key].phase != Live then s
      else s.(streams := s.streams[key := AckArena(s.streams[key], s.streams[key].grants[0].acked)])
  {
  }

  lemma HalfGrantedAtOnce(s: State, key: Key)
    requires Inv(s) && key in s.streams && |s.streams[key].grants| > 0
    ensures var st, t := s.streams[key], Apply(s, GrantArena(key));
      && (st.phase != Draining ==> HalfGranted(t, key, st.grants[0]))
      && (st.phase == Draining ==> Caught(t, key, st.grants[0], st.arena))
  {
    hide Inv, StreamOk, AllFreed, Due, Sorted;
    var st := s.streams[key];
    StreamAt(s, key);
    StreamSorted(st, EntriesAt(s.registry, key));
    NoneDueLeft(st.arena, st.emitted, st.grants[0].acked);
    GrantArenaIs(s, key);
    hide Apply;
  }

  lemma SecondHalf(s: State, key: Key)
    requires Inv(s) && key in s.streams && |s.streams[key].grants| > 0
    ensures var st, g, t := s.streams[key], s.streams[key].grants[0], Apply(s, GrantRegistry(key));
      && key in t.streams && t.streams[key].arena == st.arena && t.streams[key].phase == st.phase
      && (st.phase == Torn ==> st.arena == [])
      && (forall e | e in EntriesAt(t.registry, key) :: e.seq_ >= g.acked)
      && (g.terminal ==> (Gone(t.streams[key].freed) == UpTo(t.streams[key].emitted) <==> st.arena == []))
  {
    hide Inv, StreamOk, Sorted, RegistryOk, OverCaps, RegistryGrant, AllFreed, Gone, UpTo, Held, Due, Conserved;
    var t := Apply(s, GrantRegistry(key));
    var st, entries, g := s.streams[key], EntriesAt(s.registry, key), s.streams[key].grants[0];
    StreamAt(s, key);
    StreamSorted(st, entries);
    NoneDueLeft(entries, st.emitted, g.acked);
    RegistryGrantKeeps(s.registry, key, g);
    StepKeepsInv(s, GrantRegistry(key));
    StreamAt(t, key);
    EmptyOnceTorn(st, entries);
    AllFreedExactly(t.streams[key], EntriesAt(t.registry, key));
  }

  /** Acknowledged by the grant, and still in the hand of a teardown. */
  predicate StillInHand(s: State, key: Key, acked: int) {
    key in s.streams && s.streams[key].phase == Draining && exists e :: e in s.streams[key].arena && e.seq_ < acked
  }

  /** A socket's grant, taken in two halves with anything between them. Something it acknowledges is left over if
      and only if one teardown was under way, with it in hand, at both halves. A terminal grant leaves nothing
      if and only if at its second half nothing is in the arena or in the hand of a teardown. */
  lemma SocketGrantsRelease(steps: seq<Step>, between: seq<Step>, key: Key)
    requires key in Run(steps).streams && |Run(steps).streams[key].grants| > 0
    requires forall i | 0 <= i < |between| :: !TakesGrant(between[i], key)
    ensures var s, g := Run(steps), Run(steps).streams[key].grants[0];
      var u := Run(steps + [GrantArena(key)] + between);
      var t := Run(steps + [GrantArena(key)] + between + [GrantRegistry(key)]);
      && key in t.streams && key in u.streams
      && ((forall e | e in t.streams[key].arena + EntriesAt(t.registry, key) :: e.seq_ >= g.acked)
          <==> !(StillInHand(s, key, g.acked) && StillInHand(u, key, g.acked)))
      && (g.terminal ==> (Gone(t.streams[key].freed) == UpTo(t.streams[key].emitted) <==> u.streams[key].arena == []))
  {
    var s := Run(steps);
    var st, g := s.streams[key], s.streams[key].grants[0];
    hide HalfGranted, Caught, TakesGrant, Apply, EntriesAt, Gone, UpTo, Inv, Run;
    RunKeepsInv(steps);
    HalfGrantedAtOnce(s, key);
    RunThen(steps, GrantArena(key));
    Between(steps + [GrantArena(key)], between, key, g, st.arena);
    var all := steps + [GrantArena(key)] + between;
    var u := Run(all);
    RunKeepsInv(all);
    RunThen(all, GrantRegistry(key));
    GrantStands(s, u, key, g);
    SecondHalf(u, key);
    hide StillInHand;
    WhatIsLeft(s, u, Apply(u, GrantRegistry(key)), key, g);
  }

  lemma GrantStands(s: State, u: State, key: Key, g: Grant)
    requires key in s.streams
    requires HalfGranted(u, key, g) || Caught(u, key, g, s.streams[key].arena)
    ensures key in u.streams && |u.streams[key].grants| > 0 && u.streams[key].grants[0] == g
  {
  }

  lemma WhatIsLeft(s: State, u: State, t: State, key: Key, g: Grant)
    requires key in s.streams && key in u.streams && key in t.streams
    requires if s.streams[key].phase != Draining then HalfGranted(u, key, g) else Caught(u, key, g, s.streams[key].arena)
    requires t.streams[key].arena == u.streams[key].arena && (u.streams[key].phase == Torn ==> u.streams[key].arena == [])
    requires forall e | e in EntriesAt(t.registry, key) :: e.seq_ >= g.acked
    ensures (forall e | e in t.streams[key].arena + EntriesAt(t.registry, key) :: e.seq_ >= g.acked)
      <==> !(StillInHand(s, key, g.acked) && StillInHand(u, key, g.acked))
  {
    hide EntriesAt;
    if e :| e in u.streams[key].arena && e.seq_ < g.acked {
      assert e in t.streams[key].arena + EntriesAt(t.registry, key);
      assert u.streams[key].phase == Draining && s.streams[key].phase == Draining;
    }
  }

  predicate OnlyStream(s: State, key: Key, st: Stream) {
    s.registry == NOTHING && s.streams == map[key := st]
  }

  lemma NextStep(steps: seq<Step>, step: Step, key: Key, st: Stream, u: Stream)
    requires OnlyStream(Run(steps), key, st) && OnlyStream(Apply(Run(steps), step), key, u)
    ensures OnlyStream(Run(steps + [step]), key, u)
  {
    RunThen(steps, step);
  }

  /** The grant's halves, both while the teardown is between its regions. */
  lemma GrantFindsNothing(s: State, key: Key, st: Stream)
    requires OnlyStream(s, key, st) && st.phase == Draining && |st.grants| > 0 && !st.grants[0].terminal
    ensures OnlyStream(Apply(s, GrantArena(key)), key, st)
    ensures OnlyStream(Apply(s, GrantRegistry(key)), key, st.(grants := st.grants[1..]))
  {
    assert EntriesAt(NOTHING, key) == [] && AllFreed([], WasAcked) == [];
    assert st.freed + [] == st.freed;
    assert Acked(NOTHING, key, st.grants[0].acked) == NOTHING;
  }

  lemma AdoptedWhole(s: State, key: Key, st: Stream)
    requires OnlyStream(s, key, st) && st.phase == Draining && |st.arena| == 1 && st.arena[0].size <= 33554432
    ensures EntriesAt(Apply(s, Adopt(key)).registry, key) == st.arena
  {
    var added := Added(NOTHING, key, st.arena);
    NothingOk();
    AddedOk(NOTHING, key, st.arena);
    AddedAlone(key, st.arena);
    EvictedOk(added);
    assert BeforeEvictions(NOTHING, key, st.arena) == added && Adopted(NOTHING, key, st.arena) == added;
    hide Evicted, Added, RegistryOk, OverCaps, Adopted, Settled, AllFreed;
  }

  lemma NothingOk()
    ensures RegistryOk(NOTHING)
  {
    assert Total(map[]) == 0;
  }

  lemma AddedAlone(key: Key, arena: seq<Entry>)
    requires |arena| == 1 && arena[0].size <= 33554432
    ensures var added := Added(NOTHING, key, arena); !OverCaps(added) && EntriesAt(added, key) == arena
  {
    assert arena[1..] == [];
    assert Size(arena) == arena[0].size;
    assert [] + arena == arena;
    assert |Added(NOTHING, key, arena).buckets| == 1;
  }

  /** The schedule that fails, for any payload within the cap: Dart has read it and grants credit for it, both
      halves of the grant fall between the two regions of the teardown, and the payload stays in the registry. */
  lemma GrantLostInTeardown(key: Key, size: nat)
    requires 0 < size <= 33554432
    ensures EntriesAt(Run([Open(key), Emit(key, size), DartReads(key), DartGrants(key), DrainArena(key),
                           GrantArena(key), GrantRegistry(key)] + [Adopt(key)]).registry, key) == [Entry(0, size)]
  {
    var a := FRESH;
    var b := a.(arena := [Entry(0, size)], emitted := 1);
    var c := b.(received := 1);
    var d := c.(grants := [Grant(false, 1)]);
    var e := d.(phase := Draining);
    var steps := [Open(key)];
    assert Apply(INITIAL, Open(key)) == State(NOTHING, map[key := a]);
    assert [] + [Open(key)] == steps;
    assert EmitTo(a, size) == b && d.grants == c.grants + [Grant(false, 1)] && d.grants[1..] == [];
    RunThen([], Open(key));
    NextStep(steps, Emit(key, size), key, a, b);
    NextStep(steps + [Emit(key, size)], DartReads(key), key, b, c);
    NextStep(steps + [Emit(key, size)] + [DartReads(key)], DartGrants(key), key, c, d);
    var granted := steps + [Emit(key, size)] + [DartReads(key)] + [DartGrants(key)];
    NextStep(granted, DrainArena(key), key, d, e);
    var drained := granted + [DrainArena(key)];
    GrantFindsNothing(Run(drained), key, e);
    NextStep(drained, GrantArena(key), key, e, e);
    GrantFindsNothing(Run(drained + [GrantArena(key)]), key, e);
    NextStep(drained + [GrantArena(key)], GrantRegistry(key), key, e, e.(grants := []));
    var all := drained + [GrantArena(key)] + [GrantRegistry(key)];
    assert all == [Open(key), Emit(key, size), DartReads(key), DartGrants(key), DrainArena(key), GrantArena(key), GrantRegistry(key)];
    RunThen(all, Adopt(key));
    AdoptedWhole(Run(all), key, e.(grants := []));
  }

  lemma RunThen(steps: seq<Step>, step: Step)
    ensures Run(steps + [step]) == Apply(Run(steps), step)
  {
    assert (steps + [step])[..|steps|] == steps;
  }

  // ----- Who has stopped -----

  lemma SettledKeepsStop(st: Stream, key: Key, r: Registry, t: Registry, why: Why)
    ensures Settled(st, key, r, t, why).stopped == st.stopped
  {
  }

  lemma TeardownKeepsStops(s: State, key: Key, other: Key)
    requires key in s.streams
    ensures var t := TeardownOf(s, key);
      (other in t.streams <==> other in s.streams) && (other in s.streams ==> t.streams[other].stopped == s.streams[other].stopped)
  {
    hide Adopted, BeforeEvictions, Settled;
    if other in s.streams {
      var st := if other == key then s.streams[key].(phase := Torn, arena := []) else s.streams[other];
      SettledKeepsStop(st, other, BeforeEvictions(s.registry, key, s.streams[key].arena),
                       Adopted(s.registry, key, s.streams[key].arena), WasEvicted);
    }
  }

  lemma StepStops(s: State, step: Step, key: Key)
    ensures var t := Apply(s, step);
      key in t.streams ==> (t.streams[key].stopped <==> key in s.streams && (s.streams[key].stopped || step == DartStops(key)))
  {
    hide TeardownOf, Settled, RegistryGrant, Due;
    if step.ResetAll? {
      if key in s.streams {
        SettledKeepsStop(s.streams[key], key, s.registry, Dropped(s.registry), WasReset);
      }
    } else if step.Adopt? && step.key in s.streams {
      TeardownKeepsStops(s, step.key, key);
    }
  }

  ghost predicate StoppedAt(steps: seq<Step>, k: nat, key: Key) {
    k < |steps| && steps[k] == DartStops(key) && key in Run(steps[..k]).streams
  }

  /** Over every run a stream's grants are terminal from the moment Dart has stopped reading it, and not before. */
  lemma {:induction false} StoppedExactly(steps: seq<Step>, key: Key)
    ensures var s := Run(steps); key in s.streams ==> (s.streams[key].stopped <==> exists k :: StoppedAt(steps, k, key))
  {
    hide Apply;
    if |steps| > 0 {
      var n := |steps| - 1;
      StoppedExactly(steps[..n], key);
      StepStops(Run(steps[..n]), steps[n], key);
      StaysOpened(steps[..n], key);
      assert forall k | 0 <= k < n :: steps[..n][..k] == steps[..k];
      hide Run;
      if k: nat :| StoppedAt(steps, k, key) {
        assert k < n ==> StoppedAt(steps[..n], k, key);
      }
      if k: nat :| StoppedAt(steps[..n], k, key) {
        assert StoppedAt(steps, k, key);
      }
      assert StoppedAt(steps, n, key) <==> steps[n] == DartStops(key) && key in Run(steps[..n]).streams;
    }
  }

  /** A stream that was opened stays known. */
  lemma {:induction false} StaysOpened(steps: seq<Step>, key: Key)
    ensures forall k | 0 <= k <= |steps| && key in Run(steps[..k]).streams :: key in Run(steps).streams
  {
    hide Apply;
    assert steps[..|steps|] == steps;
    if |steps| > 0 {
      var n := |steps| - 1;
      StaysOpened(steps[..n], key);
      assert forall k | 0 <= k <= n :: steps[..n][..k] == steps[..k];
      if key in Run(steps[..n]).streams {
        KeepsStreams(Run(steps[..n]), steps[n], key);
      }
    }
  }

  lemma KeepsStreams(s: State, step: Step, key: Key)
    requires key in s.streams
    ensures key in Apply(s, step).streams
  {
    hide TeardownOf, Settled, RegistryGrant, Due, AckArena, AckBucket;
    if step.Adopt? && step.key in s.streams {
      TeardownKeepsStops(s, step.key, key);
    }
  }
}
