/** The binary record a cache entry keeps beside its body: written field by field, read back by a cursor
    that never leaves its buffer. */
module CacheMeta {
  import opened Bytes
  import opened Seqs

  const MAGIC := 0x4d43_484e
  const VERSION := 1
  const MAX_HEADERS := 4096
  const MAX_VARIED := 256
  const WORD32 := 0x1_0000_0000
  const WORD64 := 0x1_0000_0000_0000_0000
  const SIGN64 := 0x8000_0000_0000_0000

  datatype Header = Header(name: bytes, value: bytes)

  datatype Top = Top(url: bytes, method_: bytes, statusCode: int)

  datatype Tail = Tail(
    storedAtMs: int, freshnessLifetimeMs: int, etag: bytes, lastModified: bytes,
    bodyBytes: int, lastAccessMs: int, hitCount: int)

  datatype Meta = Meta(top: Top, headers: seq<Header>, varied: seq<Header>, tail: Tail)

  // ----- Writing -----

  function PutU32(n: nat): bytes {
    LE(n, 4)
  }

  /** Two's complement. */
  function PutI64(v: int): bytes {
    LE(v % WORD64, 8)
  }

  function PutStr(s: bytes): bytes {
    PutU32(|s|) + s
  }

  function PutHeaders(headers: seq<Header>): bytes {
    if |headers| == 0 then [] else (PutStr(headers[0].name) + PutStr(headers[0].value)) + PutHeaders(headers[1..])
  }

  function PutCounted(headers: seq<Header>): bytes {
    PutU32(|headers|) + PutHeaders(headers)
  }

  function PutTop(t: Top): bytes {
    PutStr(t.url) + (PutStr(t.method_) + PutI64(t.statusCode))
  }

  function PutTail(t: Tail): bytes {
    PutI64(t.storedAtMs) + (PutI64(t.freshnessLifetimeMs) + (PutStr(t.etag) + (PutStr(t.lastModified)
      + (PutI64(t.bodyBytes) + (PutI64(t.lastAccessMs) + PutI64(t.hitCount))))))
  }

  function EncodeMeta(m: Meta): bytes {
    PutU32(MAGIC) + (PutU32(VERSION) + (PutTop(m.top) + (PutCounted(m.headers) + (PutCounted(m.varied) + PutTail(m.tail)))))
  }

  // ----- Reading -----

  /** What a read takes off the front, or that it cannot. */
  datatype Read<T> = Fail | Got(value: T, rest: bytes)

  function GetU32(d: bytes): Read<nat> {
    if |d| < 4 then Fail else Got(FromLE(d[..4]), d[4..])
  }

  function Signed(u: nat): int {
    if u >= SIGN64 then u - WORD64 else u
  }

  function GetI64(d: bytes): Read<int> {
    if |d| < 8 then Fail else Got(Signed(FromLE(d[..8])), d[8..])
  }

  function GetStr(d: bytes): Read<bytes> {
    match GetU32(d)
    case Fail => Fail
    case Got(n, rest) => if |rest| < n then Fail else Got(rest[..n], rest[n..])
  }

  function GetHeader(d: bytes): Read<Header> {
    match GetStr(d)
    case Fail => Fail
    case Got(name, r) =>
      match GetStr(r)
      case Fail => Fail
      case Got(value, rest) => Got(Header(name, value), rest)
  }

  function GetHeaders(d: bytes, n: nat): Read<seq<Header>> {
    if n == 0 then Got([], d) else
    match GetHeader(d)
    case Fail => Fail
    case Got(h, r) =>
      match GetHeaders(r, n - 1)
      case Fail => Fail
      case Got(more, rest) => Got([h] + more, rest)
  }

  function GetCounted(d: bytes, max: nat): Read<seq<Header>> {
    match GetU32(d)
    case Fail => Fail
    case Got(n, r) => if n > max then Fail else GetHeaders(r, n)
  }

  function GetTop(d: bytes): Read<Top> {
    match GetStr(d)
    case Fail => Fail
    case Got(url, r) =>
      match GetStr(r)
      case Fail => Fail
      case Got(method_, r) =>
        match GetI64(r)
        case Fail => Fail
        case Got(status, rest) => Got(Top(url, method_, status), rest)
  }

  datatype Times = Times(storedAtMs: int, freshnessLifetimeMs: int)

  function GetTimes(d: bytes): Read<Times> {
    match GetI64(d)
    case Fail => Fail
    case Got(stored, r) =>
      match GetI64(r)
      case Fail => Fail
      case Got(lifetime, rest) => Got(Times(stored, lifetime), rest)
  }

  datatype Counts = Counts(bodyBytes: int, lastAccessMs: int, hitCount: int)

  function GetCounts(d: bytes): Read<Counts> {
    match GetI64(d)
    case Fail => Fail
    case Got(body, r) =>
      match GetI64(r)
      case Fail => Fail
      case Got(access, r) =>
        match GetI64(r)
        case Fail => Fail
        case Got(hits, rest) => Got(Counts(body, access, hits), rest)
  }

  function GetTail(d: bytes): Read<Tail> {
    match GetTimes(d)
    case Fail => Fail
    case Got(times, r) =>
      match GetHeader(r)
      case Fail => Fail
      case Got(tags, r) =>
        match GetCounts(r)
        case Fail => Fail
        case Got(c, rest) =>
          Got(Tail(times.storedAtMs, times.freshnessLifetimeMs, tags.name, tags.value, c.bodyBytes, c.lastAccessMs, c.hitCount), rest)
  }

  function GetMagic(d: bytes): Read<()> {
    match GetU32(d)
    case Fail => Fail
    case Got(magic, r) =>
      if magic != MAGIC then Fail else
      match GetU32(r)
      case Fail => Fail
      case Got(version, rest) => if version != VERSION then Fail else Got((), rest)
  }

  function AfterVaried(top: Top, headers: seq<Header>, varied: seq<Header>, d: bytes): Read<Meta> {
    match GetTail(d)
    case Fail => Fail
    case Got(tail, rest) => Got(Meta(top, headers, varied, tail), rest)
  }

  function AfterHeaders(top: Top, headers: seq<Header>, d: bytes): Read<Meta> {
    match GetCounted(d, MAX_VARIED)
    case Fail => Fail
    case Got(varied, rest) => AfterVaried(top, headers, varied, rest)
  }

  function AfterTop(top: Top, d: bytes): Read<Meta> {
    match GetCounted(d, MAX_HEADERS)
    case Fail => Fail
    case Got(headers, rest) => AfterHeaders(top, headers, rest)
  }

  function AfterMagic(d: bytes): Read<Meta> {
    match GetTop(d)
    case Fail => Fail
    case Got(top, rest) => AfterTop(top, rest)
  }

  /** `decodeMeta`; bytes after the record are not looked at. */
  function DecodeMeta(d: bytes): Read<Meta> {
    match GetMagic(d)
    case Fail => Fail
    case Got(_, rest) => AfterMagic(rest)
  }

  // ----- What fits -----

  predicate FitsI64(v: int) {
    -SIGN64 <= v < SIGN64
  }

  predicate FitsStr(s: bytes) {
    |s| < WORD32
  }

  predicate FitsHeaders(headers: seq<Header>, max: nat) {
    |headers| <= max && forall i | 0 <= i < |headers| :: FitsStr(headers[i].name) && FitsStr(headers[i].value)
  }

  predicate FitsTail(t: Tail) {
    && FitsI64(t.storedAtMs) && FitsI64(t.freshnessLifetimeMs) && FitsStr(t.etag) && FitsStr(t.lastModified)
    && FitsI64(t.bodyBytes) && FitsI64(t.lastAccessMs) && FitsI64(t.hitCount)
  }

  /** The widths of the fields, and the limits of the reader. */
  predicate Fits(m: Meta) {
    && FitsStr(m.top.url) && FitsStr(m.top.method_) && FitsI64(m.top.statusCode)
    && FitsHeaders(m.headers, 4096) && FitsHeaders(m.varied, 256) && FitsTail(m.tail)
  }

  // ----- Reading what was written -----

  lemma U32ReadsBack(n: nat, rest: bytes)
    requires n < WORD32
    ensures GetU32(PutU32(n) + rest) == Got(n, rest)
  {
    Pow256Values();
    FromLEOfLE(n, 4);
    assert (PutU32(n) + rest)[..4] == PutU32(n) && (PutU32(n) + rest)[4..] == rest;
  }

  lemma I64ReadsBack(v: int, rest: bytes)
    requires FitsI64(v)
    ensures GetI64(PutI64(v) + rest) == Got(v, rest)
  {
    Pow256Values();
    FromLEOfLE(v % WORD64, 8);
    assert v < 0 ==> v % WORD64 == v + WORD64;
    assert (PutI64(v) + rest)[..8] == PutI64(v) && (PutI64(v) + rest)[8..] == rest;
  }

  lemma StrReadsBack(s: bytes, rest: bytes)
    requires FitsStr(s)
    ensures GetStr(PutStr(s) + rest) == Got(s, rest)
  {
    Assoc(PutU32(|s|), s, rest);
    U32ReadsBack(|s|, s + rest);
    assert (s + rest)[..|s|] == s && (s + rest)[|s|..] == rest;
    hide GetU32, PutU32;
  }

  lemma HeaderReadsBack(name: bytes, value: bytes, rest: bytes)
    requires FitsStr(name) && FitsStr(value)
    ensures GetHeader(PutStr(name) + (PutStr(value) + rest)) == Got(Header(name, value), rest)
  {
    StrReadsBack(name, PutStr(value) + rest);
    StrReadsBack(value, rest);
    hide GetStr, PutStr;
  }

  lemma {:induction false} HeadersReadBack(headers: seq<Header>, rest: bytes)
    requires forall i | 0 <= i < |headers| :: FitsStr(headers[i].name) && FitsStr(headers[i].value)
    ensures GetHeaders(PutHeaders(headers) + rest, |headers|) == Got(headers, rest)
  {
    hide GetHeader, PutStr;
    if |headers| == 0 {
      NilLeft(rest);
    } else {
      var h := headers[0];
      assert headers == [Header(h.name, h.value)] + headers[1..];
      HeadersReadBack(headers[1..], rest);
      HeaderReadsBack(h.name, h.value, PutHeaders(headers[1..]) + rest);
      Assoc(PutStr(h.name) + PutStr(h.value), PutHeaders(headers[1..]), rest);
      Assoc(PutStr(h.name), PutStr(h.value), PutHeaders(headers[1..]) + rest);
    }
  }

  lemma CountedReadsBack(headers: seq<Header>, max: nat, rest: bytes)
    requires FitsHeaders(headers, max) && max < WORD32
    ensures GetCounted(PutCounted(headers) + rest, max) == Got(headers, rest)
  {
    Assoc(PutU32(|headers|), PutHeaders(headers), rest);
    U32ReadsBack(|headers|, PutHeaders(headers) + rest);
    HeadersReadBack(headers, rest);
    hide GetU32, PutU32, GetHeaders, PutHeaders;
  }

  lemma TopReadsBack(t: Top, rest: bytes)
    requires FitsStr(t.url) && FitsStr(t.method_) && FitsI64(t.statusCode)
    ensures GetTop(PutTop(t) + rest) == Got(t, rest)
  {
    hide GetStr, PutStr, GetI64, PutI64;
    Assoc(PutStr(t.url), PutStr(t.method_) + PutI64(t.statusCode), rest);
    Assoc(PutStr(t.method_), PutI64(t.statusCode), rest);
    StrReadsBack(t.url, PutStr(t.method_) + (PutI64(t.statusCode) + rest));
    StrReadsBack(t.method_, PutI64(t.statusCode) + rest);
    I64ReadsBack(t.statusCode, rest);
  }

  lemma CountsReadBack(t: Tail, rest: bytes)
    requires FitsTail(t)
    ensures GetCounts(PutI64(t.bodyBytes) + (PutI64(t.lastAccessMs) + (PutI64(t.hitCount) + rest)))
      == Got(Counts(t.bodyBytes, t.lastAccessMs, t.hitCount), rest)
  {
    hide GetI64, PutI64;
    I64ReadsBack(t.bodyBytes, PutI64(t.lastAccessMs) + (PutI64(t.hitCount) + rest));
    I64ReadsBack(t.lastAccessMs, PutI64(t.hitCount) + rest);
    I64ReadsBack(t.hitCount, rest);
  }

  lemma TimesReadBack(t: Tail, rest: bytes)
    requires FitsTail(t)
    ensures GetTimes(PutI64(t.storedAtMs) + (PutI64(t.freshnessLifetimeMs) + rest))
      == Got(Times(t.storedAtMs, t.freshnessLifetimeMs), rest)
  {
    hide GetI64, PutI64;
    I64ReadsBack(t.storedAtMs, PutI64(t.freshnessLifetimeMs) + rest);
    I64ReadsBack(t.freshnessLifetimeMs, rest);
  }

  lemma TailReadsBack(t: Tail, rest: bytes)
    requires FitsTail(t)
    ensures GetTail(PutTail(t) + rest) == Got(t, rest)
  {
    var counts := PutI64(t.bodyBytes) + (PutI64(t.lastAccessMs) + (PutI64(t.hitCount) + rest));
    TailNested(t, rest);
    TimesReadBack(t, PutStr(t.etag) + (PutStr(t.lastModified) + counts));
    HeaderReadsBack(t.etag, t.lastModified, counts);
    CountsReadBack(t, rest);
    hide PutTail, GetTimes, GetHeader, GetCounts, PutI64, PutStr;
  }

  lemma TailNested(t: Tail, rest: bytes)
    ensures PutTail(t) + rest
      == PutI64(t.storedAtMs) + (PutI64(t.freshnessLifetimeMs) + (PutStr(t.etag) + (PutStr(t.lastModified)
         + (PutI64(t.bodyBytes) + (PutI64(t.lastAccessMs) + (PutI64(t.hitCount) + rest))))))
  {
    hide PutI64, PutStr;
  }

  lemma MagicReadsBack(rest: bytes)
    ensures GetMagic(PutU32(MAGIC) + (PutU32(VERSION) + rest)) == Got((), rest)
  {
    U32ReadsBack(MAGIC, PutU32(VERSION) + rest);
    U32ReadsBack(VERSION, rest);
    hide GetU32, PutU32;
  }

  /** A record that fits is read back as it was, whatever follows it. */
  lemma ReadsBack(m: Meta, more: bytes)
    requires Fits(m)
    ensures DecodeMeta(EncodeMeta(m) + more) == Got(m, more)
  {
    hide PutU32, PutTop, PutCounted, PutTail, GetMagic, GetTop, GetCounted, GetTail;
    MetaNested(m, more);
    MagicReadsBack(PutTop(m.top) + (PutCounted(m.headers) + (PutCounted(m.varied) + (PutTail(m.tail) + more))));
    TopReadsBack(m.top, PutCounted(m.headers) + (PutCounted(m.varied) + (PutTail(m.tail) + more)));
    CountedReadsBack(m.headers, MAX_HEADERS, PutCounted(m.varied) + (PutTail(m.tail) + more));
    CountedReadsBack(m.varied, MAX_VARIED, PutTail(m.tail) + more);
    TailReadsBack(m.tail, more);
  }

  lemma MetaNested(m: Meta, more: bytes)
    ensures EncodeMeta(m) + more
      == PutU32(MAGIC) + (PutU32(VERSION) + (PutTop(m.top) + (PutCounted(m.headers) + (PutCounted(m.varied) + (PutTail(m.tail) + more)))))
  {
    hide PutU32, PutTop, PutCounted, PutTail;
  }

  // ----- Reading anything -----

  /** A read is not changed by what follows. */
  predicate Stable<T(==)>(here: Read<T>, longer: Read<T>, more: bytes) {
    here.Got? ==> longer == Got(here.value, here.rest + more)
  }

  lemma U32Stable(d: bytes, more: bytes)
    ensures Stable(GetU32(d), GetU32(d + more), more)
  {
    if |d| >= 4 {
      assert (d + more)[..4] == d[..4] && (d + more)[4..] == d[4..] + more;
    }
  }

  lemma I64Stable(d: bytes, more: bytes)
    ensures Stable(GetI64(d), GetI64(d + more), more)
  {
    if |d| >= 8 {
      assert (d + more)[..8] == d[..8] && (d + more)[8..] == d[8..] + more;
    }
  }

  lemma StrStable(d: bytes, more: bytes)
    ensures Stable(GetStr(d), GetStr(d + more), more)
  {
    U32Stable(d, more);
    hide GetU32;
    if GetU32(d).Got? && |GetU32(d).rest| >= GetU32(d).value {
      var n, r := GetU32(d).value, GetU32(d).rest;
      assert (r + more)[..n] == r[..n] && (r + more)[n..] == r[n..] + more;
    }
  }

  lemma HeaderStable(d: bytes, more: bytes)
    ensures Stable(GetHeader(d), GetHeader(d + more), more)
  {
    hide GetStr;
    StrStable(d, more);
    if GetStr(d).Got? {
      StrStable(GetStr(d).rest, more);
    }
  }

  lemma {:induction false} HeadersStable(d: bytes, n: nat, more: bytes)
    ensures Stable(GetHeaders(d, n), GetHeaders(d + more, n), more)
    decreases n
  {
    hide GetHeader;
    if n > 0 {
      HeaderStable(d, more);
      if GetHeader(d).Got? {
        HeadersStable(GetHeader(d).rest, n - 1, more);
      }
    }
  }

  lemma CountedStable(d: bytes, max: nat, more: bytes)
    ensures Stable(GetCounted(d, max), GetCounted(d + more, max), more)
  {
    hide GetU32, GetHeaders;
    U32Stable(d, more);
    if GetU32(d).Got? {
      HeadersStable(GetU32(d).rest, GetU32(d).value, more);
    }
  }

  lemma TopStable(d: bytes, more: bytes)
    ensures Stable(GetTop(d), GetTop(d + more), more)
  {
    hide GetStr, GetI64;
    StrStable(d, more);
    if GetStr(d).Got? {
      var r := GetStr(d).rest;
      StrStable(r, more);
      if GetStr(r).Got? {
        I64Stable(GetStr(r).rest, more);
      }
    }
  }

  lemma TimesStable(d: bytes, more: bytes)
    ensures Stable(GetTimes(d), GetTimes(d + more), more)
  {
    hide GetI64;
    I64Stable(d, more);
    if GetI64(d).Got? {
      I64Stable(GetI64(d).rest, more);
    }
  }

  lemma CountsStable(d: bytes, more: bytes)
    ensures Stable(GetCounts(d), GetCounts(d + more), more)
  {
    hide GetI64;
    I64Stable(d, more);
    if GetI64(d).Got? {
      var r := GetI64(d).rest;
      I64Stable(r, more);
      if GetI64(r).Got? {
        I64Stable(GetI64(r).rest, more);
      }
    }
  }

  lemma TailStable(d: bytes, more: bytes)
    ensures Stable(GetTail(d), GetTail(d + more), more)
  {
    hide GetTimes, GetHeader, GetCounts;
    TimesStable(d, more);
    if GetTimes(d).Got? {
      var r := GetTimes(d).rest;
      HeaderStable(r, more);
      if GetHeader(r).Got? {
        CountsStable(GetHeader(r).rest, more);
      }
    }
  }

  lemma MagicStable(d: bytes, more: bytes)
    ensures Stable(GetMagic(d), GetMagic(d + more), more)
  {
    hide GetU32;
    U32Stable(d, more);
    if GetU32(d).Got? {
      U32Stable(GetU32(d).rest, more);
    }
  }

  lemma DecodeStable(d: bytes, more: bytes)
    ensures Stable(DecodeMeta(d), DecodeMeta(d + more), more)
  {
    hide GetMagic, GetTop, GetCounted, GetTail;
    MagicStable(d, more);
    if GetMagic(d).Got? {
      var r1 := GetMagic(d).rest;
      TopStable(r1, more);
      if GetTop(r1).Got? {
        var r2 := GetTop(r1).rest;
        CountedStable(r2, MAX_HEADERS, more);
        if GetCounted(r2, MAX_HEADERS).Got? {
          var r3 := GetCounted(r2, MAX_HEADERS).rest;
          CountedStable(r3, MAX_VARIED, more);
          if GetCounted(r3, MAX_VARIED).Got? {
            TailStable(GetCounted(r3, MAX_VARIED).rest, more);
          }
        }
      }
    }
  }

  /** No strict prefix of a record is taken for a record. */
  lemma PrefixesAreRejected(m: Meta, k: nat)
    requires Fits(m) && k < |EncodeMeta(m)|
    ensures DecodeMeta(EncodeMeta(m)[..k]).Fail?
  {
    hide DecodeMeta, EncodeMeta, Fits;
    var e := EncodeMeta(m);
    ReadsBack(m, []);
    NilRight(e);
    DecodeStable(e[..k], e[k..]);
    assert e == e[..k] + e[k..];
  }

  lemma U32Fits(d: bytes)
    ensures GetU32(d).Got? ==> GetU32(d).value < WORD32
  {
    if |d| >= 4 {
      Pow256Values();
      FromLEBound(d[..4]);
    }
  }

  lemma I64Fits(d: bytes)
    ensures GetI64(d).Got? ==> FitsI64(GetI64(d).value)
  {
    if |d| >= 8 {
      Pow256Values();
      FromLEBound(d[..8]);
    }
  }

  lemma StrFits(d: bytes)
    ensures GetStr(d).Got? ==> FitsStr(GetStr(d).value)
  {
    U32Fits(d);
    hide GetU32;
  }

  lemma HeaderFits(d: bytes)
    ensures GetHeader(d).Got? ==> FitsStr(GetHeader(d).value.name) && FitsStr(GetHeader(d).value.value)
  {
    hide GetStr;
    StrFits(d);
    if GetStr(d).Got? {
      StrFits(GetStr(d).rest);
    }
  }

  lemma {:induction false} HeadersFit(d: bytes, n: nat)
    ensures GetHeaders(d, n).Got? ==> FitsHeaders(GetHeaders(d, n).value, n)
    decreases n
  {
    hide GetHeader;
    if n > 0 {
      HeaderFits(d);
      if GetHeader(d).Got? {
        HeadersFit(GetHeader(d).rest, n - 1);
      }
    }
  }

  lemma CountedFits(d: bytes, max: nat)
    ensures GetCounted(d, max).Got? ==> FitsHeaders(GetCounted(d, max).value, max)
  {
    hide GetU32, GetHeaders;
    if GetU32(d).Got? {
      HeadersFit(GetU32(d).rest, GetU32(d).value);
    }
  }

  lemma TopFits(d: bytes)
    ensures GetTop(d).Got? ==>
      var t := GetTop(d).value; FitsStr(t.url) && FitsStr(t.method_) && FitsI64(t.statusCode)
  {
    hide GetStr, GetI64;
    StrFits(d);
    if GetStr(d).Got? {
      var r := GetStr(d).rest;
      StrFits(r);
      if GetStr(r).Got? {
        I64Fits(GetStr(r).rest);
      }
    }
  }

  lemma TimesFit(d: bytes)
    ensures GetTimes(d).Got? ==>
      FitsI64(GetTimes(d).value.storedAtMs) && FitsI64(GetTimes(d).value.freshnessLifetimeMs)
  {
    hide GetI64;
    I64Fits(d);
    if GetI64(d).Got? {
      I64Fits(GetI64(d).rest);
    }
  }

  lemma CountsFit(d: bytes)
    ensures GetCounts(d).Got? ==>
      var c := GetCounts(d).value; FitsI64(c.bodyBytes) && FitsI64(c.lastAccessMs) && FitsI64(c.hitCount)
  {
    hide GetI64;
    I64Fits(d);
    if GetI64(d).Got? {
      var r := GetI64(d).rest;
      I64Fits(r);
      if GetI64(r).Got? {
        I64Fits(GetI64(r).rest);
      }
    }
  }

  lemma TailFits(d: bytes)
    ensures GetTail(d).Got? ==> FitsTail(GetTail(d).value)
  {
    hide GetTimes, GetHeader, GetCounts;
    TimesFit(d);
    if GetTimes(d).Got? {
      var r := GetTimes(d).rest;
      HeaderFits(r);
      if GetHeader(r).Got? {
        CountsFit(GetHeader(r).rest);
      }
    }
  }

  /** Whatever bytes are decoded, the record is one that fits. */
  lemma DecodedFits(d: bytes)
    ensures DecodeMeta(d).Got? ==> Fits(DecodeMeta(d).value)
  {
    hide GetMagic, GetTop, GetCounted, GetTail;
    if GetMagic(d).Got? {
      var r1 := GetMagic(d).rest;
      TopFits(r1);
      if GetTop(r1).Got? {
        var r2 := GetTop(r1).rest;
        CountedFits(r2, MAX_HEADERS);
        if GetCounted(r2, MAX_HEADERS).Got? {
          var r3 := GetCounted(r2, MAX_HEADERS).rest;
          CountedFits(r3, MAX_VARIED);
          if GetCounted(r3, MAX_VARIED).Got? {
            TailFits(GetCounted(r3, MAX_VARIED).rest);
          }
        }
      }
    }
  }

  /** The round trip holds exactly for the records that fit. */
  lemma ReadsBackExactlyWhatFits(m: Meta)
    ensures DecodeMeta(EncodeMeta(m)) == Got(m, []) <==> Fits(m)
  {
    NilRight(EncodeMeta(m));
    DecodedFits(EncodeMeta(m));
    if Fits(m) {
      ReadsBack(m, []);
    }
    hide DecodeMeta, EncodeMeta, Fits;
  }

  // ----- The cursor -----

  /** What a read leaves behind: the value and the rest, or a cursor that has failed for good. */
  predicate Follows<T(==)>(ok: bool, left: bytes, expected: Read<T>, ok': bool, left': bytes, value: T) {
    if ok && expected.Got? then ok' && value == expected.value && left' == expected.rest else !ok'
  }

  class BufReader {
    const p: bytes
    var off: nat
    var ok: bool

    ghost predicate Valid()
      reads this
    {
      off <= |p|
    }

    ghost function Left(): bytes
      requires Valid()
      reads this
    {
      p[off..]
    }

    constructor (p: bytes)
      ensures Valid() && this.p == p && Left() == p && ok
    {
      this.p, off, ok := p, 0, true;
    }

    method Need(k: nat) returns (enough: bool)
      requires Valid()
      modifies `ok
      ensures enough == (old(ok) && k <= |Left()|) && ok == enough
    {
      if !ok || off + k > |p| {
        ok := false;
        return false;
      }
      return true;
    }

    method U32() returns (v: nat)
      requires Valid()
      modifies this
      ensures Valid() && Follows(old(ok), old(Left()), GetU32(old(Left())), ok, Left(), v)
    {
      v := 0;
      var enough := Need(4);
      if enough {
        var b := p[off..off + 4];
        assert Left()[..4] == b;
        v := b[0] as nat + 256 * (b[1] as nat + 256 * (b[2] as nat + 256 * b[3] as nat));
        FourBytes(b);
        off := off + 4;
      }
    }

    method I64() returns (v: int)
      requires Valid()
      modifies this
      ensures Valid() && Follows(old(ok), old(Left()), GetI64(old(Left())), ok, Left(), v)
    {
      v := 0;
      var enough := Need(8);
      if enough {
        ghost var all := Left()[..8];
        assert all == p[off..off + 8];
        var u, i: nat := 0, 8;
        while i > 0
          invariant i <= 8 && u == FromLE(all[i..])
        {
          i := i - 1;
          assert all[i..][1..] == all[i + 1..];
          u := p[off + i] as nat + 256 * u;
        }
        assert all[0..] == all;
        v := Signed(u);
        off := off + 8;
      }
    }

    method Str() returns (s: bytes)
      requires Valid()
      modifies this
      ensures Valid() && Follows(old(ok), old(Left()), GetStr(old(Left())), ok, Left(), s)
    {
      hide GetU32;
      s := [];
      var n := U32();
      var enough := Need(n);
      if enough {
        s := p[off..off + n];
        assert Left()[..n] == s;
        off := off + n;
      }
    }

    method Pair() returns (h: Header)
      requires Valid()
      modifies this
      ensures Valid() && Follows(old(ok), old(Left()), GetHeader(old(Left())), ok, Left(), h)
    {
      hide GetStr;
      var name := Str();
      var value := Str();
      h := Header(name, value);
    }
  }

  lemma FourBytes(b: bytes)
    requires |b| == 4
    ensures FromLE(b) == b[0] as nat + 256 * (b[1] as nat + 256 * (b[2] as nat + 256 * b[3] as nat))
  {
    assert b[1..][1..] == b[2..] && b[2..][1..] == b[3..] && b[3..][1..] == [];
    assert FromLE(b[3..]) == b[3];
    assert FromLE(b[2..]) == b[2] as nat + 256 * FromLE(b[3..]);
    assert FromLE(b[1..]) == b[1] as nat + 256 * FromLE(b[2..]);
  }

  /** The loop over a counted list of headers; a list over the limit rejects the record. */
  method ReadHeaders(r: BufReader, max: nat) returns (headers: seq<Header>, accepted: bool)
    requires r.Valid()
    modifies r
    ensures r.Valid()
    ensures Follows(old(r.ok), old(r.Left()), GetCounted(old(r.Left()), max), r.ok && accepted, r.Left(), headers)
  {
    hide GetU32, GetHeader;
    headers := [];
    var n := r.U32();
    if !r.ok || n > max {
      return [], false;
    }
    accepted := true;
    ghost var start := r.Left();
    var i := 0;
    NilLeft(if GetHeaders(start, n).Got? then GetHeaders(start, n).value else []);
    while i < n && r.ok
      invariant i <= n && r.Valid()
      invariant r.ok ==> HeadersFrom(headers, GetHeaders(r.Left(), n - i)) == GetHeaders(start, n)
      invariant !r.ok ==> GetHeaders(start, n).Fail?
    {
      ghost var left := r.Left();
      var h := r.Pair();
      if r.ok && GetHeaders(r.Left(), n - i - 1).Got? {
        Assoc(headers, [h], GetHeaders(r.Left(), n - i - 1).value);
      }
      headers := headers + [h];
      i := i + 1;
    }
    NilRight(headers);
  }

  function HeadersFrom(before: seq<Header>, r: Read<seq<Header>>): Read<seq<Header>> {
    if r.Fail? then Fail else Got(before + r.value, r.rest)
  }

  method ReadTop(r: BufReader) returns (t: Top)
    requires r.Valid()
    modifies r
    ensures r.Valid() && Follows(old(r.ok), old(r.Left()), GetTop(old(r.Left())), r.ok, r.Left(), t)
  {
    hide GetStr, GetI64;
    var url := r.Str();
    var method_ := r.Str();
    var status := r.I64();
    t := Top(url, method_, status);
  }

  method ReadTail(r: BufReader) returns (t: Tail)
    requires r.Valid()
    modifies r
    ensures r.Valid() && Follows(old(r.ok), old(r.Left()), GetTail(old(r.Left())), r.ok, r.Left(), t)
  {
    hide GetStr, GetI64, GetHeader;
    var stored := r.I64();
    var lifetime := r.I64();
    var tags := r.Pair();
    var body := r.I64();
    var access := r.I64();
    var hits := r.I64();
    t := Tail(stored, lifetime, tags.name, tags.value, body, access, hits);
  }

  method ReadMagic(r: BufReader) returns (accepted: bool)
    requires r.Valid()
    modifies r
    ensures r.Valid() && Follows(old(r.ok), old(r.Left()), GetMagic(old(r.Left())), r.ok && accepted, r.Left(), ())
  {
    hide GetU32;
    var magic := r.U32();
    if magic != MAGIC {
      return false;
    }
    var version := r.U32();
    return version == VERSION;
  }

  /** The record is still what it would be, read from here on; or the reader has failed, and so has it. */
  ghost predicate OnTrack(r: BufReader, good: bool, here: Read<Meta>, expected: Read<Meta>)
    reads r
  {
    if r.ok && good then here == expected else expected.Fail?
  }

  method DecodeFrom(r: BufReader, top: Top, ghost expected: Read<Meta>) returns (accepted: bool, m: Meta)
    requires r.Valid() && OnTrack(r, true, AfterTop(top, r.Left()), expected)
    modifies r
    ensures accepted == expected.Got? && (accepted ==> m == expected.value)
  {
    hide GetCounted, GetTail;
    m := Meta(top, [], [], Tail(0, -1, [], [], 0, 0, 0));
    var headers, headersOk := ReadHeaders(r, MAX_HEADERS);
    if !headersOk {
      return false, m;
    }
    assert OnTrack(r, true, AfterHeaders(top, headers, r.Left()), expected);
    var varied, variedOk := ReadHeaders(r, MAX_VARIED);
    if !variedOk {
      return false, m;
    }
    assert OnTrack(r, true, AfterVaried(top, headers, varied, r.Left()), expected);
    var tail := ReadTail(r);
    return r.ok, Meta(top, headers, varied, tail);
  }

  /** `decodeMeta`. */
  method Decode(record: bytes) returns (accepted: bool, m: Meta)
    ensures accepted == DecodeMeta(record).Got? && (accepted ==> m == DecodeMeta(record).value)
  {
    hide GetMagic, GetTop, AfterTop;
    var r := new BufReader(record);
    var known := ReadMagic(r);
    if !known {
      return false, Meta(Top([], [], 0), [], [], Tail(0, -1, [], [], 0, 0, 0));
    }
    assert OnTrack(r, true, AfterMagic(r.Left()), DecodeMeta(record));
    var top := ReadTop(r);
    accepted, m := DecodeFrom(r, top, DecodeMeta(record));
  }

  // ----- The writer -----

  lemma HeadersThenOne(headers: seq<Header>, i: nat)
    requires i < |headers|
    ensures PutHeaders(headers[..i + 1]) == PutHeaders(headers[..i]) + (PutStr(headers[i].name) + PutStr(headers[i].value))
  {
    assert headers[..i + 1] == headers[..i] + [headers[i]];
    hide PutStr;
    PutHeadersSnoc(headers[..i], headers[i]);
  }

  lemma {:induction false} PutHeadersSnoc(headers: seq<Header>, h: Header)
    ensures PutHeaders(headers + [h]) == PutHeaders(headers) + (PutStr(h.name) + PutStr(h.value))
  {
    hide PutStr;
    if |headers| == 0 {
      assert ([] + [h])[1..] == [];
      NilRight(PutStr(h.name) + PutStr(h.value));
    } else {
      assert (headers + [h])[1..] == headers[1..] + [h];
      PutHeadersSnoc(headers[1..], h);
      Assoc(PutStr(headers[0].name) + PutStr(headers[0].value), PutHeaders(headers[1..]), PutStr(h.name) + PutStr(h.value));
    }
  }

  class BufWriter {
    var buf: bytes

    constructor ()
      ensures buf == []
    {
      buf := [];
    }

    method U32(n: nat)
      modifies this
      ensures buf == old(buf) + PutU32(n)
    {
      assert PutU32(n) == [n % 256, n / 256 % 256, n / 256 / 256 % 256, n / 256 / 256 / 256 % 256] by {
        LEFour(n);
      }
      buf := buf + [n % 256] + [n / 256 % 256] + [n / 256 / 256 % 256] + [n / 256 / 256 / 256 % 256];
    }

    method I64(v: int)
      modifies this
      ensures buf == old(buf) + PutI64(v)
    {
      var u := v % WORD64;
      var rest, i := u, 0;
      while i < 8
        invariant 0 <= i <= 8 && rest == Shifted(u, i) && buf == old(buf) + LE(u, 8)[..i]
      {
        LEAt(u, 8, i);
        ShiftedOnce(u, i);
        assert LE(u, 8)[..i + 1] == LE(u, 8)[..i] + [rest % 256];
        buf := buf + [rest % 256];
        rest, i := rest / 256, i + 1;
      }
      assert LE(u, 8)[..8] == LE(u, 8);
    }

    method Str(s: bytes)
      modifies this
      ensures buf == old(buf) + PutStr(s)
    {
      U32(|s|);
      buf := buf + s;
    }

    /** A count, then the pairs. */
    method Headers(headers: seq<Header>)
      modifies this
      ensures buf == old(buf) + PutCounted(headers)
    {
      hide PutStr, PutU32, PutHeaders;
      U32(|headers|);
      ghost var before := buf;
      NoHeaders(headers);
      NilRight(buf);
      for i := 0 to |headers|
        invariant buf == before + PutHeaders(headers[..i])
      {
        HeadersThenOne(headers, i);
        Str(headers[i].name);
        Str(headers[i].value);
      }
      assert headers[..|headers|] == headers;
    }
  }

  lemma LEFour(n: nat)
    ensures LE(n, 4) == [n % 256, n / 256 % 256, n / 256 / 256 % 256, n / 256 / 256 / 256 % 256]
  {
    assert Shifted(n, 0) == n;
    ShiftedOnce(n, 0);
    ShiftedOnce(n, 1);
    ShiftedOnce(n, 2);
    LEAt(n, 4, 0);
    LEAt(n, 4, 1);
    LEAt(n, 4, 2);
    LEAt(n, 4, 3);
  }

  lemma NoHeaders(headers: seq<Header>)
    ensures PutHeaders(headers[..0]) == []
  {
  }

  method WriteTail(w: BufWriter, t: Tail)
    modifies w
    ensures w.buf == old(w.buf) + PutTail(t)
  {
    hide PutStr, PutI64;
    w.I64(t.storedAtMs);
    w.I64(t.freshnessLifetimeMs);
    w.Str(t.etag);
    w.Str(t.lastModified);
    w.I64(t.bodyBytes);
    w.I64(t.lastAccessMs);
    w.I64(t.hitCount);
  }

  /** `encodeMeta`. */
  method Encode(m: Meta) returns (record: bytes)
    ensures record == EncodeMeta(m)
  {
    hide PutStr, PutI64, PutU32, PutCounted, PutTail;
    var w := new BufWriter();
    w.U32(MAGIC);
    w.U32(VERSION);
    w.Str(m.top.url);
    w.Str(m.top.method_);
    w.I64(m.top.statusCode);
    w.Headers(m.headers);
    w.Headers(m.varied);
    WriteTail(w, m.tail);
    record := w.buf;
  }
}
