/** RFC 6455 framing: what a client writes (`encodeFrame`), what it reads (`parseFrameHeader`),
    and the wire grammar of section 5.2 that both are measured against. */
module WsFrame {
  import opened Bytes
  import opened Seqs

  const CONTINUATION := 0
  const TEXT := 1
  const BINARY := 2
  const CLOSE := 8
  const PING := 9
  const PONG := 10
  const TRANSPORT_ERROR := 255

  const MAX_CONTROL := 125
  const HIGH_BIT := 0x8000_0000_0000_0000
  const SIZE_MAX := 0xFFFF_FFFF_FFFF_FFFF

  datatype Frame = Frame(fin: bool, opcode: nat, payload: bytes)

  predicate IsControl(opcode: int) {
    (opcode / 8) % 2 == 1
  }

  predicate KnownOpcode(opcode: nat) {
    opcode == CONTINUATION || opcode == TEXT || opcode == BINARY ||
    opcode == CLOSE || opcode == PING || opcode == PONG
  }

  /** Sections 5.2 and 5.5: what a frame may be, whichever side sends it. */
  predicate Legal(f: Frame) {
    && KnownOpcode(f.opcode)
    && |f.payload| < HIGH_BIT
    && (IsControl(f.opcode) ==> f.fin && |f.payload| <= MAX_CONTROL)
  }

  // ----- The wire grammar of section 5.2 -----

  /** The three ways to write a payload length. A reader accepts any that fits. */
  datatype LenForm = Short | Medium | Long

  predicate Fits(n: nat, form: LenForm) {
    match form
    case Short => n < 126
    case Medium => n <= 0xFFFF
    case Long => n < HIGH_BIT
  }

  function ShortestForm(n: nat): (form: LenForm)
    ensures n < HIGH_BIT ==> Fits(n, form)
  {
    if n < 126 then Short else if n <= 0xFFFF then Medium else Long
  }

  function LenCode(n: nat, form: LenForm): (c: byte)
    requires Fits(n, form)
    ensures c < 128
  {
    match form
    case Short => n
    case Medium => 126
    case Long => 127
  }

  function LenExt(n: nat, form: LenForm): bytes {
    match form
    case Short => []
    case Medium => BE(n, 2)
    case Long => BE(n, 8)
  }

  function FirstByte(f: Frame): byte {
    (if f.fin then 128 else 0) + f.opcode % 16
  }

  function ServerHead(f: Frame, form: LenForm): bytes
    requires Fits(|f.payload|, form)
  {
    [FirstByte(f), LenCode(|f.payload|, form)] + LenExt(|f.payload|, form)
  }

  /** One unmasked frame, as a server sends it. */
  function ServerWire(f: Frame, form: LenForm): (w: bytes)
    requires Fits(|f.payload|, form)
    ensures |w| >= 2 + |f.payload|
  {
    ServerHead(f, form) + f.payload
  }

  function Masked(payload: bytes, mask: bytes): (m: bytes)
    requires |mask| == 4
    ensures |m| == |payload|
  {
    seq(|payload|, i requires 0 <= i < |payload| => Xor(payload[i], mask[i % 4]))
  }

  lemma MaskedTwice(payload: bytes, mask: bytes)
    requires |mask| == 4
    ensures Masked(Masked(payload, mask), mask) == payload
  {
    forall i | 0 <= i < |payload|
      ensures Masked(Masked(payload, mask), mask)[i] == payload[i]
    {
      XorTwice(payload[i], mask[i % 4]);
    }
  }

  function ClientHead(f: Frame, key: nat): bytes
    requires |f.payload| < HIGH_BIT
  {
    var form := ShortestForm(|f.payload|);
    [FirstByte(f), 128 + LenCode(|f.payload|, form)] + LenExt(|f.payload|, form) + BE(key, 4)
  }

  /** One masked frame, as a client must send it. */
  function ClientWire(f: Frame, key: nat): (w: bytes)
    requires |f.payload| < HIGH_BIT
    ensures |w| >= 6
  {
    ClientHead(f, key) + Masked(f.payload, BE(key, 4))
  }

  // ----- encodeFrame -----

  /** Control payloads are cut to 125 bytes before anything is written. */
  function Clamped(opcode: int, payload: bytes): bytes {
    if IsControl(opcode) && |payload| > MAX_CONTROL then payload[..MAX_CONTROL] else payload
  }

  function EncodedFrame(opcode: int, fin: bool, payload: bytes): Frame {
    Frame(fin, opcode % 16, Clamped(opcode, payload))
  }

  /** The 64-bit length, most significant byte first. */
  method AppendLength(out: bytes, len: nat) returns (r: bytes)
    ensures r == out + BE(len, 8)
  {
    r := out;
    var i := 8;
    while i > 0
      invariant 0 <= i <= 8
      invariant r == out + BE(Shifted(len, i), 8 - i)
    {
      i := i - 1;
      ShiftedOnce(len, i);
      assert BE(Shifted(len, i), 8 - i) == BE(Shifted(len, i) / 256, 7 - i) + [Shifted(len, i) % 256];
      r := r + [Shifted(len, i) % 256];
    }
  }

  /** The first two bytes, the extended length and the mask key. */
  method EncodeHead(f: Frame, key: nat) returns (out: bytes)
    requires |f.payload| < HIGH_BIT
    ensures out == ClientHead(f, key)
  {
    var n := |f.payload|;
    var first: byte := (if f.fin then 128 else 0) + f.opcode % 16;
    if n < 126 {
      out := [first, 128 + n];
      assert out == out + LenExt(n, Short);
    } else if n <= 0xFFFF {
      BETwo(n);
      out := [first, 128 + 126] + [n / 256 % 256, n % 256];
    } else {
      out := AppendLength([first, 128 + 127], n);
    }
    out := out + BE(key, 4);
  }

  lemma BETwo(n: nat)
    ensures BE(n, 2) == [n / 256 % 256, n % 256]
  {
    assert BE(n / 256, 1) == BE(n / 256 / 256, 0) + [n / 256 % 256];
  }

  method EncodeFrame(opcode: int, fin: bool, payload: bytes, key: nat) returns (out: bytes)
    requires |payload| < HIGH_BIT
    ensures out == ClientWire(EncodedFrame(opcode, fin, payload), key)
  {
    var n := |payload|;
    if IsControl(opcode) && n > MAX_CONTROL {
      n := MAX_CONTROL;
    }
    var f := Frame(fin, opcode % 16, payload[..n]);
    assert f == EncodedFrame(opcode, fin, payload) by {
      assert payload[..|payload|] == payload;
    }
    out := EncodeHead(f, key);
    var mask := BE(key, 4);
    ghost var head := out;
    ghost var masked := Masked(f.payload, mask);
    var i := 0;
    while i < n
      invariant 0 <= i <= n
      invariant out == head + masked[..i]
    {
      assert masked[..i + 1] == masked[..i] + [Xor(payload[i], mask[i % 4])];
      out := out + [Xor(payload[i], mask[i % 4])];
      i := i + 1;
    }
    assert masked[..n] == masked;
  }

  // ----- parseFrameHeader -----

  datatype Header =
    | NeedMore
    | Bad(text: string)
    | Head(fin: bool, opcode: nat, headerBytes: nat, payloadBytes: nat)

  const RESERVED_BITS := "reserved bits set without a negotiated extension"
  const MASKED_SERVER := "server frame is masked"
  const RESERVED_OPCODE := "reserved opcode"
  const FRAGMENTED_CONTROL := "fragmented control frame"
  const LENGTH_HIGH_BIT := "payload length has the high bit set"
  const LONG_CONTROL := "control frame payload exceeds 125 bytes"
  const TOO_LARGE := "frame too large for this platform"

  function CheckedLength(fin: bool, opcode: nat, need: nat, len: nat): Header
    requires need <= 10
  {
    if IsControl(opcode) && len > MAX_CONTROL then Bad(LONG_CONTROL)
    else if len > SIZE_MAX - need then Bad(TOO_LARGE)
    else Head(fin, opcode, need, len)
  }

  function ParseHeader(data: bytes): (h: Header)
    ensures h.Head? ==> 2 <= h.headerBytes <= |data|
  {
    if |data| < 2 then NeedMore else
    var b0, b1 := data[0], data[1];
    var fin, opcode := b0 >= 128, b0 % 16;
    if (b0 / 16) % 8 != 0 then Bad(RESERVED_BITS)
    else if b1 >= 128 then Bad(MASKED_SERVER)
    else if !KnownOpcode(opcode) then Bad(RESERVED_OPCODE)
    else if IsControl(opcode) && !fin then Bad(FRAGMENTED_CONTROL)
    else if b1 == 126 then
      if |data| < 4 then NeedMore else CheckedLength(fin, opcode, 4, FromBE(data[2..4]))
    else if b1 == 127 then
      if |data| < 10 then NeedMore
      else if FromBE(data[2..10]) >= HIGH_BIT then Bad(LENGTH_HIGH_BIT)
      else CheckedLength(fin, opcode, 10, FromBE(data[2..10]))
    else CheckedLength(fin, opcode, 2, b1)
  }

  method ReadLength(data: bytes) returns (len: nat)
    requires |data| >= 10
    ensures len == FromBE(data[2..10])
  {
    len := 0;
    var i := 0;
    assert data[2..2] == [];
    while i < 8
      invariant 0 <= i <= 8
      invariant len == FromBE(data[2..2 + i])
    {
      assert data[2..2 + (i + 1)][..i] == data[2..2 + i];
      len := len * 256 + data[2 + i];
      i := i + 1;
    }
  }

  lemma FromBETwo(high: byte, low: byte)
    ensures FromBE([high, low]) == high as nat * 256 + low
  {
    assert [high, low][..1] == [high] && [high][..0] == [];
    assert FromBE([high]) == high;
  }

  method ParseFrameHeader(data: bytes) returns (h: Header)
    ensures h == ParseHeader(data)
  {
    if |data| < 2 {
      return NeedMore;
    }
    var b0, b1 := data[0], data[1];
    var fin, opcode := b0 >= 128, b0 % 16;
    if (b0 / 16) % 8 != 0 {
      return Bad(RESERVED_BITS);
    }
    if b1 >= 128 {
      return Bad(MASKED_SERVER);
    }
    if !KnownOpcode(opcode) {
      return Bad(RESERVED_OPCODE);
    }
    if IsControl(opcode) && !fin {
      return Bad(FRAGMENTED_CONTROL);
    }
    var len, need := b1 as nat, 2;
    if len == 126 {
      need := need + 2;
      if |data| < need {
        return NeedMore;
      }
      FromBETwo(data[2], data[3]);
      assert data[2..4] == [data[2], data[3]];
      len := data[2] as nat * 256 + data[3];
    } else if len == 127 {
      need := need + 8;
      if |data| < need {
        return NeedMore;
      }
      len := ReadLength(data);
      if len >= HIGH_BIT {
        return Bad(LENGTH_HIGH_BIT);
      }
    }
    if IsControl(opcode) && len > MAX_CONTROL {
      return Bad(LONG_CONTROL);
    }
    if len > SIZE_MAX - need {
      return Bad(TOO_LARGE);
    }
    return Head(fin, opcode, need, len);
  }

  // ----- The parser against the grammar -----

  /** A whole frame stands at the front of `data`. */
  predicate FrameReady(data: bytes) {
    var h := ParseHeader(data);
    h.Head? && |data| >= h.headerBytes + h.payloadBytes
  }

  function FrontSize(data: bytes): (n: nat)
    requires FrameReady(data)
    ensures 2 <= n <= |data|
  {
    ParseHeader(data).headerBytes + ParseHeader(data).payloadBytes
  }

  function FrontFrame(data: bytes): Frame
    requires FrameReady(data)
  {
    var h := ParseHeader(data);
    Frame(h.fin, h.opcode, data[h.headerBytes..h.headerBytes + h.payloadBytes])
  }

  function FrontForm(data: bytes): LenForm
    requires FrameReady(data)
  {
    var h := ParseHeader(data).headerBytes;
    if h == 2 then Short else if h == 4 then Medium else Long
  }

  /** What the reader sees of a wire whose extended length is `ext`. */
  lemma HeadSlices(b0: byte, b1: byte, ext: bytes, rest: bytes)
    ensures var data := [b0, b1] + ext + rest;
      && data[0] == b0 && data[1] == b1
      && data[2..2 + |ext|] == ext && data[2 + |ext|..] == rest
  {
  }

  lemma ParseOfHead(f: Frame, form: LenForm, rest: bytes)
    requires Legal(f) && Fits(|f.payload|, form)
    ensures ParseHeader(ServerHead(f, form) + rest)
         == Head(f.fin, f.opcode, |ServerHead(f, form)|, |f.payload|)
  {
    var n := |f.payload|;
    Pow256Values();
    var b0, b1 := FirstByte(f), LenCode(n, form);
    HeadSlices(b0, b1, LenExt(n, form), rest);
    match form {
      case Short =>
      case Medium => FromBEOfBE(n, 2);
      case Long => FromBEOfBE(n, 8);
    }
  }

  lemma FrontOf(head: bytes, f: Frame, rest: bytes)
    requires ParseHeader(head + (f.payload + rest)) == Head(f.fin, f.opcode, |head|, |f.payload|)
    ensures FrameReady((head + f.payload) + rest)
    ensures FrontFrame((head + f.payload) + rest) == f
    ensures FrontSize((head + f.payload) + rest) == |head| + |f.payload|
  {
    Assoc(head, f.payload, rest);
    var data := (head + f.payload) + rest;
    assert data[|head|..|head| + |f.payload|] == f.payload;
  }

  /** Every legal frame, with its length written in any form that fits, is read back whole. */
  lemma ParseOfWire(f: Frame, form: LenForm, rest: bytes)
    requires Legal(f) && Fits(|f.payload|, form)
    ensures FrameReady(ServerWire(f, form) + rest)
    ensures FrontFrame(ServerWire(f, form) + rest) == f
    ensures FrontSize(ServerWire(f, form) + rest) == |ServerWire(f, form)|
  {
    var head := ServerHead(f, form);
    ParseOfHead(f, form, f.payload + rest);
    FrontOf(head, f, rest);
  }

  lemma ExtOfParse(data: bytes)
    requires FrameReady(data)
    ensures var h, n, form := ParseHeader(data).headerBytes, ParseHeader(data).payloadBytes, FrontForm(data);
      && Fits(n, form) && LenCode(n, form) == data[1] && LenExt(n, form) == data[2..h]
  {
    var h := ParseHeader(data).headerBytes;
    hide FromBE, BE;
    Pow256Values();
    if h > 2 {
      FromBEBound(data[2..h]);
      BEOfFromBE(data[2..h]);
    }
  }

  lemma HeadOfParse(data: bytes)
    requires FrameReady(data)
    ensures var f, form := FrontFrame(data), FrontForm(data);
      && Legal(f) && Fits(|f.payload|, form)
      && data[..ParseHeader(data).headerBytes] == ServerHead(f, form)
  {
    ExtOfParse(data);
    hide LenExt, FromBE;
    FirstTwo(data, ParseHeader(data).headerBytes);
    assert data[0] == FirstByte(FrontFrame(data));
  }

  lemma FirstTwo(data: bytes, h: nat)
    requires 2 <= h <= |data|
    ensures data[..h] == [data[0], data[1]] + data[2..h]
  {
  }

  lemma FrontIsLegal(data: bytes)
    requires FrameReady(data)
    ensures Legal(FrontFrame(data)) && Fits(|FrontFrame(data).payload|, FrontForm(data))
  {
    HeadOfParse(data);
  }

  /** Whatever the parser accepts is a legal frame of the grammar. */
  lemma WireOfParse(data: bytes)
    requires FrameReady(data)
    ensures var f, form := FrontFrame(data), FrontForm(data);
      && Legal(f) && Fits(|f.payload|, form)
      && data == ServerWire(f, form) + data[FrontSize(data)..]
  {
    HeadOfParse(data);
    var h := ParseHeader(data);
    assert data == data[..h.headerBytes] + data[h.headerBytes..FrontSize(data)] + data[FrontSize(data)..];
  }

  /** The parser accepts exactly the streams that begin with a legal frame. */
  lemma ParserAcceptsExactlyLegalFrames(data: bytes)
    ensures FrameReady(data) <==>
      exists f, form, rest :: Legal(f) && Fits(|f.payload|, form) && data == ServerWire(f, form) + rest
  {
    if FrameReady(data) {
      WireOfParse(data);
      var f, form, rest := FrontFrame(data), FrontForm(data), data[FrontSize(data)..];
      assert Legal(f) && Fits(|f.payload|, form) && data == ServerWire(f, form) + rest;
    }
    if f: Frame, form: LenForm, rest: bytes :|
      Legal(f) && Fits(|f.payload|, form) && data == ServerWire(f, form) + rest
    {
      ParseOfWire(f, form, rest);
    }
  }

  /** A verdict never changes when more bytes arrive, so the reads may be split anywhere. */
  lemma ParseStable(data: bytes, more: bytes)
    requires !ParseHeader(data).NeedMore?
    ensures ParseHeader(data + more) == ParseHeader(data)
  {
    if data[1] == 126 && |data| >= 4 {
      assert (data + more)[2..4] == data[2..4];
    } else if data[1] == 127 && |data| >= 10 {
      assert (data + more)[2..10] == data[2..10];
    }
  }

  lemma FrameReadyStable(data: bytes, more: bytes)
    requires FrameReady(data)
    ensures FrameReady(data + more)
    ensures FrontSize(data + more) == FrontSize(data)
    ensures FrontFrame(data + more) == FrontFrame(data)
  {
    ParseStable(data, more);
    var h := ParseHeader(data);
    assert (data + more)[h.headerBytes..h.headerBytes + h.payloadBytes]
        == data[h.headerBytes..h.headerBytes + h.payloadBytes];
  }

  /** The two directions are not symmetric: a client frame is never accepted by the client's reader. */
  lemma ClientFramesAreRefused(f: Frame, key: nat, rest: bytes)
    requires Legal(f)
    ensures ParseHeader(ClientWire(f, key) + rest) == Bad(MASKED_SERVER)
  {
    var data := ClientWire(f, key) + rest;
    assert data[0] == FirstByte(f) && data[1] >= 128;
  }

  // ----- The peer: section 5.3 unmasking over a byte stream -----

  function ExtSize(code: nat): (k: nat)
    ensures k <= 8
  {
    if code == 126 then 2 else if code == 127 then 8 else 0
  }

  /** Removes the masks from the whole frames at the front of a client's byte stream.
      Section 5.1 makes a server give up at an unmasked frame. */
  function Unmask(stream: bytes): bytes
    decreases |stream|
  {
    if |stream| < 2 || stream[1] < 128 then [] else
    var code := stream[1] - 128;
    var ext := ExtSize(code);
    var h := 2 + ext + 4;
    if |stream| < h then [] else
    var n := if ext == 0 then code else FromBE(stream[2..2 + ext]);
    if |stream| < h + n then [] else
    [stream[0], code] + stream[2..2 + ext] + Masked(stream[h..h + n], stream[2 + ext..h]) + Unmask(stream[h + n..])
  }

  /** What the peer sees of a masked wire. */
  lemma MaskedSlices(b0: byte, b1: byte, ext: bytes, key: bytes, payload: bytes, rest: bytes)
    ensures var stream := [b0, b1] + ext + key + payload + rest;
      && stream[0] == b0 && stream[1] == b1
      && stream[2..2 + |ext|] == ext
      && stream[2 + |ext|..2 + |ext| + |key|] == key
      && stream[2 + |ext| + |key|..2 + |ext| + |key| + |payload|] == payload
      && stream[2 + |ext| + |key| + |payload|..] == rest
  {
  }

  lemma LengthRead(n: nat, form: LenForm)
    requires Fits(n, form)
    ensures ExtSize(LenCode(n, form)) == |LenExt(n, form)|
    ensures n == if form == Short then LenCode(n, form) else FromBE(LenExt(n, form))
  {
    Pow256Values();
    match form {
      case Short =>
      case Medium => FromBEOfBE(n, 2);
      case Long => FromBEOfBE(n, 8);
    }
  }

  lemma UnmaskOfClientWire(f: Frame, key: nat, rest: bytes)
    requires |f.payload| < HIGH_BIT
    ensures Unmask(ClientWire(f, key) + rest) == ServerWire(f, ShortestForm(|f.payload|)) + Unmask(rest)
  {
    var n, mask := |f.payload|, BE(key, 4);
    var form := ShortestForm(n);
    var code, ext, masked := LenCode(n, form), LenExt(n, form), Masked(f.payload, mask);
    MaskedSlices(FirstByte(f), 128 + code, ext, mask, masked, rest);
    LengthRead(n, form);
    MaskedTwice(f.payload, mask);
    assert ClientWire(f, key) + rest == [FirstByte(f), 128 + code] + ext + mask + masked + rest;
  }

  // ----- Runs of frames -----

  function ServerStream(frames: seq<Frame>, forms: seq<LenForm>): bytes
    requires |frames| == |forms|
    requires forall i | 0 <= i < |frames| :: Fits(|frames[i].payload|, forms[i])
  {
    if |frames| == 0 then [] else ServerWire(frames[0], forms[0]) + ServerStream(frames[1..], forms[1..])
  }

  function ShortestForms(frames: seq<Frame>): (forms: seq<LenForm>)
    ensures |forms| == |frames|
    ensures forall i | 0 <= i < |frames| :: forms[i] == ShortestForm(|frames[i].payload|)
  {
    seq(|frames|, i requires 0 <= i < |frames| => ShortestForm(|frames[i].payload|))
  }

  predicate AllLegal(frames: seq<Frame>) {
    forall i | 0 <= i < |frames| :: Legal(frames[i])
  }

  function Concat(chunks: seq<bytes>): bytes {
    if |chunks| == 0 then [] else chunks[0] + Concat(chunks[1..])
  }

  lemma {:induction false} ConcatAppend(a: seq<bytes>, b: seq<bytes>)
    ensures Concat(a + b) == Concat(a) + Concat(b)
  {
    if |a| == 0 {
      assert a + b == b;
    } else {
      assert (a + b)[0] == a[0] && (a + b)[1..] == a[1..] + b;
      ConcatAppend(a[1..], b);
      Assoc(a[0], Concat(a[1..]), Concat(b));
    }
  }

  lemma ConcatOne(chunk: bytes)
    ensures Concat([chunk]) == chunk
  {
    assert Concat([chunk][1..]) == [];
    NilRight(chunk);
  }

  lemma ConcatSnoc(chunks: seq<bytes>, last: bytes)
    ensures Concat(chunks + [last]) == Concat(chunks) + last
  {
    ConcatAppend(chunks, [last]);
    ConcatOne(last);
  }

  predicate AreClientFrames(wires: seq<bytes>, frames: seq<Frame>, keys: seq<nat>) {
    && |wires| == |frames| == |keys|
    && AllLegal(frames)
    && forall i | 0 <= i < |wires| :: wires[i] == ClientWire(frames[i], keys[i])
  }

  /** A concatenation of client frames, unmasked by the peer, is the same frames on the server's wire. */
  lemma {:induction false} UnmaskOfClientFrames(wires: seq<bytes>, frames: seq<Frame>, keys: seq<nat>)
    requires AreClientFrames(wires, frames, keys)
    ensures Unmask(Concat(wires)) == ServerStream(frames, ShortestForms(frames))
  {
    if |wires| > 0 {
      UnmaskOfClientWire(frames[0], keys[0], Concat(wires[1..]));
      UnmaskOfClientFrames(wires[1..], frames[1..], keys[1..]);
      assert ShortestForms(frames)[1..] == ShortestForms(frames[1..]);
    }
  }
}
