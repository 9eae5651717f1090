/** The wire format: one frame is a fixed header, the sender's length-prefixed
    peer id, five RMA fields and the payload, all integers big-endian. */
module Codec {
  import opened Prelude

  // ---- Big-endian integers ------------------------------------------------

  function Pow256(w: nat): (p: nat)
    ensures p >= 1
  {
    if w == 0 then 1 else 256 * Pow256(w - 1)
  }

  /** The low `w` bytes of `n`, most significant first; higher bytes are lost,
      as in a Rust `as` cast to a narrower unsigned type. */
  function ToBE(n: nat, w: nat): (bs: seq<Byte>)
    ensures |bs| == w
  {
    if w == 0 then [] else ToBE(n / 256, w - 1) + [n % 256]
  }

  function FromBE(bs: seq<Byte>): (n: nat)
    ensures n < Pow256(|bs|)
  {
    if bs == [] then 0 else
      var k := |bs| - 1;
      FromBE(bs[..k]) * 256 + bs[k]
  }

  lemma DivMod(n: nat, p: nat)
    requires p >= 1
    ensures n % (256 * p) == (n / 256 % p) * 256 + n % 256
  {
    var q, r := n / 256, n % 256;
    assert q == p * (q / p) + q % p;
    var rest := (q % p) * 256 + r;
    assert n == 256 * p * (q / p) + rest;
    assert rest < 256 * p by { assert q % p <= p - 1; }
    Residue(n, 256 * p, q / p, rest);
  }

  lemma Residue(n: nat, m: nat, q: nat, r: nat)
    requires m >= 1 && n == m * q + r && r < m
    ensures n % m == r && n / m == q
  {
    var d := n / m - q;
    assert n == m * (n / m) + n % m;
    assert m * d == r - n % m;
    assert d >= 1 ==> m * d >= m;
    assert d <= -1 ==> m * d <= 0 - m;
  }

  lemma DivDiv(n: nat, p: nat)
    requires p >= 1
    ensures n / 256 / p == n / (256 * p)
  {
    var q, r := n / 256, n % 256;
    assert q == p * (q / p) + q % p;
    var rest := (q % p) * 256 + r;
    assert n == 256 * p * (q / p) + rest;
    assert rest < 256 * p by { assert q % p <= p - 1; }
    Residue(n, 256 * p, q / p, rest);
  }

  /** Most significant byte first: the byte at place `i` has weight 256^(w - 1 - i). */
  lemma {:induction false} ToBEDigit(n: nat, w: nat, i: nat)
    requires i < w
    ensures ToBE(n, w)[i] == n / Pow256(w - 1 - i) % 256
    decreases w
  {
    if i == w - 1 {
      assert Pow256(0) == 1;
    } else {
      ToBEDigit(n / 256, w - 1, i);
      DivDiv(n, Pow256(w - 2 - i));
    }
  }

  /** Reading gives the first byte the highest weight. */
  lemma {:induction false} FromBEFirst(b: Byte, bs: seq<Byte>)
    ensures FromBE([b] + bs) == b * Pow256(|bs|) + FromBE(bs)
    decreases |bs|
  {
    if bs == [] {
      assert [b] + bs == [b];
      assert [b][..0] == [];
    } else {
      var k := |bs| - 1;
      FromBEFirst(b, bs[..k]);
      assert ([b] + bs)[..k + 1] == [b] + bs[..k];
      assert ([b] + bs)[k + 1] == bs[k];
      assert (b * Pow256(k)) * 256 == b * (256 * Pow256(k));
    }
  }

  /** The bytes are the number, most significant first. */
  ghost predicate BigEndian(bs: seq<Byte>, n: nat) {
    forall i | 0 <= i < |bs| :: bs[i] == n / Pow256(|bs| - 1 - i) % 256
  }

  lemma ToBEIsBigEndian(n: nat, w: nat)
    ensures BigEndian(ToBE(n, w), n)
  {
    hide ToBE;
    forall i | 0 <= i < w ensures ToBE(n, w)[i] == n / Pow256(w - 1 - i) % 256 { ToBEDigit(n, w, i); }
  }

  lemma {:induction false} FromTo(n: nat, w: nat)
    ensures FromBE(ToBE(n, w)) == n % Pow256(w)
    decreases w
  {
    if w > 0 {
      FromTo(n / 256, w - 1);
      assert ToBE(n, w)[..w - 1] == ToBE(n / 256, w - 1);
      DivMod(n, Pow256(w - 1));
    }
  }

  lemma {:induction false} ToFrom(bs: seq<Byte>)
    ensures ToBE(FromBE(bs), |bs|) == bs
    decreases |bs|
  {
    if bs != [] {
      var k := |bs| - 1;
      ToFrom(bs[..k]);
      assert bs == bs[..k] + [bs[k]];
    }
  }

  const U16 := 0x1_0000
  const U32 := 0x1_0000_0000
  const U64 := 0x1_0000_0000_0000_0000

  lemma Widths()
    ensures Pow256(2) == U16 && Pow256(4) == U32 && Pow256(8) == U64
  {
    assert Pow256(3) == 0x100_0000;
    assert Pow256(4) == U32;
    assert Pow256(6) == 0x1_0000_0000_0000;
  }

  // ---- Header and frame -----------------------------------------------------

  datatype MessageType = Unexpected | Expected | RmaPut | RmaGetReq | RmaGetResp

  function TypeByte(t: MessageType): Byte {
    match t
    case Unexpected => 1
    case Expected => 2
    case RmaPut => 3
    case RmaGetReq => 4
    case RmaGetResp => 5
  }

  function FromU8(v: Byte): (t: Option<MessageType>)
    ensures t.Some? ==> TypeByte(t.value) == v
    ensures t.None? <==> forall u: MessageType :: TypeByte(u) != v
  {
    match v
    case 1 => Some(Unexpected)
    case 2 => Some(Expected)
    case 3 => Some(RmaPut)
    case 4 => Some(RmaGetReq)
    case 5 => Some(RmaGetResp)
    case _ =>
      assert forall u: MessageType :: TypeByte(u) != v;
      None
  }

  datatype Header = Header(
    msgType: MessageType,
    tag: nat,
    payloadSize: nat,
    source: PeerId,
    handleId: nat,
    offset: nat,
    rmaLength: nat,
    localHandleId: nat,
    localOffset: nat)

  datatype Msg = Msg(header: Header, payload: seq<Byte>)

  /** The header's fields fit their Rust types. */
  predicate Typed(h: Header) {
    && h.tag < U32 && h.payloadSize < U32
    && h.handleId < U64 && h.offset < U64 && h.rmaLength < U64
    && h.localHandleId < U64 && h.localOffset < U64
  }

  function Head(h: Header): (b: seq<Byte>)
    ensures |b| == 11
  {
    [TypeByte(h.msgType)] + ToBE(h.tag, 4) + ToBE(h.payloadSize, 4) + ToBE(|h.source|, 2)
  }

  function Tail(h: Header): (b: seq<Byte>)
    ensures |b| == 40
  {
    ToBE(h.handleId, 8) + ToBE(h.offset, 8) + ToBE(h.rmaLength, 8)
    + ToBE(h.localHandleId, 8) + ToBE(h.localOffset, 8)
  }

  function Encode(m: Msg): seq<Byte> {
    Head(m.header) + m.header.source + Tail(m.header) + m.payload
  }

  /** `write_message` builds the frame field by field. */
  method WriteMessage(m: Msg) returns (buf: seq<Byte>)
    ensures buf == Encode(m)
  {
    var h := m.header;
    buf := [TypeByte(h.msgType)];
    buf := buf + ToBE(h.tag, 4);
    buf := buf + ToBE(h.payloadSize, 4);
    buf := buf + ToBE(|h.source|, 2);
    assert buf == Head(h);
    buf := buf + h.source;
    var rma := ToBE(h.handleId, 8);
    rma := rma + ToBE(h.offset, 8);
    rma := rma + ToBE(h.rmaLength, 8);
    rma := rma + ToBE(h.localHandleId, 8);
    rma := rma + ToBE(h.localOffset, 8);
    buf := buf + rma;
    buf := buf + m.payload;
  }

  datatype ReadResult = Got(msg: Msg, rest: seq<Byte>) | UnexpectedEof | InvalidData

  function HeaderAt(b: seq<Byte>, t: MessageType, n: nat): Header
    requires |b| >= 51 + n
  {
    Header(t, FromBE(b[1..5]), FromBE(b[5..9]), b[11..11 + n],
           FromBE(b[11 + n..19 + n]), FromBE(b[19 + n..27 + n]), FromBE(b[27 + n..35 + n]),
           FromBE(b[35 + n..43 + n]), FromBE(b[43 + n..51 + n]))
  }

  /** The frame after its peer id of `n` bytes was read. */
  function DecodeRest(b: seq<Byte>, t: MessageType, n: nat): (r: ReadResult)
    ensures r.Got? ==> |r.rest| < |b|
  {
    if |b| < 51 + n then UnexpectedEof
    else
      var h := HeaderAt(b, t, n);
      var end := 51 + n + h.payloadSize;
      if |b| < end then UnexpectedEof else Got(Msg(h, b[51 + n..end]), b[end..])
  }

  /** The frame after its type and its three fixed fields were read. */
  function DecodeBody(b: seq<Byte>, t: MessageType, n: nat, isPeer: PeerId -> bool): (r: ReadResult)
    ensures r.Got? ==> |r.rest| < |b|
  {
    if |b| < 11 + n then UnexpectedEof
    else if !isPeer(b[11..11 + n]) then InvalidData
    else DecodeRest(b, t, n)
  }

  /** What `read_message` finds at the front of the bytes still to be read;
      `isPeer` says which byte strings are peer ids. */
  function Decode(b: seq<Byte>, isPeer: PeerId -> bool): (r: ReadResult)
    ensures r.Got? ==> |r.rest| < |b|
  {
    if |b| < 1 then UnexpectedEof
    else var t := FromU8(b[0]);
      if t.None? then InvalidData
      else if |b| < 11 then UnexpectedEof
      else DecodeBody(b, t.value, FromBE(b[9..11]), isPeer)
  }

  /** A message whose frame the receiver can make sense of. */
  predicate Sendable(m: Msg, isPeer: PeerId -> bool) {
    && Typed(m.header) && isPeer(m.header.source) && |m.header.source| < U16
    && m.header.payloadSize == |m.payload|
  }

  lemma HeadFields(h: Header)
    ensures Head(h)[0] == TypeByte(h.msgType)
    ensures Head(h)[1..5] == ToBE(h.tag, 4) && Head(h)[5..9] == ToBE(h.payloadSize, 4)
    ensures Head(h)[9..11] == ToBE(|h.source|, 2)
  {
  }

  lemma TailFields(h: Header)
    ensures Tail(h)[0..8] == ToBE(h.handleId, 8) && Tail(h)[8..16] == ToBE(h.offset, 8)
    ensures Tail(h)[16..24] == ToBE(h.rmaLength, 8) && Tail(h)[24..32] == ToBE(h.localHandleId, 8)
    ensures Tail(h)[32..40] == ToBE(h.localOffset, 8)
  {
  }

  lemma SliceAt<T>(b: seq<T>, a: seq<T>, x: seq<T>, c: seq<T>, i: nat, j: nat)
    requires b == a + x + c && i <= j <= |x|
    ensures b[|a| + i..|a| + j] == x[i..j]
  {
  }

  lemma FrameHead(m: Msg, rest: seq<Byte>)
    ensures
      var b, h := Encode(m) + rest, m.header;
      && |b| == 51 + |h.source| + |m.payload| + |rest|
      && b[0] == TypeByte(h.msgType)
      && b[1..5] == ToBE(h.tag, 4) && b[5..9] == ToBE(h.payloadSize, 4) && b[9..11] == ToBE(|h.source|, 2)
  {
    hide Head, Tail, ToBE;
    var b, h := Encode(m) + rest, m.header;
    HeadFields(h);
    var more := h.source + Tail(h) + m.payload + rest;
    assert b == [] + Head(h) + more;
    SliceAt(b, [], Head(h), more, 1, 5);
    SliceAt(b, [], Head(h), more, 5, 9);
    SliceAt(b, [], Head(h), more, 9, 11);
  }

  lemma FramePeer(m: Msg, rest: seq<Byte>)
    ensures
      var b, h, n := Encode(m) + rest, m.header, |m.header.source|;
      |b| >= 51 + n && b[11..11 + n] == h.source && b[51 + n..] == m.payload + rest
  {
    hide Head, Tail;
    var b, h, n := Encode(m) + rest, m.header, |m.header.source|;
    assert b == Head(h) + h.source + (Tail(h) + m.payload + rest);
    SliceAt(b, Head(h), h.source, Tail(h) + m.payload + rest, 0, n);
    assert b == (Head(h) + h.source + Tail(h)) + (m.payload + rest);
  }

  lemma FrameTail(m: Msg, rest: seq<Byte>)
    ensures
      var b, h, n := Encode(m) + rest, m.header, |m.header.source|;
      && |b| >= 51 + n
      && b[11 + n..19 + n] == ToBE(h.handleId, 8) && b[19 + n..27 + n] == ToBE(h.offset, 8)
      && b[27 + n..35 + n] == ToBE(h.rmaLength, 8) && b[35 + n..43 + n] == ToBE(h.localHandleId, 8)
      && b[43 + n..51 + n] == ToBE(h.localOffset, 8)
  {
    hide Head, Tail, ToBE;
    var b, h := Encode(m) + rest, m.header;
    TailFields(h);
    var front, back := Head(h) + h.source, m.payload + rest;
    assert b == front + Tail(h) + back;
    SliceAt(b, front, Tail(h), back, 0, 8);
    SliceAt(b, front, Tail(h), back, 8, 16);
    SliceAt(b, front, Tail(h), back, 16, 24);
    SliceAt(b, front, Tail(h), back, 24, 32);
    SliceAt(b, front, Tail(h), back, 32, 40);
  }

  /** The numbers of the message types, on both ends. */
  lemma TypeNumbers(v: Byte)
    ensures TypeByte(Unexpected) == 1 && TypeByte(Expected) == 2
    ensures TypeByte(RmaPut) == 3 && TypeByte(RmaGetReq) == 4 && TypeByte(RmaGetResp) == 5
    ensures FromU8(1) == Some(Unexpected) && FromU8(2) == Some(Expected)
    ensures FromU8(3) == Some(RmaPut) && FromU8(4) == Some(RmaGetReq) && FromU8(5) == Some(RmaGetResp)
    ensures FromU8(v).None? <==> v == 0 || v > 5
  {
  }

  /** Every integer of a frame, by place, is big-endian on the wire. */
  lemma FrameIsBigEndian(m: Msg, rest: seq<Byte>)
    ensures
      var b, h, n := Encode(m) + rest, m.header, |m.header.source|;
      && |b| >= 51 + n
      && BigEndian(b[1..5], h.tag) && BigEndian(b[5..9], h.payloadSize) && BigEndian(b[9..11], n)
      && BigEndian(b[11 + n..19 + n], h.handleId) && BigEndian(b[19 + n..27 + n], h.offset)
      && BigEndian(b[27 + n..35 + n], h.rmaLength) && BigEndian(b[35 + n..43 + n], h.localHandleId)
      && BigEndian(b[43 + n..51 + n], h.localOffset)
  {
    hide Encode, ToBE, BigEndian;
    var h := m.header;
    FrameHead(m, rest);
    FrameTail(m, rest);
    ToBEIsBigEndian(h.tag, 4);
    ToBEIsBigEndian(h.payloadSize, 4);
    ToBEIsBigEndian(|h.source|, 2);
    ToBEIsBigEndian(h.handleId, 8);
    ToBEIsBigEndian(h.offset, 8);
    ToBEIsBigEndian(h.rmaLength, 8);
    ToBEIsBigEndian(h.localHandleId, 8);
    ToBEIsBigEndian(h.localOffset, 8);
  }

  /** A frame that names no peer, or has an unknown type, is invalid. */
  lemma BadFrameIsInvalid(m: Msg, rest: seq<Byte>, isPeer: PeerId -> bool, v: Byte)
    ensures !isPeer(m.header.source) && |m.header.source| < U16 ==> Decode(Encode(m) + rest, isPeer) == InvalidData
    ensures v == 0 || v > 5 ==> Decode([v] + rest, isPeer) == InvalidData
  {
    hide Encode, ToBE, FromBE, DecodeRest;
    var n := |m.header.source|;
    FrameHead(m, rest);
    FramePeer(m, rest);
    TypeRoundTrip(m.header.msgType);
    Widths();
    FromTo(n, 2);
    TypeNumbers(v);
  }

  lemma TypeRoundTrip(t: MessageType)
    ensures FromU8(TypeByte(t)) == Some(t)
  {
  }

  /** The header read from a frame, whatever size the header announces. */
  lemma FrameHeader(m: Msg, rest: seq<Byte>)
    requires Typed(m.header)
    ensures
      var b, n := Encode(m) + rest, |m.header.source|;
      |b| >= 51 + n && HeaderAt(b, m.header.msgType, n) == m.header
  {
    hide Encode, ToBE, FromBE;
    var h := m.header;
    FrameHead(m, rest);
    FramePeer(m, rest);
    FrameTail(m, rest);
    Widths();
    FromTo(h.tag, 4);
    FromTo(h.payloadSize, 4);
    FromTo(h.handleId, 8);
    FromTo(h.offset, 8);
    FromTo(h.rmaLength, 8);
    FromTo(h.localHandleId, 8);
    FromTo(h.localOffset, 8);
  }

  /** What the receiver makes of a frame whose payload may be longer than its
      header says: it takes the announced bytes and leaves the others on the
      stream as the start of the next frame. */
  lemma DecodeFrame(m: Msg, rest: seq<Byte>, isPeer: PeerId -> bool)
    requires Typed(m.header) && isPeer(m.header.source) && |m.header.source| < U16
    requires m.header.payloadSize <= |m.payload|
    ensures
      var k := m.header.payloadSize;
      Decode(Encode(m) + rest, isPeer) == Got(Msg(m.header, m.payload[..k]), m.payload[k..] + rest)
  {
    hide Encode, ToBE, FromBE, HeaderAt;
    var b, h, n := Encode(m) + rest, m.header, |m.header.source|;
    FrameHead(m, rest);
    FramePeer(m, rest);
    FrameHeader(m, rest);
    TypeRoundTrip(h.msgType);
    Widths();
    FromTo(n, 2);
    var k := h.payloadSize;
    assert b[51 + n..51 + n + k] == b[51 + n..][..k] == m.payload[..k];
    assert b[51 + n + k..] == b[51 + n..][k..] == m.payload[k..] + rest;
  }

  /** Reading back what was written gives the message and the rest of the stream. */
  lemma DecodeEncode(m: Msg, rest: seq<Byte>, isPeer: PeerId -> bool)
    requires Sendable(m, isPeer)
    ensures Decode(Encode(m) + rest, isPeer) == Got(m, rest)
  {
    hide Encode, Decode;
    DecodeFrame(m, rest, isPeer);
    assert m.payload[..|m.payload|] == m.payload && m.payload[|m.payload|..] + rest == rest;
  }

  /** The sender fills in `payload.len() as u32`. */
  function Stamped(h: Header, payload: seq<Byte>): Msg {
    Msg(h.(payloadSize := |payload| % U32), payload)
  }

  /** A payload survives the trip exactly when its length fits the 32-bit size
      field; a longer one leaves the rest of itself on the stream as garbage. */
  lemma PayloadSurvives(h: Header, payload: seq<Byte>, rest: seq<Byte>, isPeer: PeerId -> bool)
    requires Typed(h) && isPeer(h.source) && |h.source| < U16
    ensures Decode(Encode(Stamped(h, payload)) + rest, isPeer) == Got(Stamped(h, payload), rest)
            <==> |payload| < U32
  {
    hide Encode, Decode;
    var m := Stamped(h, payload);
    DecodeFrame(m, rest, isPeer);
    if |payload| < U32 {
      DecodeEncode(m, rest, isPeer);
    } else {
      assert |m.payload[..m.header.payloadSize]| < |payload|;
    }
  }

  /** Four gibibytes of payload: the receiver sees an empty message. */
  lemma OversizedPayloadIsLost(h: Header, rest: seq<Byte>, isPeer: PeerId -> bool)
    requires Typed(h) && isPeer(h.source) && |h.source| < U16
    ensures
      var payload: seq<Byte> := seq(U32, _ => 0);
      Decode(Encode(Stamped(h, payload)) + rest, isPeer)
        == Got(Msg(h.(payloadSize := 0), []), payload + rest)
  {
    hide Encode, Decode;
    var payload: seq<Byte> := seq(U32, _ => 0);
    DecodeFrame(Stamped(h, payload), rest, isPeer);
    assert payload[0..] == payload;
  }

  /** Whatever `read_message` accepts is the frame of the message it returns. */
  lemma EncodeDecode(b: seq<Byte>, isPeer: PeerId -> bool)
    requires Decode(b, isPeer).Got?
    ensures
      var r := Decode(b, isPeer);
      Sendable(r.msg, isPeer) && b == Encode(r.msg) + r.rest
  {
    hide ToBE, FromBE;
    var r := Decode(b, isPeer);
    var h, n := r.msg.header, FromBE(b[9..11]);
    assert n == |h.source|;
    HeadBack(b, h);
    TailBack(b, h, n);
    Widths();
    assert b == b[..11] + b[11..11 + n] + b[11 + n..51 + n] + b[51 + n..51 + n + h.payloadSize] + b[51 + n + h.payloadSize..];
  }

  lemma HeadBack(b: seq<Byte>, h: Header)
    requires |b| >= 11 && TypeByte(h.msgType) == b[0]
    requires h.tag == FromBE(b[1..5]) && h.payloadSize == FromBE(b[5..9]) && |h.source| == FromBE(b[9..11])
    ensures Head(h) == b[..11] && h.tag < U32 && h.payloadSize < U32 && |h.source| < U16
  {
    ToFrom(b[1..5]);
    ToFrom(b[5..9]);
    ToFrom(b[9..11]);
    Widths();
    assert b[..11] == [b[0]] + b[1..5] + b[5..9] + b[9..11];
  }

  lemma TailBack(b: seq<Byte>, h: Header, n: nat)
    requires |b| >= 51 + n
    requires h.handleId == FromBE(b[11 + n..19 + n]) && h.offset == FromBE(b[19 + n..27 + n])
    requires h.rmaLength == FromBE(b[27 + n..35 + n]) && h.localHandleId == FromBE(b[35 + n..43 + n])
    requires h.localOffset == FromBE(b[43 + n..51 + n])
    ensures Tail(h) == b[11 + n..51 + n]
    ensures h.handleId < U64 && h.offset < U64 && h.rmaLength < U64 && h.localHandleId < U64 && h.localOffset < U64
  {
    hide FromBE, ToBE;
    ToFrom(b[11 + n..19 + n]);
    ToFrom(b[19 + n..27 + n]);
    ToFrom(b[27 + n..35 + n]);
    ToFrom(b[35 + n..43 + n]);
    ToFrom(b[43 + n..51 + n]);
    Widths();
    assert b[11 + n..51 + n]
        == b[11 + n..19 + n] + b[19 + n..27 + n] + b[27 + n..35 + n] + b[35 + n..43 + n] + b[43 + n..51 + n];
  }

  /** A frame cut short reads as end of stream, never as another message or as
      garbage. */
  lemma CutFrameIsEof(m: Msg, cut: nat, isPeer: PeerId -> bool)
    requires Sendable(m, isPeer) && cut < |Encode(m)|
    ensures Decode(Encode(m)[..cut], isPeer) == UnexpectedEof
  {
    hide Encode, ToBE, FromBE, HeaderAt;
    var full, h, n := Encode(m) + [], m.header, |m.header.source|;
    var b := Encode(m)[..cut];
    assert full == Encode(m) && b == full[..cut];
    FrameHead(m, []);
    FramePeer(m, []);
    FrameHeader(m, []);
    TypeRoundTrip(h.msgType);
    Widths();
    FromTo(n, 2);
    if cut >= 1 { assert b[0] == full[0]; }
    if cut >= 11 { assert b[9..11] == full[9..11]; }
    if cut >= 11 + n { assert b[11..11 + n] == full[11..11 + n]; }
    if cut >= 51 + n { HeaderOfPrefix(full, b, h.msgType, n); }
  }

  lemma HeaderOfPrefix(full: seq<Byte>, b: seq<Byte>, t: MessageType, n: nat)
    requires b <= full && |b| >= 51 + n
    ensures HeaderAt(b, t, n) == HeaderAt(full, t, n)
  {
    assert forall i, j | 0 <= i <= j <= 51 + n :: b[i..j] == full[i..j];
  }
}
