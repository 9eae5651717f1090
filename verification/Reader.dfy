/** The receiving end of a stream: `read_message` and the loop around it. */
module Reader {
  import opened Prelude
  import opened Codec

  /** Every message on the stream up to the first incomplete or invalid frame,
      and whether the loop ended quietly at end of stream. */
  datatype Reading = Reading(msgs: seq<Msg>, quiet: bool)

  function ReadAll(b: seq<Byte>, isPeer: PeerId -> bool): Reading
    decreases |b|
  {
    match Decode(b, isPeer)
    case Got(m, rest) => var more := ReadAll(rest, isPeer); Reading([m] + more.msgs, more.quiet)
    case UnexpectedEof => Reading([], true)
    case InvalidData => Reading([], false)
  }

  /** A message that ends the loop: a get request whose response, the one to the
      n-th message, could not be sent. */
  predicate Stops(m: Msg, n: nat, sent: nat -> bool) { m.header.msgType.RmaGetReq? && !sent(n) }

  /** The place of the first message that ends the loop. */
  function FirstStop(ms: seq<Msg>, from: nat, sent: nat -> bool): (i: nat)
    requires from <= |ms|
    ensures from <= i <= |ms|
    ensures i < |ms| ==> Stops(ms[i], i, sent)
    ensures forall j | from <= j < i :: !Stops(ms[j], j, sent)
    decreases |ms| - from
  {
    if from == |ms| || Stops(ms[from], from, sent) then from else FirstStop(ms, from + 1, sent)
  }

  /** What the read loop handles of a stream that delivers `b` and then ends, or
      with `reset` fails with another error: the messages up to the first get
      request that could not be answered, and whether the loop ended quietly. */
  function Handled(b: seq<Byte>, reset: bool, isPeer: PeerId -> bool, sent: nat -> bool): Reading {
    var r := ReadAll(b, isPeer);
    var i := FirstStop(r.msgs, 0, sent);
    if i < |r.msgs| then Reading(r.msgs[..i + 1], false) else Reading(r.msgs, r.quiet && !reset)
  }

  class InStream {
    const data: seq<Byte>
    const reset: bool
    var pos: nat

    constructor (data: seq<Byte>, reset: bool)
      ensures this.data == data && this.reset == reset && pos == 0
    {
      this.data := data;
      this.reset := reset;
      pos := 0;
    }

    ghost predicate Valid() reads this { pos <= |data| }

    ghost function Left(): seq<Byte>
      requires Valid()
      reads this
    {
      data[pos..]
    }

    /** `read_exact`: all `n` bytes, or the end of the stream in whatever way. */
    method ReadExact(n: nat) returns (r: Option<seq<Byte>>)
      requires Valid()
      modifies this
      ensures Valid()
      ensures r.Some? <==> n <= |old(Left())|
      ensures r.Some? ==> r.value == old(Left())[..n] && Left() == old(Left())[n..]
    {
      if n <= |data| - pos {
        r := Some(data[pos..pos + n]);
        pos := pos + n;
      } else {
        pos := |data|;
        r := None;
      }
    }

    /** Reads the three fixed fields after the type byte. */
    method ReadFixed() returns (r: Option<(nat, nat, nat)>)
      requires Valid()
      modifies this
      ensures Valid()
      ensures r.Some? <==> 10 <= |old(Left())|
      ensures
        var b := old(Left());
        r.Some? ==> r.value == (FromBE(b[0..4]), FromBE(b[4..8]), FromBE(b[8..10])) && Left() == b[10..]
    {
      hide FromBE;
      var b4 := ReadExact(4);
      if b4.None? { return None; }
      var tag := FromBE(b4.value);
      b4 := ReadExact(4);
      if b4.None? { return None; }
      var size := FromBE(b4.value);
      var b2 := ReadExact(2);
      if b2.None? { return None; }
      ghost var b := old(Left());
      assert b[4..][..4] == b[4..8] && b[8..][..2] == b[8..10];
      r := Some((tag, size, FromBE(b2.value)));
    }

    /** Reads the five RMA fields. */
    method ReadRma() returns (r: Option<seq<nat>>)
      requires Valid()
      modifies this
      ensures Valid()
      ensures r.Some? <==> 40 <= |old(Left())|
      ensures
        var b := old(Left());
        r.Some? ==>
          && r.value == [FromBE(b[0..8]), FromBE(b[8..16]), FromBE(b[16..24]), FromBE(b[24..32]), FromBE(b[32..40])]
          && Left() == b[40..]
    {
      hide FromBE;
      ghost var b := old(Left());
      var fs: seq<nat> := [];
      var i := 0;
      while i < 5
        invariant 0 <= i <= 5 && |fs| == i
        invariant Valid() && 8 * i <= |b| && Left() == b[8 * i..]
        invariant forall j | 0 <= j < i :: fs[j] == FromBE(b[8 * j..8 * j + 8])
      {
        var b8 := ReadExact(8);
        if b8.None? { return None; }
        assert b[8 * i..][..8] == b[8 * i..8 * i + 8];
        fs := fs + [FromBE(b8.value)];
        i := i + 1;
      }
      r := Some(fs);
    }

    /** Reads the payload of a frame whose header is known; `b` is the frame
        from its start and `at` the payload's place in it. */
    method ReadPayload(h: Header, ghost b: seq<Byte>, ghost at: nat) returns (r: ReadResult)
      requires Valid() && at <= |b| && Left() == b[at..]
      modifies this
      ensures Valid()
      ensures
        var end := at + h.payloadSize;
        r == if |b| < end then UnexpectedEof else Got(Msg(h, b[at..end]), b[end..])
      ensures r.Got? ==> Left() == r.rest
    {
      var payload := ReadExact(h.payloadSize);
      if payload.None? { return UnexpectedEof; }
      r := Got(Msg(h, payload.value), data[pos..]);
    }

    /** Reads RMA fields and payload. */
    method ReadRest(t: MessageType, tag: nat, size: nat, peer: PeerId, ghost b: seq<Byte>) returns (r: ReadResult)
      requires Valid() && |b| >= 11 + |peer| && Left() == b[11 + |peer|..] && peer == b[11..11 + |peer|]
      requires tag == FromBE(b[1..5]) && size == FromBE(b[5..9])
      modifies this
      ensures Valid()
      ensures r == DecodeRest(b, t, |peer|)
      ensures r.Got? ==> Left() == r.rest
    {
      hide FromBE;
      var rma := ReadRma();
      if rma.None? { return UnexpectedEof; }
      var f := rma.value;
      ghost var n := |peer|;
      RmaSlices(b, n);
      var h := Header(t, tag, size, peer, f[0], f[1], f[2], f[3], f[4]);
      assert h == HeaderAt(b, t, n);
      assert Left() == b[51 + n..];
      r := ReadPayload(h, b, 51 + n);
    }

    /** Reads peer id, RMA fields and payload. */
    method ReadBody(isPeer: PeerId -> bool, t: MessageType, tag: nat, size: nat, n: nat, ghost b: seq<Byte>)
      returns (r: ReadResult)
      requires Valid() && |b| >= 11 && Left() == b[11..]
      requires tag == FromBE(b[1..5]) && size == FromBE(b[5..9])
      modifies this
      ensures Valid()
      ensures r == DecodeBody(b, t, n, isPeer)
      ensures r.Got? ==> Left() == r.rest
    {
      hide FromBE, DecodeRest;
      var peer := ReadExact(n);
      if peer.None? { return UnexpectedEof; }
      assert peer.value == b[11..11 + n];
      if !isPeer(peer.value) { return InvalidData; }
      assert Left() == b[11 + n..];
      r := ReadRest(t, tag, size, peer.value, b);
    }

    method ReadMessage(isPeer: PeerId -> bool) returns (r: ReadResult)
      requires Valid()
      modifies this
      ensures Valid()
      ensures r == Decode(old(Left()), isPeer)
      ensures r.Got? ==> Left() == r.rest
    {
      hide FromBE, FromU8, DecodeBody;
      ghost var b := old(Left());
      var b1 := ReadExact(1);
      if b1.None? { return UnexpectedEof; }
      var t := FromU8(b1.value[0]);
      if t.None? { return InvalidData; }
      var fixed := ReadFixed();
      if fixed.None? { return UnexpectedEof; }
      var (tag, size, n) := fixed.value;
      assert b[1..][0..4] == b[1..5] && b[1..][4..8] == b[5..9] && b[1..][8..10] == b[9..11];
      assert Left() == b[11..];
      r := ReadBody(isPeer, t.value, tag, size, n, b);
    }
  }

  lemma RmaSlices(b: seq<Byte>, n: nat)
    requires |b| >= 51 + n
    ensures b[11 + n..][0..8] == b[11 + n..19 + n] && b[11 + n..][8..16] == b[19 + n..27 + n]
    ensures b[11 + n..][16..24] == b[27 + n..35 + n] && b[11 + n..][24..32] == b[35 + n..43 + n]
    ensures b[11 + n..][32..40] == b[43 + n..51 + n]
  {
  }

  lemma StopsAt(b: seq<Byte>, reset: bool, isPeer: PeerId -> bool, sent: nat -> bool, msgs: seq<Msg>)
    requires msgs != [] && msgs <= ReadAll(b, isPeer).msgs && Stops(msgs[|msgs| - 1], |msgs| - 1, sent)
    requires forall j | 0 <= j < |msgs| - 1 :: !Stops(msgs[j], j, sent)
    ensures Handled(b, reset, isPeer, sent) == Reading(msgs, false)
  {
    hide ReadAll;
    var all, i := ReadAll(b, isPeer).msgs, |msgs| - 1;
    assert forall j | 0 <= j < |msgs| :: all[j] == msgs[j];
    assert FirstStop(all, 0, sent) == i;
    assert all[..i + 1] == msgs;
  }

  lemma NeverStops(b: seq<Byte>, reset: bool, isPeer: PeerId -> bool, sent: nat -> bool)
    requires var ms := ReadAll(b, isPeer).msgs; forall j | 0 <= j < |ms| :: !Stops(ms[j], j, sent)
    ensures
      var r := ReadAll(b, isPeer);
      Handled(b, reset, isPeer, sent) == Reading(r.msgs, r.quiet && !reset)
  {
    hide ReadAll;
  }

  /** The read loop of `handle_incoming_stream`; `sent` says of each message, by
      its number, whether a response to it can be sent. */
  method HandleStream(stream: InStream, isPeer: PeerId -> bool, sent: nat -> bool) returns (out: Reading)
    requires stream.Valid()
    modifies stream
    ensures out == Handled(old(stream.Left()), stream.reset, isPeer, sent)
  {
    hide Decode, ReadAll, Handled, FirstStop, Stops;
    var msgs: seq<Msg> := [];
    ghost var start := stream.Left();
    assert msgs + ReadAll(start, isPeer).msgs == ReadAll(start, isPeer).msgs;
    while true
      invariant stream.Valid()
      invariant ReadAll(start, isPeer).msgs == msgs + ReadAll(stream.Left(), isPeer).msgs
      invariant ReadAll(start, isPeer).quiet == ReadAll(stream.Left(), isPeer).quiet
      invariant forall j | 0 <= j < |msgs| :: !Stops(msgs[j], j, sent)
      decreases |stream.Left()|
    {
      ghost var b := stream.Left();
      var r := stream.ReadMessage(isPeer);
      ReadOne(b, isPeer, msgs);
      match r {
        case Got(m, _) =>
          msgs := msgs + [m];
          if Stops(m, |msgs| - 1, sent) {
            StopsAt(start, stream.reset, isPeer, sent, msgs);
            return Reading(msgs, false);
          }
        case UnexpectedEof =>
          NeverStops(start, stream.reset, isPeer, sent);
          return Reading(msgs, !stream.reset);
        case InvalidData =>
          NeverStops(start, stream.reset, isPeer, sent);
          return Reading(msgs, false);
      }
    }
  }

  /** One turn of the loop, after `msgs`. */
  lemma ReadOne(b: seq<Byte>, isPeer: PeerId -> bool, msgs: seq<Msg>)
    ensures
      var r, d := ReadAll(b, isPeer), Decode(b, isPeer);
      if d.Got? then
        && |d.rest| < |b| && r.quiet == ReadAll(d.rest, isPeer).quiet
        && msgs + r.msgs == msgs + [d.msg] + ReadAll(d.rest, isPeer).msgs
      else msgs + r.msgs == msgs && r.quiet == d.UnexpectedEof?
  {
    hide Decode;
    var d := Decode(b, isPeer);
    if d.Got? {
      var more := ReadAll(d.rest, isPeer).msgs;
      assert msgs + ([d.msg] + more) == msgs + [d.msg] + more;
    }
  }

  /** Message `n` read from the stream is handled exactly when every get request
      before it could be answered; the loop ends quietly exactly when all could,
      the frames were valid and the stream just ended. */
  lemma HandledMeans(b: seq<Byte>, reset: bool, isPeer: PeerId -> bool, sent: nat -> bool, n: nat)
    requires n < |ReadAll(b, isPeer).msgs|
    ensures
      var r, h := ReadAll(b, isPeer), Handled(b, reset, isPeer, sent);
      && h.msgs <= r.msgs
      && (n < |h.msgs| <==> forall j | 0 <= j < n :: r.msgs[j].header.msgType == RmaGetReq ==> sent(j))
      && (h.quiet <==> r.quiet && !reset && forall j | 0 <= j < |r.msgs| :: r.msgs[j].header.msgType == RmaGetReq ==> sent(j))
  {
    hide ReadAll;
    var ms := ReadAll(b, isPeer).msgs;
    assert forall j | 0 <= j < |ms| :: Stops(ms[j], j, sent) <==> ms[j].header.msgType == RmaGetReq && !sent(j);
  }

  /** When every request can be answered and the stream just ends, the loop
      handles all its messages. */
  lemma AllHandled(b: seq<Byte>, isPeer: PeerId -> bool, sent: nat -> bool)
    requires forall i | 0 <= i < |ReadAll(b, isPeer).msgs| :: sent(i)
    ensures Handled(b, false, isPeer, sent) == ReadAll(b, isPeer)
  {
    hide ReadAll, Handled;
    NeverStops(b, false, isPeer, sent);
  }

  // ---------------------------------------------------------------------
  //  What a stream of frames reads as
  // ---------------------------------------------------------------------

  function EncodeAll(ms: seq<Msg>): seq<Byte> {
    if ms == [] then [] else
      var k := |ms| - 1;
      EncodeAll(ms[..k]) + Encode(ms[k])
  }

  ghost predicate AllSendable(ms: seq<Msg>, isPeer: PeerId -> bool) {
    forall i | 0 <= i < |ms| :: Sendable(ms[i], isPeer)
  }

  /** Bytes of a frame that broke off: possibly none, never all of it. */
  ghost predicate Broken(tail: seq<Byte>, m: Msg) { tail < Encode(m) }

  lemma {:induction false} ReadAllOf(ms: seq<Msg>, rest: seq<Byte>, isPeer: PeerId -> bool)
    requires AllSendable(ms, isPeer)
    ensures
      var r := ReadAll(rest, isPeer);
      ReadAll(EncodeAll(ms) + rest, isPeer) == Reading(ms + r.msgs, r.quiet)
    decreases |ms|
  {
    hide Encode, Decode, Sendable;
    if ms == [] {
      assert EncodeAll(ms) + rest == rest;
    } else {
      var k := |ms| - 1;
      var m := ms[k];
      assert Sendable(m, isPeer);
      DecodeEncode(m, rest, isPeer);
      var r := ReadAll(rest, isPeer);
      assert ReadAll(Encode(m) + rest, isPeer) == Reading([m] + r.msgs, r.quiet);
      ReadAllOf(ms[..k], Encode(m) + rest, isPeer);
      assert EncodeAll(ms) + rest == EncodeAll(ms[..k]) + (Encode(m) + rest);
      assert ms[..k] + ([m] + r.msgs) == ms + r.msgs;
    }
  }

  /** A stream of whole frames with at most one broken frame at its end reads as
      exactly the whole frames, and the loop ends quietly. */
  lemma StreamReadsWholeFrames(ms: seq<Msg>, tail: seq<Byte>, cut: Msg, isPeer: PeerId -> bool)
    requires AllSendable(ms, isPeer)
    requires tail == [] || (Sendable(cut, isPeer) && Broken(tail, cut))
    ensures ReadAll(EncodeAll(ms) + tail, isPeer) == Reading(ms, true)
  {
    hide Encode, Sendable;
    if tail != [] {
      CutFrameIsEof(cut, |tail|, isPeer);
      assert tail == Encode(cut)[..|tail|];
    }
    assert Decode(tail, isPeer) == UnexpectedEof;
    ReadAllOf(ms, tail, isPeer);
    assert ms + [] == ms;
  }

  /** An unknown type byte, or a frame that names no peer, after whole frames: the
      loop handles the whole frames and ends with an error. */
  lemma BadFrameEndsLoop(ms: seq<Msg>, bad: Msg, v: Byte, rest: seq<Byte>, isPeer: PeerId -> bool)
    requires AllSendable(ms, isPeer)
    ensures v == 0 || v > 5 ==> ReadAll(EncodeAll(ms) + ([v] + rest), isPeer) == Reading(ms, false)
    ensures !isPeer(bad.header.source) && |bad.header.source| < U16 ==>
              ReadAll(EncodeAll(ms) + (Encode(bad) + rest), isPeer) == Reading(ms, false)
  {
    hide Encode, Decode, AllSendable;
    BadFrameIsInvalid(bad, rest, isPeer, v);
    ReadAllOf(ms, [v] + rest, isPeer);
    ReadAllOf(ms, Encode(bad) + rest, isPeer);
    assert ms + [] == ms;
  }
}
