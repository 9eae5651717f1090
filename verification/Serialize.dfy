/** Addresses and memory handles as byte strings for other processes. */
module Serialize {
  import opened Prelude
  import opened Buffers
  import opened Codec

  // ---- Writing into a bounded buffer ---------------------------------------

  /** One `write_bytes!`: appends `d` at `pos` unless it would pass `bufSize`.
      `whole` is the full encoding and `was` the buffer's first contents. */
  method WriteBytes(buf: array<Byte>, bufSize: nat, pos: nat, d: seq<Byte>, ghost whole: seq<Byte>, ghost was: seq<Byte>)
    returns (ok: bool)
    requires pos <= bufSize <= buf.Length == |was|
    requires pos + |d| <= |whole| && whole[pos..pos + |d|] == d
    requires buf[..] == Patch(was, 0, whole[..pos])
    modifies buf
    ensures ok <==> pos + |d| <= bufSize
    ensures ok ==> buf[..] == Patch(was, 0, whole[..pos + |d|])
    ensures !ok ==> buf[..] == Patch(was, 0, whole[..pos])
  {
    if pos + |d| > bufSize {
      return false;
    }
    CopyAt(buf, pos, d, |d|);
    assert d[..|d|] == d;
    PatchMore(was, whole, pos, d);
    ok := true;
  }

  lemma PatchMore(was: seq<Byte>, whole: seq<Byte>, pos: nat, d: seq<Byte>)
    requires pos + |d| <= |whole| && pos + |d| <= |was| && whole[pos..pos + |d|] == d
    ensures Patch(Patch(was, 0, whole[..pos]), pos, d) == Patch(was, 0, whole[..pos + |d|])
  {
  }

  /** The outcome of a serializer: all of `whole` at the front of the buffer, or
      overflow with some of it written, never past `bufSize`. */
  ghost predicate Wrote(ok: bool, now: seq<Byte>, was: seq<Byte>, bufSize: nat, whole: seq<Byte>) {
    && |now| == |was| && bufSize <= |was|
    && (ok <==> |whole| <= bufSize)
    && (ok ==> now == Patch(was, 0, whole))
    && (!ok ==> exists p: nat :: p <= bufSize && p < |whole| && now == Patch(was, 0, whole[..p]))
  }

  lemma Overflowed(now: seq<Byte>, was: seq<Byte>, bufSize: nat, whole: seq<Byte>, p: nat)
    requires p <= bufSize <= |was| && bufSize < |whole| && now == Patch(was, 0, whole[..p])
    ensures Wrote(false, now, was, bufSize, whole)
  {
  }

  lemma Finished(now: seq<Byte>, was: seq<Byte>, bufSize: nat, whole: seq<Byte>)
    requires |whole| <= bufSize <= |was| && now == Patch(was, 0, whole[..|whole|])
    ensures Wrote(true, now, was, bufSize, whole)
  {
    assert whole[..|whole|] == whole;
  }

  // ---- Addresses -------------------------------------------------------------

  /** A peer id and, if known, a transport address in text form. */
  datatype Addr = Addr(peer: PeerId, text: Option<seq<Byte>>)

  function TextOf(a: Addr): seq<Byte> { if a.text.Some? then a.text.value else [] }

  function AddrBytes(a: Addr): seq<Byte> {
    ToBE(|a.peer|, 2) + a.peer + ToBE(|TextOf(a)|, 2) + TextOf(a)
  }

  function AddrSize(a: Addr): (n: nat)
    ensures n == |AddrBytes(a)|
  {
    2 + |a.peer| + 2 + |TextOf(a)|
  }

  method AddrSerialize(buf: array<Byte>, bufSize: nat, a: Addr) returns (ok: bool)
    requires bufSize <= buf.Length
    modifies buf
    ensures Wrote(ok, buf[..], old(buf[..]), bufSize, AddrBytes(a))
  {
    hide Wrote, ToBE;
    ghost var was, whole := buf[..], AddrBytes(a);
    var n, text := |a.peer|, TextOf(a);
    AddrParts(a);
    assert was == Patch(was, 0, whole[..0]);
    ok := WriteBytes(buf, bufSize, 0, ToBE(n, 2), whole, was);
    if !ok { Overflowed(buf[..], was, bufSize, whole, 0); return; }
    ok := WriteBytes(buf, bufSize, 2, a.peer, whole, was);
    if !ok { Overflowed(buf[..], was, bufSize, whole, 2); return; }
    ok := WriteBytes(buf, bufSize, 2 + n, ToBE(|text|, 2), whole, was);
    if !ok { Overflowed(buf[..], was, bufSize, whole, 2 + n); return; }
    ok := WriteBytes(buf, bufSize, 4 + n, text, whole, was);
    if !ok { Overflowed(buf[..], was, bufSize, whole, 4 + n); return; }
    Finished(buf[..], was, bufSize, whole);
  }

  lemma AddrParts(a: Addr)
    ensures
      var b, n := AddrBytes(a), |a.peer|;
      && |b| == 4 + n + |TextOf(a)|
      && b[0..2] == ToBE(n, 2) && b[2..2 + n] == a.peer
      && b[2 + n..4 + n] == ToBE(|TextOf(a)|, 2) && b[4 + n..] == TextOf(a) && b[4 + n..4 + n + |TextOf(a)|] == TextOf(a)
  {
    hide ToBE;
    var b, n, t := AddrBytes(a), |a.peer|, TextOf(a);
    assert b == (ToBE(n, 2) + a.peer) + (ToBE(|t|, 2) + t);
    assert b[2 + n..] == ToBE(|t|, 2) + t;
    assert b[2 + n..4 + n] == b[2 + n..][..2] == ToBE(|t|, 2);
    assert b[4 + n..] == b[2 + n..][2..] == t;
  }

  datatype Parsed<T> = Ok(value: T) | Err(ret: Ret)

  /** `addr_deserialize`: trailing bytes are ignored. */
  function ParseAddr(b: seq<Byte>, isPeer: PeerId -> bool, isText: seq<Byte> -> bool): Parsed<Addr> {
    if |b| < 4 then Err(InvalidArg)
    else
      var n := FromBE(b[0..2]);
      if 2 + n > |b| then Err(ProtocolError)
      else if !isPeer(b[2..2 + n]) then Err(ProtocolError)
      else if 2 + n + 2 > |b| then Err(ProtocolError)
      else
        var m := FromBE(b[2 + n..4 + n]);
        if m == 0 then Ok(Addr(b[2..2 + n], None))
        else if 4 + n + m > |b| then Err(ProtocolError)
        else if !isText(b[4 + n..4 + n + m]) then Err(ProtocolError)
        else Ok(Addr(b[2..2 + n], Some(b[4 + n..4 + n + m])))
  }

  /** What another process makes of a serialized address: the text is cut to its
      length modulo 2^16. */
  lemma ParseAddrBytes(a: Addr, rest: seq<Byte>, isPeer: PeerId -> bool, isText: seq<Byte> -> bool)
    requires isPeer(a.peer) && |a.peer| < U16
    ensures
      var t := TextOf(a);
      var m := |t| % U16;
      ParseAddr(AddrBytes(a) + rest, isPeer, isText)
        == if m == 0 then Ok(Addr(a.peer, None))
           else if !isText(t[..m]) then Err(ProtocolError) else Ok(Addr(a.peer, Some(t[..m])))
  {
    hide ToBE, FromBE;
    var b, n, t := AddrBytes(a) + rest, |a.peer|, TextOf(a);
    AddrParts(a);
    Widths();
    FromTo(n, 2);
    FromTo(|t|, 2);
    assert b[0..2] == AddrBytes(a)[0..2] && b[2..2 + n] == AddrBytes(a)[2..2 + n];
    assert b[2 + n..4 + n] == AddrBytes(a)[2 + n..4 + n];
    var m := |t| % U16;
    assert b[4 + n..4 + n + m] == AddrBytes(a)[4 + n..][..m] == t[..m];
  }

  /** An address survives serialization exactly when its text, if it has one, is
      neither empty nor longer than the 16-bit length field can say. */
  lemma AddrRoundTripIff(a: Addr, rest: seq<Byte>, isPeer: PeerId -> bool, isText: seq<Byte> -> bool)
    requires isPeer(a.peer) && |a.peer| < U16 && (a.text.Some? ==> isText(a.text.value))
    ensures ParseAddr(AddrBytes(a) + rest, isPeer, isText) == Ok(a)
            <==> (a.text.None? || 0 < |a.text.value| < U16)
  {
    hide AddrBytes, ParseAddr;
    ParseAddrBytes(a, rest, isPeer, isText);
    var t := TextOf(a);
    if |t| < U16 { assert t[..|t|] == t; }
  }

  /** A text of 2^16 bytes is read as absent. */
  lemma LongTextIsLost(peer: PeerId, c: Byte, isPeer: PeerId -> bool, isText: seq<Byte> -> bool)
    requires isPeer(peer) && |peer| < U16
    ensures
      var a := Addr(peer, Some(seq(U16, _ => c)));
      ParseAddr(AddrBytes(a), isPeer, isText) == Ok(Addr(peer, None)) != Ok(a)
  {
    hide AddrBytes, ParseAddr;
    var a := Addr(peer, Some(seq(U16, _ => c)));
    ParseAddrBytes(a, [], isPeer, isText);
    assert AddrBytes(a) + [] == AddrBytes(a);
  }

  /** The two length fields are big-endian. */
  lemma AddrIsBigEndian(a: Addr)
    ensures
      var b, n := AddrBytes(a), |a.peer|;
      && |b| == 4 + n + |TextOf(a)| && b[2..2 + n] == a.peer && b[4 + n..] == TextOf(a)
      && BigEndian(b[0..2], n) && BigEndian(b[2 + n..4 + n], |TextOf(a)|)
  {
    hide ToBE, BigEndian;
    AddrParts(a);
    ToBEIsBigEndian(|a.peer|, 2);
    ToBEIsBigEndian(|TextOf(a)|, 2);
  }

  /** Every proper prefix of an encoded address is refused. */
  lemma CutAddrIsRefused(a: Addr, cut: nat, isPeer: PeerId -> bool, isText: seq<Byte> -> bool)
    requires isPeer(a.peer) && |a.peer| < U16 && |TextOf(a)| < U16 && cut < |AddrBytes(a)|
    ensures ParseAddr(AddrBytes(a)[..cut], isPeer, isText) == Err(if cut < 4 then InvalidArg else ProtocolError)
  {
    hide ToBE, FromBE;
    var w, b, n, t := AddrBytes(a), AddrBytes(a)[..cut], |a.peer|, TextOf(a);
    AddrParts(a);
    Widths();
    FromTo(n, 2);
    FromTo(|t|, 2);
    if cut >= 4 {
      assert b[0..2] == w[0..2];
      if cut >= 2 + n { assert b[2..2 + n] == w[2..2 + n]; }
      if cut >= 4 + n { assert b[2 + n..4 + n] == w[2 + n..4 + n]; }
    }
  }

  // ---- Memory handles -----------------------------------------------------------

  datatype MemHandle = MemHandle(id: nat, size: nat, flags: nat, owner: Option<PeerId>)

  predicate Typed(h: MemHandle) { h.id < U64 && h.size < U64 && h.flags < U64 }

  function OwnerOf(h: MemHandle, self: PeerId): PeerId { if h.owner.Some? then h.owner.value else self }

  function HandleBytes(h: MemHandle, self: PeerId): seq<Byte> {
    ToBE(h.id, 8) + ToBE(h.size, 8) + ToBE(h.flags, 8) + ToBE(|OwnerOf(h, self)|, 2) + OwnerOf(h, self)
  }

  function HandleSize(h: MemHandle, self: PeerId): (n: nat)
    ensures n == |HandleBytes(h, self)|
  {
    8 + 8 + 8 + 2 + |OwnerOf(h, self)|
  }

  method HandleSerialize(buf: array<Byte>, bufSize: nat, h: MemHandle, self: PeerId) returns (ok: bool)
    requires bufSize <= buf.Length
    modifies buf
    ensures Wrote(ok, buf[..], old(buf[..]), bufSize, HandleBytes(h, self))
  {
    hide Wrote, ToBE;
    ghost var was, whole := buf[..], HandleBytes(h, self);
    var peer := OwnerOf(h, self);
    HandleParts(h, self);
    assert was == Patch(was, 0, whole[..0]);
    ok := WriteBytes(buf, bufSize, 0, ToBE(h.id, 8), whole, was);
    if !ok { Overflowed(buf[..], was, bufSize, whole, 0); return; }
    ok := WriteBytes(buf, bufSize, 8, ToBE(h.size, 8), whole, was);
    if !ok { Overflowed(buf[..], was, bufSize, whole, 8); return; }
    ok := WriteBytes(buf, bufSize, 16, ToBE(h.flags, 8), whole, was);
    if !ok { Overflowed(buf[..], was, bufSize, whole, 16); return; }
    ok := WriteBytes(buf, bufSize, 24, ToBE(|peer|, 2), whole, was);
    if !ok { Overflowed(buf[..], was, bufSize, whole, 24); return; }
    ok := WriteBytes(buf, bufSize, 26, peer, whole, was);
    if !ok { Overflowed(buf[..], was, bufSize, whole, 26); return; }
    Finished(buf[..], was, bufSize, whole);
  }

  lemma HandleParts(h: MemHandle, self: PeerId)
    ensures
      var b, p := HandleBytes(h, self), OwnerOf(h, self);
      && |b| == 26 + |p|
      && b[0..8] == ToBE(h.id, 8) && b[8..16] == ToBE(h.size, 8) && b[16..24] == ToBE(h.flags, 8)
      && b[24..26] == ToBE(|p|, 2) && b[26..] == p && b[26..26 + |p|] == p
  {
    hide ToBE;
  }

  function ParseHandle(b: seq<Byte>, isPeer: PeerId -> bool): Parsed<MemHandle> {
    if |b| < 26 then Err(InvalidArg)
    else
      var n := FromBE(b[24..26]);
      if 26 + n > |b| then Err(ProtocolError)
      else if !isPeer(b[26..26 + n]) then Err(ProtocolError)
      else Ok(MemHandle(FromBE(b[0..8]), FromBE(b[8..16]), FromBE(b[16..24]), Some(b[26..26 + n])))
  }

  /** A received handle names the same memory, with its owner spelled out. */
  lemma HandleRoundTrip(h: MemHandle, self: PeerId, rest: seq<Byte>, isPeer: PeerId -> bool)
    requires Typed(h) && isPeer(OwnerOf(h, self)) && |OwnerOf(h, self)| < U16
    ensures ParseHandle(HandleBytes(h, self) + rest, isPeer) == Ok(h.(owner := Some(OwnerOf(h, self))))
  {
    hide ToBE, FromBE;
    var w, b, p := HandleBytes(h, self), HandleBytes(h, self) + rest, OwnerOf(h, self);
    HandleParts(h, self);
    Widths();
    FromTo(h.id, 8);
    FromTo(h.size, 8);
    FromTo(h.flags, 8);
    FromTo(|p|, 2);
    assert b[0..8] == w[0..8] && b[8..16] == w[8..16] && b[16..24] == w[16..24] && b[24..26] == w[24..26];
    assert b[26..26 + |p|] == w[26..26 + |p|];
  }

  /** The integers of an encoded handle are big-endian. */
  lemma HandleIsBigEndian(h: MemHandle, self: PeerId)
    ensures
      var b, p := HandleBytes(h, self), OwnerOf(h, self);
      && |b| == 26 + |p| && BigEndian(b[0..8], h.id) && BigEndian(b[8..16], h.size)
      && BigEndian(b[16..24], h.flags) && BigEndian(b[24..26], |p|) && b[26..] == p
  {
    hide ToBE, BigEndian;
    HandleParts(h, self);
    ToBEIsBigEndian(h.id, 8);
    ToBEIsBigEndian(h.size, 8);
    ToBEIsBigEndian(h.flags, 8);
    ToBEIsBigEndian(|OwnerOf(h, self)|, 2);
  }

  /** Every proper prefix of an encoded handle is refused. */
  lemma CutHandleIsRefused(h: MemHandle, self: PeerId, cut: nat, isPeer: PeerId -> bool)
    requires |OwnerOf(h, self)| < U16 && cut < |HandleBytes(h, self)|
    ensures ParseHandle(HandleBytes(h, self)[..cut], isPeer) == Err(if cut < 26 then InvalidArg else ProtocolError)
  {
    hide ToBE, FromBE;
    var w, b, p := HandleBytes(h, self), HandleBytes(h, self)[..cut], OwnerOf(h, self);
    HandleParts(h, self);
    Widths();
    FromTo(|p|, 2);
    if cut >= 26 { assert b[24..26] == w[24..26]; }
  }

  /** A handle passed on from peer to peer: each deserializes what it got and
      serializes it again under its own name. */
  function PassedOn(b: seq<Byte>, peers: seq<PeerId>, isPeer: PeerId -> bool): Option<seq<Byte>>
    decreases |peers|
  {
    if peers == [] then Some(b)
    else match ParseHandle(b, isPeer)
      case Ok(h) => PassedOn(HandleBytes(h, peers[0]), peers[1..], isPeer)
      case _ => None
  }

  /** Through any number of peers the bytes, and so the original owner, stay. */
  lemma {:induction false} OwnerSurvivesHops(h: MemHandle, self: PeerId, peers: seq<PeerId>, isPeer: PeerId -> bool)
    requires Typed(h) && isPeer(OwnerOf(h, self)) && |OwnerOf(h, self)| < U16
    ensures PassedOn(HandleBytes(h, self), peers, isPeer) == Some(HandleBytes(h, self))
    decreases |peers|
  {
    hide HandleBytes, ParseHandle;
    if peers != [] {
      HandleRoundTrip(h, self, [], isPeer);
      assert HandleBytes(h, self) + [] == HandleBytes(h, self);
      var received := h.(owner := Some(OwnerOf(h, self)));
      SameBytes(h, self, peers[0]);
      OwnerSurvivesHops(received, peers[0], peers[1..], isPeer);
    }
  }

  lemma SameBytes(h: MemHandle, self: PeerId, other: PeerId)
    ensures HandleBytes(h.(owner := Some(OwnerOf(h, self))), other) == HandleBytes(h, self)
  {
  }
}
