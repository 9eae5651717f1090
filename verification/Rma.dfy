/** One-sided memory access: a registry of buffers, puts and gets served in the
    order they come off a stream, and gets matched with their responses. */
module Rma {
  import opened Prelude
  import opened Buffers
  import opened Codec
  import opened Reader

  /** Registered handles name buffers; two handles may name one buffer. */
  datatype Memory = Memory(handles: map<nat, nat>, bufs: map<nat, seq<Byte>>)

  ghost predicate Backed(m: Memory) {
    forall h | h in m.handles :: m.handles[h] in m.bufs
  }

  /** How much of `len` bytes at `off` lies inside a buffer of `size` bytes. */
  function Fits(len: nat, size: nat, off: nat): nat { Min(len, Monus(size, off)) }

  /** A put keeps to the buffer: what would pass its end is dropped. */
  function PutInto(b: seq<Byte>, off: nat, data: seq<Byte>): (r: seq<Byte>)
    ensures |r| == |b|
    ensures forall k | 0 <= k < |b| :: r[k] == if off <= k < off + |data| then data[k - off] else b[k]
  {
    var n := Fits(|data|, |b|, off);
    if n == 0 then b else Patch(b, off, data[..n])
  }

  /** A get returns what the buffer has of the range. */
  function GetFrom(b: seq<Byte>, off: nat, len: nat): (r: seq<Byte>)
    ensures |r| == Fits(len, |b|, off)
    ensures forall k | 0 <= k < |r| :: r[k] == b[off + k]
  {
    var n := Fits(len, |b|, off);
    if n == 0 then [] else b[off..off + n]
  }

  function ApplyPut(m: Memory, h: nat, off: nat, data: seq<Byte>): (m': Memory)
    requires Backed(m)
    ensures Backed(m') && m'.handles == m.handles && m'.bufs.Keys == m.bufs.Keys
  {
    if h !in m.handles then m
    else
      var b := m.handles[h];
      m.(bufs := m.bufs[b := PutInto(m.bufs[b], off, data)])
  }

  /** The data a get request is answered with; an unknown handle gets no answer. */
  function ServeGet(m: Memory, h: nat, off: nat, len: nat): Option<seq<Byte>>
    requires Backed(m)
  {
    if h !in m.handles then None else Some(GetFrom(m.bufs[m.handles[h]], off, len))
  }

  // ---------------------------------------------------------------------
  //  Puts and gets along one stream
  // ---------------------------------------------------------------------

  function ResponseTo(self: PeerId, req: Header, data: seq<Byte>): Msg {
    Msg(Header(RmaGetResp, 0, |data| % U32, self, req.handleId, req.offset, |data|,
               req.localHandleId, req.localOffset), data)
  }

  function HandleMsg(m: Memory, msg: Msg): (m': Memory)
    requires Backed(m)
    ensures Backed(m') && m'.handles == m.handles && m'.bufs.Keys == m.bufs.Keys
  {
    if msg.header.msgType.RmaPut? then ApplyPut(m, msg.header.handleId, msg.header.offset, msg.payload) else m
  }

  function ReplyTo(m: Memory, self: PeerId, msg: Msg): seq<Msg>
    requires Backed(m)
  {
    var h := msg.header;
    if !h.msgType.RmaGetReq? then []
    else match ServeGet(m, h.handleId, h.offset, h.rmaLength)
      case None => []
      case Some(data) => [ResponseTo(self, h, data)]
  }

  /** The memory after the messages of a stream. */
  function After(m: Memory, ms: seq<Msg>): (m': Memory)
    requires Backed(m)
    ensures Backed(m') && m'.handles == m.handles && m'.bufs.Keys == m.bufs.Keys
  {
    if ms == [] then m else
      var k := |ms| - 1;
      HandleMsg(After(m, ms[..k]), ms[k])
  }

  /** The responses the messages of a stream cause, in order. */
  function Replies(m: Memory, self: PeerId, ms: seq<Msg>): seq<Msg>
    requires Backed(m)
  {
    if ms == [] then [] else
      var k := |ms| - 1;
      Replies(m, self, ms[..k]) + ReplyTo(After(m, ms[..k]), self, ms[k])
  }

  predicate Covers(m: Memory, msg: Msg, b: nat, k: nat) {
    var h := msg.header;
    && h.msgType.RmaPut? && h.handleId in m.handles && m.handles[h.handleId] == b
    && h.offset <= k < h.offset + |msg.payload|
  }

  /** The byte at place `k` of buffer `b`, by looking for the last put that names
      the place: no buffers, no clamping. */
  function LastWritten(m: Memory, ms: seq<Msg>, b: nat, k: nat): Byte
    requires b in m.bufs && k < |m.bufs[b]|
  {
    if ms == [] then m.bufs[b][k]
    else
      var n := |ms| - 1;
      if Covers(m, ms[n], b, k) then ms[n].payload[k - ms[n].header.offset]
      else LastWritten(m, ms[..n], b, k)
  }

  lemma HandleByte(m: Memory, msg: Msg, b: nat, k: nat)
    requires Backed(m) && b in m.bufs && k < |m.bufs[b]|
    ensures |HandleMsg(m, msg).bufs[b]| == |m.bufs[b]|
    ensures HandleMsg(m, msg).bufs[b][k]
         == if Covers(m, msg, b, k) then msg.payload[k - msg.header.offset] else m.bufs[b][k]
  {
  }

  /** After any messages, every byte is what the last put naming it wrote, or its
      initial value: puts apply in issue order and never spill. */
  lemma {:induction false} MemoryIsLastWritten(m: Memory, ms: seq<Msg>, b: nat, k: nat)
    requires Backed(m) && b in m.bufs && k < |m.bufs[b]|
    ensures |After(m, ms).bufs[b]| == |m.bufs[b]|
    ensures After(m, ms).bufs[b][k] == LastWritten(m, ms, b, k)
    decreases |ms|
  {
    if ms != [] {
      var n := |ms| - 1;
      MemoryIsLastWritten(m, ms[..n], b, k);
      HandleByte(After(m, ms[..n]), ms[n], b, k);
    }
  }

  lemma SizesStay(m: Memory, ms: seq<Msg>, b: nat)
    requires Backed(m) && b in m.bufs
    ensures |After(m, ms).bufs[b]| == |m.bufs[b]|
    decreases |ms|
  {
    if ms != [] { SizesStay(m, ms[..|ms| - 1], b); }
  }

  /** A get request is answered with the memory as all earlier puts of its stream
      left it, as much of the range as the buffer has. */
  lemma GetSeesEarlierPuts(m: Memory, ms: seq<Msg>, i: nat)
    requires Backed(m) && i < |ms| && ms[i].header.msgType.RmaGetReq? && ms[i].header.handleId in m.handles
    ensures
      var h := ms[i].header;
      var b := m.handles[h.handleId];
      var r := ServeGet(After(m, ms[..i]), h.handleId, h.offset, h.rmaLength);
      && r.Some? && |r.value| == Fits(h.rmaLength, |m.bufs[b]|, h.offset)
      && forall k | 0 <= k < |r.value| :: r.value[k] == LastWritten(m, ms[..i], b, h.offset + k)
  {
    hide After, LastWritten, PutInto;
    var h := ms[i].header;
    var b := m.handles[h.handleId];
    SizesStay(m, ms[..i], b);
    var r := ServeGet(After(m, ms[..i]), h.handleId, h.offset, h.rmaLength);
    forall k | 0 <= k < |r.value| ensures r.value[k] == LastWritten(m, ms[..i], b, h.offset + k) {
      MemoryIsLastWritten(m, ms[..i], b, h.offset + k);
    }
  }

  lemma {:induction false} LastWrittenBy(m: Memory, ms: seq<Msg>, j: nat, b: nat, k: nat)
    requires b in m.bufs && k < |m.bufs[b]|
    requires j < |ms| && Covers(m, ms[j], b, k)
    requires forall x | j < x < |ms| :: !Covers(m, ms[x], b, k)
    ensures LastWritten(m, ms, b, k) == ms[j].payload[k - ms[j].header.offset]
    decreases |ms|
  {
    var n := |ms| - 1;
    if j < n {
      LastWrittenBy(m, ms[..n], j, b, k);
    }
  }

  // ---------------------------------------------------------------------
  //  The responses of a stream
  // ---------------------------------------------------------------------

  /** The places of the get requests that name a registered handle. */
  function Requests(m: Memory, ms: seq<Msg>): (asked: seq<nat>)
    ensures forall n | 0 <= n < |asked| :: asked[n] < |ms|
  {
    if ms == [] then [] else
      var k := |ms| - 1;
      Requests(m, ms[..k]) + if Asks(m, ms[k]) then [k] else []
  }

  predicate Asks(m: Memory, msg: Msg) { msg.header.msgType.RmaGetReq? && msg.header.handleId in m.handles }

  /** The message is the response to the request at place `i`: its header echoes
      the request and its payload is the memory as the puts before it left it. */
  ghost predicate Serves(m: Memory, self: PeerId, ms: seq<Msg>, i: nat, reply: Msg)
    requires Backed(m) && i < |ms| && Asks(m, ms[i])
  {
    var h, data := ms[i].header, reply.payload;
    var b := m.handles[h.handleId];
    && reply.header == Header(RmaGetResp, 0, |data| % 0x1_0000_0000, self, h.handleId, h.offset, |data|,
                              h.localHandleId, h.localOffset)
    && |data| == Fits(h.rmaLength, |m.bufs[b]|, h.offset)
    && forall k | 0 <= k < |data| :: data[k] == LastWritten(m, ms[..i], b, h.offset + k)
  }

  lemma ReplyServes(m: Memory, self: PeerId, ms: seq<Msg>, i: nat)
    requires Backed(m) && i < |ms| && Asks(m, ms[i])
    ensures
      var r := ReplyTo(After(m, ms[..i]), self, ms[i]);
      |r| == 1 && Serves(m, self, ms, i, r[0])
  {
    GetSeesEarlierPuts(m, ms, i);
  }

  lemma NoReply(m: Memory, self: PeerId, msg: Msg)
    requires Backed(m) && !Asks(m, msg)
    ensures ReplyTo(m, self, msg) == []
  {
  }

  lemma ServesLonger(m: Memory, self: PeerId, ms: seq<Msg>, k: nat, i: nat, reply: Msg)
    requires Backed(m) && i < k <= |ms| && Asks(m, ms[i]) && Serves(m, self, ms[..k], i, reply)
    ensures Serves(m, self, ms, i, reply)
  {
    assert ms[..k][..i] == ms[..i];
  }

  /** The n-th response answers the n-th request for a registered handle, and
      there are no others. */
  lemma {:induction false} RepliesServeRequests(m: Memory, self: PeerId, ms: seq<Msg>)
    requires Backed(m)
    ensures |Replies(m, self, ms)| == |Requests(m, ms)|
    ensures forall n | 0 <= n < |Requests(m, ms)| ::
              Asks(m, ms[Requests(m, ms)[n]]) && Serves(m, self, ms, Requests(m, ms)[n], Replies(m, self, ms)[n])
    decreases |ms|
  {
    if ms != [] {
      hide Serves, ReplyTo, After, Asks;
      var k := |ms| - 1;
      var before, asked, rs := ms[..k], Requests(m, ms), Replies(m, self, ms);
      RepliesServeRequests(m, self, before);
      if Asks(m, ms[k]) {
        ReplyServes(m, self, ms, k);
      } else {
        NotAsked(m, self, ms);
      }
      forall n | 0 <= n < |asked| ensures Asks(m, ms[asked[n]]) && Serves(m, self, ms, asked[n], rs[n]) {
        if n < |Requests(m, before)| {
          assert before[asked[n]] == ms[asked[n]];
          ServesLonger(m, self, ms, k, asked[n], rs[n]);
        }
      }
    }
  }

  lemma NotAsked(m: Memory, self: PeerId, ms: seq<Msg>)
    requires Backed(m) && ms != [] && !Asks(m, ms[|ms| - 1])
    ensures ReplyTo(After(m, ms[..|ms| - 1]), self, ms[|ms| - 1]) == []
  {
    NoReply(After(m, ms[..|ms| - 1]), self, ms[|ms| - 1]);
  }

  /** Serving a stream of frames, whole but for a broken last one: the n-th
      response answers the n-th request with the memory as the puts sent before it
      left it. */
  lemma StreamIsServedInOrder(m: Memory, self: PeerId, ms: seq<Msg>, tail: seq<Byte>, cut: Msg, isPeer: PeerId -> bool)
    requires Backed(m) && AllSendable(ms, isPeer)
    requires tail == [] || (Sendable(cut, isPeer) && Broken(tail, cut))
    ensures
      var replies, asked := Replies(m, self, ReadAll(EncodeAll(ms) + tail, isPeer).msgs), Requests(m, ms);
      && |replies| == |asked|
      && forall n | 0 <= n < |asked| :: Asks(m, ms[asked[n]]) && Serves(m, self, ms, asked[n], replies[n])
  {
    hide Serves, Replies, Requests, ReadAll, AllSendable, Sendable, Broken;
    StreamReadsWholeFrames(ms, tail, cut, isPeer);
    RepliesServeRequests(m, self, ms);
  }

  /** The place of a request's response. */
  lemma {:induction false} RequestPlace(m: Memory, ms: seq<Msg>, i: nat)
    requires i < |ms| && Asks(m, ms[i])
    ensures
      var n := |Requests(m, ms[..i])|;
      n < |Requests(m, ms)| && Requests(m, ms)[n] == i
    decreases |ms|
  {
    var k := |ms| - 1;
    if i < k {
      RequestPlace(m, ms[..k], i);
      assert ms[..k][..i] == ms[..i];
    }
  }

  /** A get of the range of an earlier put is answered with the put's bytes. */
  lemma PutIsAnswered(m: Memory, self: PeerId, ms: seq<Msg>, j: nat, i: nat)
    requires Backed(m) && j < i < |ms|
    requires ms[j].header.msgType.RmaPut? && Asks(m, ms[i]) && ms[i].header.handleId == ms[j].header.handleId
    requires ms[i].header.offset == ms[j].header.offset && ms[i].header.rmaLength == |ms[j].payload|
    requires
      var b := m.handles[ms[j].header.handleId];
      forall x, k | j < x < i && ms[j].header.offset <= k < ms[j].header.offset + |ms[j].payload| ::
        !Covers(m, ms[x], b, k)
    ensures
      var h, data, n := ms[i].header, ms[j].payload, |Requests(m, ms[..i])|;
      var size := |m.bufs[m.handles[h.handleId]]|;
      n < |Replies(m, self, ms)| && Replies(m, self, ms)[n] == ResponseTo(self, h, data[..Fits(|data|, size, h.offset)])
  {
    hide Replies, Requests, Covers, After, ReplyTo;
    RepliesServeRequests(m, self, ms);
    RequestPlace(m, ms, i);
    var reply := Replies(m, self, ms)[|Requests(m, ms[..i])|];
    ServesPut(m, self, ms, j, i, reply);
  }

  lemma ServesPut(m: Memory, self: PeerId, ms: seq<Msg>, j: nat, i: nat, reply: Msg)
    requires Backed(m) && j < i < |ms| && Asks(m, ms[i]) && Serves(m, self, ms, i, reply)
    requires ms[j].header.msgType.RmaPut? && ms[i].header.handleId == ms[j].header.handleId
    requires ms[i].header.offset == ms[j].header.offset && ms[i].header.rmaLength == |ms[j].payload|
    requires
      var b := m.handles[ms[j].header.handleId];
      forall x, k | j < x < i && ms[j].header.offset <= k < ms[j].header.offset + |ms[j].payload| ::
        !Covers(m, ms[x], b, k)
    ensures
      var h, data := ms[i].header, ms[j].payload;
      reply == ResponseTo(self, h, data[..Fits(|data|, |m.bufs[m.handles[h.handleId]]|, h.offset)])
  {
    var h, data, r := ms[i].header, ms[j].payload, reply.payload;
    var b := m.handles[h.handleId];
    forall k | 0 <= k < |r| ensures r[k] == data[k] {
      LastWrittenBy(m, ms[..i], j, b, h.offset + k);
    }
    assert r == data[..|r|];
  }
}
