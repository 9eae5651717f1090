/** From the sender's command to the receiver's buffer, across the writer, the
    wire format, the read loop, receive matching and remote memory. */
module EndToEnd {
  import opened Prelude
  import C = Codec
  import R = Reader
  import W = Writer
  import opened Lane
  import G = Groups
  import E = Engine
  import opened Runs
  import F = Confluence
  import M = Rma

  // ---------------------------------------------------------------------
  //  A writer whose stream never breaks
  // ---------------------------------------------------------------------

  /** No try that is made fails in its write; opening may fail. */
  predicate NoWriteFails(open: bool, ts: seq<W.Try>)
    decreases |ts|
  {
    ts == [] ||
    if !open && !ts[0].opens then NoWriteFails(false, ts[1..]) else ts[0].write.Done?
  }

  predicate Unbroken(ms: seq<C.Msg>, oracle: seq<seq<W.Try>>)
    requires |oracle| == |ms|
  {
    ms == [] ||
    var k := |ms| - 1;
    Unbroken(ms[..k], oracle[..k]) && NoWriteFails(W.RunTask(ms[..k], oracle[..k]).0.open, oracle[k])
  }

  /** The messages reported Ok. */
  function Sent(ms: seq<C.Msg>, oks: seq<bool>): (out: seq<C.Msg>)
    requires |oks| == |ms|
    ensures forall m | m in out :: m in ms
  {
    if ms == [] then [] else
      var k := |ms| - 1;
      Sent(ms[..k], oks[..k]) + if oks[k] then [ms[k]] else []
  }

  /** Without a failing write a message is put on the stream whole, or not at all. */
  lemma {:induction false} UnbrokenSend(w: W.Wire, frame: seq<Byte>, ts: seq<W.Try>)
    requires W.WireOk(w) && NoWriteFails(w.open, ts)
    ensures W.SendFrom(w, frame, ts) == (W.Push(W.Opened(w), frame, true), true) || W.SendFrom(w, frame, ts) == (w, false)
    decreases |ts|
  {
    if ts != [] && !w.open && !ts[0].opens { UnbrokenSend(w, frame, ts[1..]); }
  }

  lemma PushOnOnly(s: seq<Byte>, frame: seq<Byte>)
    ensures W.Push(W.Opened(W.Wire([s], true)), frame, true) == W.Wire([s + frame], true)
    ensures W.Push(W.Opened(W.Wire([], false)), frame, true) == W.Wire([frame], true)
  {
    assert [] + frame == frame;
  }

  /** One stream, or none, with the frames of these messages. */
  function WireOf(out: seq<C.Msg>): W.Wire {
    if out == [] then W.Wire([], false) else W.Wire([R.EncodeAll(out)], true)
  }

  lemma WireOfMore(out: seq<C.Msg>, m: C.Msg)
    ensures W.WireOk(WireOf(out)) && W.Push(W.Opened(WireOf(out)), C.Encode(m), true) == WireOf(out + [m])
  {
    hide C.Encode, W.Push, W.Opened;
    W.EncodeAllAppend(out, m);
    PushOnOnly(R.EncodeAll(out), C.Encode(m));
    if out == [] { assert [] + C.Encode(m) == C.Encode(m); }
  }

  /** An unbroken writer puts exactly the messages it reports Ok on one stream. */
  lemma {:induction false} UnbrokenTask(ms: seq<C.Msg>, oracle: seq<seq<W.Try>>)
    requires |oracle| == |ms| && Unbroken(ms, oracle)
    ensures
      var (w, oks) := W.RunTask(ms, oracle);
      w == WireOf(Sent(ms, oks))
    decreases |ms|
  {
    hide C.Encode, W.SendFrom, W.Push, W.Opened, NoWriteFails, WireOf;
    if ms == [] {
      NoWire();
    } else {
      var k := |ms| - 1;
      UnbrokenTask(ms[..k], oracle[..k]);
      var (w, oks) := W.RunTask(ms[..k], oracle[..k]);
      var all := W.RunTask(ms, oracle).1;
      UnbrokenSend(w, C.Encode(ms[k]), oracle[k]);
      WireOfMore(Sent(ms[..k], oks), ms[k]);
      assert all[..k] == oks;
      assert Sent(ms[..k], oks) + [] == Sent(ms[..k], oks);
    }
  }

  lemma NoWire()
    ensures WireOf([]) == W.Wire([], false)
  {
  }

  lemma SentSendable(ms: seq<C.Msg>, oks: seq<bool>, isPeer: PeerId -> bool)
    requires |oks| == |ms| && R.AllSendable(ms, isPeer)
    ensures R.AllSendable(Sent(ms, oks), isPeer)
  {
    hide C.Sendable;
    var out := Sent(ms, oks);
    forall i | 0 <= i < |out| ensures C.Sendable(out[i], isPeer) {
      assert out[i] in out;
    }
  }

  lemma OneStream(stream: seq<Byte>, isPeer: PeerId -> bool)
    ensures W.Received([stream], isPeer) == R.ReadAll(stream, isPeer).msgs
  {
    hide R.ReadAll;
    var streams := [stream];
    assert streams[..0] == [];
    assert W.Received([], isPeer) == [];
  }

  /** The receiver reads exactly the messages reported Ok, in order. */
  lemma SentIsRead(ms: seq<C.Msg>, oracle: seq<seq<W.Try>>, isPeer: PeerId -> bool)
    requires |oracle| == |ms| && Unbroken(ms, oracle) && R.AllSendable(ms, isPeer)
    ensures
      var (w, oks) := W.RunTask(ms, oracle);
      W.Received(w.streams, isPeer) == Sent(ms, oks)
  {
    hide C.Encode, W.RunTask, R.AllSendable, Unbroken, R.ReadAll, Sent;
    UnbrokenTask(ms, oracle);
    var out := Sent(ms, W.RunTask(ms, oracle).1);
    SentSendable(ms, W.RunTask(ms, oracle).1, isPeer);
    if out != [] {
      var stream := R.EncodeAll(out);
      assert stream + [] == stream;
      R.StreamReadsWholeFrames(out, [], out[0], isPeer);
      OneStream(stream, isPeer);
    }
  }

  // ---------------------------------------------------------------------
  //  Messages
  // ---------------------------------------------------------------------

  /** The payloads of the expected messages of one key, in order. */
  function PayloadsOn(ms: seq<C.Msg>, tag: nat, source: PeerId): seq<seq<Byte>> {
    if ms == [] then [] else
      var k := |ms| - 1;
      var h := ms[k].header;
      PayloadsOn(ms[..k], tag, source)
      + if h.msgType.Expected? && h.tag == tag && h.source == source then [ms[k].payload] else []
  }

  function Payloads(ms: seq<Arrival>): (ps: seq<seq<Byte>>)
    ensures |ps| == |ms| && forall i | 0 <= i < |ms| :: ps[i] == ms[i].payload
  {
    seq(|ms|, i requires 0 <= i < |ms| => ms[i].payload)
  }

  /** Messages sent over an unbroken stream arrive in order: when the engine's
      arrivals for a key are, so far, what the read loop found on the stream, the
      i-th receive posted for the key gets the payload of the i-th message
      reported Ok for it, whatever the interleaving of posts and arrivals; once
      the channel is drained the user has been told so.  Its buffer, whatever it
      held, has the payload's bytes as far as both reach. */
  lemma SentIsReceived(ms: seq<C.Msg>, oracle: seq<seq<W.Try>>, isPeer: PeerId -> bool,
                       es: seq<E.Event>, tag: nat, source: PeerId, i: nat, buf: seq<Byte>)
    requires |oracle| == |ms| && Unbroken(ms, oracle) && R.AllSendable(ms, isPeer)
    requires G.Pure(G.Key(tag, source), E.PostsOf(es, true)) && NeverCancelled(G.Key(tag, source), es)
    requires
      var read := W.Received(W.RunTask(ms, oracle).0.streams, isPeer);
      Payloads(G.SelM(G.Key(tag, source), E.ArrivalsOf(es, true))) <= PayloadsOn(read, tag, source)
    requires
      var g := G.Key(tag, source);
      i < |G.SelR(g, E.PostsOf(es, true))| && i < |G.SelM(g, E.ArrivalsOf(es, true))|
    ensures
      var g := G.Key(tag, source);
      var r, m := G.SelR(g, E.PostsOf(es, true))[i], G.SelM(g, E.ArrivalsOf(es, true))[i];
      var sent := PayloadsOn(Sent(ms, W.RunTask(ms, oracle).1), tag, source);
      && i < |sent| && m.payload == sent[i] && Pair(r, m) in E.Run(es).expected.pairs
      && (E.Run(es).channel == [] ==>
            F.Handed(E.Run(es), true, r.id)
              == F.View([(r.op, Success, E.ExpectedInfo(|sent[i]|))], F.BytesOf(E.CopyFor(true, r, m))))
      && (r.hasBuf && r.bufSize <= |buf| ==>
            var cs := F.CopiesTo(E.Run(es), true, r.id);
            && (forall n | 0 <= n < |cs| :: |cs[n].bytes| <= |buf|)
            && var after := F.AfterCopies(buf, cs);
            && |after| == |buf|
            && forall k | 0 <= k < |buf| :: after[k] == if k < |sent[i]| && k < r.bufSize then sent[i][k] else buf[k])
  {
    hide W.RunTask, W.Received, E.Run, G.SelR, G.SelM, G.SelP, G.Pure, NeverCancelled, R.AllSendable, Unbroken,
         F.Handed, Sent, PayloadsOn, E.CopyFor, F.CopiesTo, F.AfterCopies;
    var g := G.Key(tag, source);
    SentIsRead(ms, oracle, isPeer);
    KeyServedInOrder(es, tag, source);
    F.ServedIsPaired(g, E.Run(es).expected.pairs, i);
    if E.Run(es).channel == [] { F.KeyIsHanded(es, tag, source, i); }
    var r, m := G.SelR(g, E.PostsOf(es, true))[i], G.SelM(g, E.ArrivalsOf(es, true))[i];
    assert E.LaneOf(E.Run(es), true) == E.Run(es).expected;
    if r.hasBuf && r.bufSize <= |buf| { F.BufferHoldsMessage(es, true, Pair(r, m), buf); }
    PrefixAt(Payloads(G.SelM(g, E.ArrivalsOf(es, true))), PayloadsOn(Sent(ms, W.RunTask(ms, oracle).1), tag, source), i);
  }

  lemma PrefixAt<T>(a: seq<T>, b: seq<T>, i: nat)
    requires a <= b && i < |a|
    ensures i < |b| && a[i] == b[i]
  {
  }

  // ---------------------------------------------------------------------
  //  Remote memory
  // ---------------------------------------------------------------------

  /** A put followed by a get of the same range over an unbroken stream, with no
      put into the range in between, is answered with the put's bytes, as many as
      the buffer holds. */
  lemma PutIsReadBack(m: M.Memory, self: PeerId, ms: seq<C.Msg>, oracle: seq<seq<W.Try>>, j: nat, i: nat,
                      isPeer: PeerId -> bool)
    requires |oracle| == |ms| && Unbroken(ms, oracle) && R.AllSendable(ms, isPeer) && M.Backed(m)
    requires
      var out := Sent(ms, W.RunTask(ms, oracle).1);
      && j < i < |out| && out[j].header.msgType.RmaPut? && M.Asks(m, out[i])
      && out[i].header.handleId == out[j].header.handleId
      && out[i].header.offset == out[j].header.offset && out[i].header.rmaLength == |out[j].payload|
      && var b := m.handles[out[j].header.handleId];
         forall x, k | j < x < i && out[j].header.offset <= k < out[j].header.offset + |out[j].payload| ::
           !M.Covers(m, out[x], b, k)
    ensures
      var (w, oks) := W.RunTask(ms, oracle);
      var out, read := Sent(ms, oks), W.Received(w.streams, isPeer);
      var h, data, n := out[i].header, out[j].payload, |M.Requests(m, out[..i])|;
      && n < |M.Replies(m, self, read)|
      && M.Replies(m, self, read)[n]
           == M.ResponseTo(self, h, data[..M.Fits(|data|, |m.bufs[m.handles[h.handleId]]|, h.offset)])
  {
    hide W.RunTask, W.Received, R.AllSendable, Unbroken, Sent, M.Covers, M.Replies, M.Requests;
    SentIsRead(ms, oracle, isPeer);
    M.PutIsAnswered(m, self, Sent(ms, W.RunTask(ms, oracle).1), j, i);
  }
}
