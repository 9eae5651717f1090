/** The per-peer writer task: one stream at a time, three tries a message, a
    fresh stream after every failed write.  Opening and writing fail as an
    adversary likes; a failed write leaves any number of the frame's bytes on
    the stream, possibly all of them (the flush failed). */
module Writer {
  import opened Prelude
  import opened Codec
  import opened Reader

  datatype Outcome = Done | Fails(sent: nat)

  datatype Try = Try(opens: bool, write: Outcome)

  /** All streams the task opened, oldest first, and whether the last is in use. */
  datatype Wire = Wire(streams: seq<seq<Byte>>, open: bool)

  predicate WireOk(w: Wire) { w.open ==> w.streams != [] }

  function Opened(w: Wire): (w': Wire)
    requires WireOk(w)
    ensures WireOk(w') && w'.open
  {
    if w.open then w else Wire(w.streams + [[]], true)
  }

  function Push(w: Wire, bytes: seq<Byte>, open: bool): (w': Wire)
    requires w.streams != []
    ensures WireOk(w')
  {
    var k := |w.streams| - 1;
    Wire(w.streams[..k] + [w.streams[k] + bytes], open)
  }

  /** One turn of the retry loop. */
  function TryOnce(w: Wire, frame: seq<Byte>, t: Try): (r: (Wire, bool))
    requires WireOk(w)
    ensures WireOk(r.0)
  {
    if !w.open && !t.opens then (w, false)
    else match t.write
      case Done => (Push(Opened(w), frame, true), true)
      case Fails(sent) => (Push(Opened(w), frame[..Min(sent, |frame|)], false), false)
  }

  /** Tries until one succeeds or none is left. */
  function SendFrom(w: Wire, frame: seq<Byte>, ts: seq<Try>): (r: (Wire, bool))
    requires WireOk(w)
    ensures WireOk(r.0)
    decreases |ts|
  {
    if ts == [] then (w, false)
    else
      var (w', ok) := TryOnce(w, frame, ts[0]);
      if ok then (w', true) else SendFrom(w', frame, ts[1..])
  }

  /** The whole task: what is on the wire and what each message's sender is told. */
  function RunTask(ms: seq<Msg>, oracle: seq<seq<Try>>): (r: (Wire, seq<bool>))
    requires |oracle| == |ms|
    ensures WireOk(r.0) && |r.1| == |ms|
    decreases |ms|
  {
    if ms == [] then (Wire([], false), [])
    else
      var k := |ms| - 1;
      var (w, oks) := RunTask(ms[..k], oracle[..k]);
      var (w', ok) := SendFrom(w, Encode(ms[k]), oracle[k]);
      (w', oks + [ok])
  }

  // ---------------------------------------------------------------------
  //  When a message is reported Ok
  // ---------------------------------------------------------------------

  /** One of the tries finds a stream, an open one only the first, and writes the
      frame whole and flushed. */
  ghost predicate GetsThrough(open: bool, ts: seq<Try>) {
    exists i | 0 <= i < |ts| :: (ts[i].opens || (i == 0 && open)) && ts[i].write.Done?
  }

  /** A message is reported Ok exactly when one of its tries gets it through. */
  lemma {:induction false} SendOkIff(w: Wire, frame: seq<Byte>, ts: seq<Try>)
    requires WireOk(w)
    ensures SendFrom(w, frame, ts).1 <==> GetsThrough(w.open, ts)
    decreases |ts|
  {
    if ts != [] {
      var (w', ok) := TryOnce(w, frame, ts[0]);
      if !ok {
        var rest := ts[1..];
        SendOkIff(w', frame, rest);
        if i :| 0 <= i < |ts| && (ts[i].opens || (i == 0 && w.open)) && ts[i].write.Done? {
          assert rest[i - 1] == ts[i];
        }
        if i :| 0 <= i < |rest| && (rest[i].opens || (i == 0 && w'.open)) && rest[i].write.Done? {
          assert ts[i + 1] == rest[i];
        }
      }
    }
  }

  /** After a message that was tried, a stream is in use exactly when it was Ok. */
  lemma {:induction false} OpenAfterSend(w: Wire, frame: seq<Byte>, ts: seq<Try>)
    requires WireOk(w) && (ts != [] || !w.open)
    ensures SendFrom(w, frame, ts).0.open <==> SendFrom(w, frame, ts).1
    decreases |ts|
  {
    if ts != [] && !TryOnce(w, frame, ts[0]).1 {
      OpenAfterSend(TryOnce(w, frame, ts[0]).0, frame, ts[1..]);
    }
  }

  lemma {:induction false} TaskSoFar(ms: seq<Msg>, oracle: seq<seq<Try>>, i: nat)
    requires |oracle| == |ms| && i < |ms|
    ensures RunTask(ms, oracle).1[i] == SendFrom(RunTask(ms[..i], oracle[..i]).0, Encode(ms[i]), oracle[i]).1
    ensures i > 0 ==> RunTask(ms, oracle).1[i - 1] == RunTask(ms[..i], oracle[..i]).1[i - 1]
    decreases |ms|
  {
    hide Encode, SendFrom;
    var k := |ms| - 1;
    if i < k {
      TaskSoFar(ms[..k], oracle[..k], i);
      assert ms[..k][..i] == ms[..i] && oracle[..k][..i] == oracle[..i];
    }
  }

  lemma OpenAfterTask(ms: seq<Msg>, oracle: seq<seq<Try>>)
    requires |oracle| == |ms| && forall n | 0 <= n < |ms| :: oracle[n] != []
    ensures RunTask(ms, oracle).0.open <==> ms != [] && RunTask(ms, oracle).1[|ms| - 1]
  {
    hide Encode;
    if ms != [] {
      var k := |ms| - 1;
      OpenAfterSend(RunTask(ms[..k], oracle[..k]).0, Encode(ms[k]), oracle[k]);
    }
  }

  /** Over a whole task: message `i` is reported Ok exactly when one of its tries
      opens a stream, or is the first after an Ok message, and writes the frame. */
  lemma TaskOkIff(ms: seq<Msg>, oracle: seq<seq<Try>>, i: nat)
    requires |oracle| == |ms| && i < |ms| && forall n | 0 <= n < |ms| :: oracle[n] != []
    ensures
      var oks := RunTask(ms, oracle).1;
      oks[i] <==> exists n | 0 <= n < |oracle[i]| ::
        (oracle[i][n].opens || (n == 0 && i > 0 && oks[i - 1])) && oracle[i][n].write.Done?
  {
    hide Encode, RunTask, SendFrom;
    TaskSoFar(ms, oracle, i);
    OpenAfterTask(ms[..i], oracle[..i]);
    SendOkIff(RunTask(ms[..i], oracle[..i]).0, Encode(ms[i]), oracle[i]);
  }

  class PeerWriter {
    var streams: seq<seq<Byte>>
    var open: bool

    ghost predicate Valid() reads this { WireOk(Model()) }

    ghost function Model(): Wire reads this { Wire(streams, open) }

    constructor ()
      ensures Valid() && Model() == Wire([], false)
    {
      streams, open := [], false;
    }

    method SendOneMessage(m: Msg, tries: seq<Try>) returns (ok: bool)
      requires Valid() && |tries| == 3
      modifies this
      ensures Valid()
      ensures (Model(), ok) == SendFrom(old(Model()), Encode(m), tries)
      ensures ok <==> GetsThrough(old(open), tries)
    {
      hide Encode, GetsThrough;
      SendOkIff(Model(), Encode(m), tries);
      var frame := WriteMessage(m);
      var attempt := 0;
      assert tries[0..] == tries;
      while attempt < 3
        invariant 0 <= attempt <= 3 && Valid()
        invariant SendFrom(Model(), frame, tries[attempt..]) == SendFrom(old(Model()), frame, tries)
      {
        var t := tries[attempt];
        assert tries[attempt..][1..] == tries[attempt + 1..];
        if !open {
          if t.opens {
            streams, open := streams + [[]], true;
          } else {
            attempt := attempt + 1;
            continue;
          }
        }
        var k := |streams| - 1;
        match t.write {
          case Done =>
            streams := streams[..k] + [streams[k] + frame];
            return true;
          case Fails(sent) =>
            streams := streams[..k] + [streams[k] + frame[..Min(sent, |frame|)]];
            open := false;
        }
        attempt := attempt + 1;
      }
      return false;
    }
  }

  /** `peer_writer_task`: drains its queue in order and reports each result. */
  method WriterTask(ms: seq<Msg>, oracle: seq<seq<Try>>) returns (w: PeerWriter, oks: seq<bool>)
    requires |oracle| == |ms| && forall i | 0 <= i < |oracle| :: |oracle[i]| == 3
    ensures w.Valid() && (w.Model(), oks) == RunTask(ms, oracle)
  {
    w := new PeerWriter();
    oks := [];
    var i := 0;
    while i < |ms|
      invariant 0 <= i <= |ms| && w.Valid() && fresh(w)
      invariant (w.Model(), oks) == RunTask(ms[..i], oracle[..i])
    {
      assert ms[..i + 1][..i] == ms[..i] && oracle[..i + 1][..i] == oracle[..i];
      var ok := w.SendOneMessage(ms[i], oracle[i]);
      oks := oks + [ok];
      i := i + 1;
    }
    assert ms[..|ms|] == ms && oracle[..|ms|] == oracle;
  }

  // ---------------------------------------------------------------------
  //  What ends up on the streams
  // ---------------------------------------------------------------------

  /** A stream's contents: the messages whose whole frames it holds, in order,
      then the start of the frame of message `cut`. */
  datatype StreamLog = StreamLog(ids: seq<nat>, tail: seq<Byte>, cut: nat)

  function Pick(ms: seq<Msg>, ids: seq<nat>): (out: seq<Msg>)
    requires forall i | 0 <= i < |ids| :: ids[i] < |ms|
    ensures |out| == |ids| && forall i | 0 <= i < |ids| :: out[i] == ms[ids[i]]
  {
    seq(|ids|, i requires 0 <= i < |ids| => ms[ids[i]])
  }

  ghost predicate Increasing(ids: seq<nat>, bound: nat) {
    && (forall i, j | 0 <= i < j < |ids| :: ids[i] < ids[j])
    && (forall i | 0 <= i < |ids| :: ids[i] < bound)
  }

  /** The stream holds whole frames in submission order, strictly increasing and
      below `bound`, plus at most one broken frame of a later message. */
  ghost predicate Holds(stream: seq<Byte>, g: StreamLog, ms: seq<Msg>, bound: nat) {
    && bound <= |ms| && Increasing(g.ids, bound)
    && stream == EncodeAll(Pick(ms, g.ids)) + g.tail
    && (g.tail != [] ==> g.cut < bound && Increasing(g.ids, g.cut) && Broken(g.tail, ms[g.cut]))
  }

  ghost predicate Logged(w: Wire, log: seq<StreamLog>, ms: seq<Msg>, bound: nat) {
    && |log| == |w.streams|
    && (forall s | 0 <= s < |log| :: Holds(w.streams[s], log[s], ms, bound))
  }

  /** The stream in use is whole and lacks message `next` and later ones. */
  ghost predicate Usable(w: Wire, log: seq<StreamLog>, next: nat) {
    w.open ==> log != [] && log[|log| - 1].tail == [] && Increasing(log[|log| - 1].ids, next)
  }

  function AllIds(log: seq<StreamLog>): seq<nat> {
    if log == [] then [] else
      var k := |log| - 1;
      AllIds(log[..k]) + log[k].ids
  }

  function Repeat(i: nat, n: nat): (r: seq<nat>)
    ensures |r| == n && forall j | 0 <= j < n :: r[j] == i
  {
    if n == 0 then [] else [i] + Repeat(i, n - 1)
  }

  /** How many whole copies of a frame of `len` bytes one message's tries leave. */
  function Copies(open: bool, len: nat, ts: seq<Try>): (c: nat)
    ensures c <= |ts|
    decreases |ts|
  {
    if ts == [] then 0
    else if !open && !ts[0].opens then Copies(false, len, ts[1..])
    else match ts[0].write
      case Done => 1
      case Fails(sent) => (if sent >= len then 1 else 0) + Copies(false, len, ts[1..])
  }

  lemma {:induction false} EncodeAllAppend(ms: seq<Msg>, m: Msg)
    ensures EncodeAll(ms + [m]) == EncodeAll(ms) + Encode(m)
  {
    assert (ms + [m])[..|ms|] == ms;
  }

  /** Writing the next whole frame on a usable stream. */
  lemma WholeFrame(stream: seq<Byte>, g: StreamLog, ms: seq<Msg>, k: nat)
    requires k < |ms| && Holds(stream, g, ms, k + 1) && g.tail == [] && Increasing(g.ids, k)
    ensures Holds(stream + Encode(ms[k]), StreamLog(g.ids + [k], [], 0), ms, k + 1)
  {
    hide Encode, EncodeAll, Increasing, Pick, Broken;
    IncreasingMore(g.ids, k);
    PickMore(ms, g.ids, k);
    EncodeAllAppend(Pick(ms, g.ids), ms[k]);
    NoTail(EncodeAll(Pick(ms, g.ids)));
    NoTail(stream + Encode(ms[k]));
  }

  lemma NoTail(s: seq<Byte>)
    ensures s + [] == s
  {
  }

  lemma IncreasingMore(ids: seq<nat>, k: nat)
    requires Increasing(ids, k)
    ensures Increasing(ids + [k], k + 1)
    ensures forall i | 0 <= i < |ids| :: ids[i] < k
  {
  }

  lemma PickMore(ms: seq<Msg>, ids: seq<nat>, k: nat)
    requires k < |ms| && forall i | 0 <= i < |ids| :: ids[i] < |ms|
    ensures Pick(ms, ids + [k]) == Pick(ms, ids) + [ms[k]]
  {
  }

  /** Writing part of the next frame on a usable stream. */
  lemma PartOfFrame(stream: seq<Byte>, g: StreamLog, ms: seq<Msg>, k: nat, n: nat)
    requires k < |ms| && Holds(stream, g, ms, k + 1) && g.tail == [] && Increasing(g.ids, k)
    requires n < |Encode(ms[k])|
    ensures Holds(stream + Encode(ms[k])[..n], StreamLog(g.ids, Encode(ms[k])[..n], k), ms, k + 1)
  {
    hide Encode, EncodeAll;
    var part := Encode(ms[k])[..n];
    assert stream == EncodeAll(Pick(ms, g.ids)) + [] == EncodeAll(Pick(ms, g.ids));
    assert part < Encode(ms[k]);
  }

  /** What one try puts on the stream in use, and whether all of the frame. */
  function Sent(frame: seq<Byte>, o: Outcome): seq<Byte> {
    if o.Done? then frame else frame[..Min(o.sent, |frame|)]
  }

  predicate Whole(len: nat, o: Outcome) { o.Done? || o.sent >= len }

  function LogAfter(g: StreamLog, frame: seq<Byte>, k: nat, o: Outcome): StreamLog {
    if Whole(|frame|, o) then StreamLog(g.ids + [k], [], 0) else StreamLog(g.ids, Sent(frame, o), k)
  }

  lemma WriteHolds(stream: seq<Byte>, g: StreamLog, ms: seq<Msg>, k: nat, o: Outcome)
    requires k < |ms| && Holds(stream, g, ms, k + 1) && g.tail == [] && Increasing(g.ids, k)
    ensures Holds(stream + Sent(Encode(ms[k]), o), LogAfter(g, Encode(ms[k]), k, o), ms, k + 1)
  {
    hide Encode, Holds;
    var frame := Encode(ms[k]);
    if Whole(|frame|, o) {
      assert frame[..|frame|] == frame;
      WholeFrame(stream, g, ms, k);
    } else {
      PartOfFrame(stream, g, ms, k, o.sent);
    }
  }

  lemma OpenStep(w: Wire, log: seq<StreamLog>, ms: seq<Msg>, k: nat) returns (log': seq<StreamLog>)
    requires k < |ms| && WireOk(w) && Logged(w, log, ms, k + 1) && Usable(w, log, k)
    ensures Logged(Opened(w), log', ms, k + 1) && Usable(Opened(w), log', k)
    ensures AllIds(log') == AllIds(log)
  {
    if w.open {
      log' := log;
    } else {
      var g := StreamLog([], [], 0);
      log' := log + [g];
      assert Pick(ms, []) == [];
      assert Holds([], g, ms, k + 1);
      assert log'[..|log|] == log;
      assert AllIds(log) + [] == AllIds(log);
    }
  }

  lemma PushStep(w: Wire, log: seq<StreamLog>, ms: seq<Msg>, k: nat, o: Outcome) returns (log': seq<StreamLog>)
    requires k < |ms| && WireOk(w) && w.open && Logged(w, log, ms, k + 1) && Usable(w, log, k)
    ensures
      var w' := Push(w, Sent(Encode(ms[k]), o), o.Done?);
      Logged(w', log', ms, k + 1) && Usable(w', log', k + 1) && (!o.Done? ==> Usable(w', log', k))
    ensures AllIds(log') == AllIds(log) + Repeat(k, if Whole(|Encode(ms[k])|, o) then 1 else 0)
  {
    hide Encode, Holds;
    var n := |log| - 1;
    var g := log[n];
    assert Holds(w.streams[n], g, ms, k + 1);
    WriteHolds(w.streams[n], g, ms, k, o);
    var g' := LogAfter(g, Encode(ms[k]), k, o);
    log' := log[..n] + [g'];
    assert log'[..n] == log[..n];
    assert log == log[..n] + [g];
    if Whole(|Encode(ms[k])|, o) {
      assert Repeat(k, 1) == [k];
      assert AllIds(log[..n]) + (g.ids + [k]) == (AllIds(log[..n]) + g.ids) + [k];
    } else {
      assert AllIds(log) + [] == AllIds(log);
    }
  }

  lemma RepeatSum(i: nat, a: nat, b: nat)
    ensures Repeat(i, a) + Repeat(i, b) == Repeat(i, a + b)
  {
  }

  /** One message's tries append its whole copies and keep every stream in shape. */
  lemma {:induction false} SendKeepsLog(w: Wire, log: seq<StreamLog>, ms: seq<Msg>, k: nat, ts: seq<Try>)
    returns (log': seq<StreamLog>)
    requires k < |ms| && WireOk(w) && Logged(w, log, ms, k + 1) && Usable(w, log, k)
    ensures
      var (w', ok) := SendFrom(w, Encode(ms[k]), ts);
      && Logged(w', log', ms, k + 1) && Usable(w', log', k + 1)
      && (ok ==> Copies(w.open, |Encode(ms[k])|, ts) >= 1)
    ensures AllIds(log') == AllIds(log) + Repeat(k, Copies(w.open, |Encode(ms[k])|, ts))
    decreases |ts|
  {
    hide Encode, Logged, AllIds;
    var frame := Encode(ms[k]);
    if ts == [] {
      log' := log;
      assert AllIds(log) + [] == AllIds(log);
    } else if !w.open && !ts[0].opens {
      log' := SendKeepsLog(w, log, ms, k, ts[1..]);
    } else {
      var o := ts[0].write;
      var ready := OpenStep(w, log, ms, k);
      var pushed := PushStep(Opened(w), ready, ms, k, o);
      if o.Done? {
        log' := pushed;
      } else {
        var w1 := TryOnce(w, frame, ts[0]).0;
        assert w1 == Push(Opened(w), Sent(frame, o), false);
        log' := SendKeepsLog(w1, pushed, ms, k, ts[1..]);
        var a, b := if Whole(|frame|, o) then 1 else 0, Copies(false, |frame|, ts[1..]);
        RepeatSum(k, a, b);
        assert AllIds(log) + Repeat(k, a) + Repeat(k, b) == AllIds(log) + (Repeat(k, a) + Repeat(k, b));
      }
    }
  }

  // ---------------------------------------------------------------------
  //  A whole task
  // ---------------------------------------------------------------------

  /** Message `i`, `copies[i]` times, for each `i` in order. */
  function Expand(copies: seq<nat>): (ids: seq<nat>)
    ensures forall j | 0 <= j < |ids| :: ids[j] < |copies|
  {
    if copies == [] then [] else
      var k := |copies| - 1;
      Expand(copies[..k]) + Repeat(k, copies[k])
  }

  /** How many whole copies of each message the task leaves on its streams. */
  function CopiesOf(ms: seq<Msg>, oracle: seq<seq<Try>>): (cs: seq<nat>)
    requires |oracle| == |ms|
    ensures |cs| == |ms|
  {
    if ms == [] then [] else
      var k := |ms| - 1;
      CopiesOf(ms[..k], oracle[..k])
      + [Copies(RunTask(ms[..k], oracle[..k]).0.open, |Encode(ms[k])|, oracle[k])]
  }

  lemma LoggedLonger(w: Wire, log: seq<StreamLog>, ms: seq<Msg>, k: nat)
    requires Logged(w, log, ms, k) && k < |ms|
    ensures Logged(w, log, ms, k + 1)
  {
    forall s | 0 <= s < |log| ensures Holds(w.streams[s], log[s], ms, k + 1) {
      assert Holds(w.streams[s], log[s], ms, k);
    }
  }

  lemma {:induction false} TaskLog(ms: seq<Msg>, oracle: seq<seq<Try>>, k: nat) returns (log: seq<StreamLog>)
    requires |oracle| == |ms| && k <= |ms|
    ensures
      var w := RunTask(ms[..k], oracle[..k]).0;
      Logged(w, log, ms, k) && Usable(w, log, k)
    ensures AllIds(log) == Expand(CopiesOf(ms[..k], oracle[..k]))
    decreases k
  {
    hide Encode, Holds, SendFrom;
    if k == 0 {
      log := [];
    } else {
      var before := TaskLog(ms, oracle, k - 1);
      assert ms[..k][..k - 1] == ms[..k - 1] && oracle[..k][..k - 1] == oracle[..k - 1];
      var w := RunTask(ms[..k - 1], oracle[..k - 1]).0;
      LoggedLonger(w, before, ms, k - 1);
      log := SendKeepsLog(w, before, ms, k - 1, oracle[k - 1]);
      var cs := CopiesOf(ms[..k], oracle[..k]);
      assert cs[..k - 1] == CopiesOf(ms[..k - 1], oracle[..k - 1]);
    }
  }

  /** Each stream a task used holds whole frames in submission order plus at most
      one trailing partial frame, whatever failed; and the whole frames over all
      streams are each message's copies, in submission order. */
  lemma StreamsHoldFrames(ms: seq<Msg>, oracle: seq<seq<Try>>) returns (log: seq<StreamLog>)
    requires |oracle| == |ms|
    ensures Logged(RunTask(ms, oracle).0, log, ms, |ms|)
    ensures AllIds(log) == Expand(CopiesOf(ms, oracle))
  {
    hide Holds;
    log := TaskLog(ms, oracle, |ms|);
    assert ms[..|ms|] == ms && oracle[..|ms|] == oracle;
  }

  /** Everything the receiving side reads, stream by stream. */
  function Received(streams: seq<seq<Byte>>, isPeer: PeerId -> bool): seq<Msg> {
    if streams == [] then [] else
      var k := |streams| - 1;
      Received(streams[..k], isPeer) + ReadAll(streams[k], isPeer).msgs
  }

  lemma StreamReads(stream: seq<Byte>, g: StreamLog, ms: seq<Msg>, isPeer: PeerId -> bool)
    requires Holds(stream, g, ms, |ms|) && AllSendable(ms, isPeer)
    ensures Increasing(g.ids, |ms|) && ReadAll(stream, isPeer) == Reading(Pick(ms, g.ids), true)
  {
    hide Encode, Sendable, Decode, ReadAll;
    var whole := Pick(ms, g.ids);
    if g.tail == [] {
      StreamReadsWholeFrames(whole, g.tail, Msg(Header(Unexpected, 0, 0, [], 0, 0, 0, 0, 0), []), isPeer);
    } else {
      StreamReadsWholeFrames(whole, g.tail, ms[g.cut], isPeer);
    }
  }

  lemma {:induction false} ReceivedIsPicked(streams: seq<seq<Byte>>, log: seq<StreamLog>, ms: seq<Msg>, isPeer: PeerId -> bool)
    requires |log| == |streams| && AllSendable(ms, isPeer)
    requires forall s | 0 <= s < |log| :: Holds(streams[s], log[s], ms, |ms|)
    ensures forall j | 0 <= j < |AllIds(log)| :: AllIds(log)[j] < |ms|
    ensures Received(streams, isPeer) == Pick(ms, AllIds(log))
    decreases |log|
  {
    hide Holds, ReadAll, AllSendable;
    if log != [] {
      var k := |log| - 1;
      ReceivedIsPicked(streams[..k], log[..k], ms, isPeer);
      StreamReads(streams[k], log[k], ms, isPeer);
    }
  }

  /** Whatever fails, the receiver reads, over the task's streams in order, every
      message as often as its whole frame was written, in submission order; every
      read loop ends quietly. */
  lemma WriterDelivers(ms: seq<Msg>, oracle: seq<seq<Try>>, isPeer: PeerId -> bool)
    requires |oracle| == |ms| && AllSendable(ms, isPeer)
    ensures Received(RunTask(ms, oracle).0.streams, isPeer) == Pick(ms, Expand(CopiesOf(ms, oracle)))
    ensures forall s | s in RunTask(ms, oracle).0.streams :: ReadAll(s, isPeer).quiet
  {
    hide Holds, ReadAll, AllSendable, CopiesOf;
    var log := StreamsHoldFrames(ms, oracle);
    var streams := RunTask(ms, oracle).0.streams;
    ReceivedIsPicked(streams, log, ms, isPeer);
    forall s | s in streams ensures ReadAll(s, isPeer).quiet {
      var i :| 0 <= i < |streams| && streams[i] == s;
      StreamReads(s, log[i], ms, isPeer);
    }
  }

  lemma {:induction false} OkMeansCopied(w: Wire, frame: seq<Byte>, ts: seq<Try>)
    requires WireOk(w)
    ensures SendFrom(w, frame, ts).1 ==> Copies(w.open, |frame|, ts) >= 1
    decreases |ts|
  {
    if ts != [] && !TryOnce(w, frame, ts[0]).1 {
      OkMeansCopied(TryOnce(w, frame, ts[0]).0, frame, ts[1..]);
    }
  }

  /** A message reported Ok was delivered at least once, and no message more often
      than it was tried. */
  lemma {:induction false} OkMeansDelivered(ms: seq<Msg>, oracle: seq<seq<Try>>, i: nat)
    requires |oracle| == |ms| && i < |ms|
    ensures CopiesOf(ms, oracle)[i] <= |oracle[i]|
    ensures RunTask(ms, oracle).1[i] ==> CopiesOf(ms, oracle)[i] >= 1
    decreases |ms|
  {
    hide Encode;
    var k := |ms| - 1;
    if i < k {
      OkMeansDelivered(ms[..k], oracle[..k], i);
    } else {
      OkMeansCopied(RunTask(ms[..k], oracle[..k]).0, Encode(ms[k]), oracle[k]);
    }
  }

  // ---------------------------------------------------------------------
  //  Exactly once, and when
  // ---------------------------------------------------------------------

  /** One copy of each message reported Ok, none of the others. */
  function Ones(oks: seq<bool>): (cs: seq<nat>)
    ensures |cs| == |oks| && forall i | 0 <= i < |oks| :: cs[i] == if oks[i] then 1 else 0
  {
    seq(|oks|, i requires 0 <= i < |oks| => if oks[i] then 1 else 0)
  }

  lemma {:induction false} ExpandMore(a: seq<nat>, b: seq<nat>)
    requires |a| == |b| && forall i | 0 <= i < |a| :: a[i] >= b[i]
    ensures |Expand(a)| >= |Expand(b)|
    ensures |Expand(a)| == |Expand(b)| ==> a == b
    decreases |a|
  {
    if a != [] {
      var k := |a| - 1;
      ExpandMore(a[..k], b[..k]);
      assert a == a[..k] + [a[k]] && b == b[..k] + [b[k]];
    }
  }

  /** None of the tries made got its whole frame out and still failed: in the
      code, no flush failed after the last byte was written. */
  predicate CutTries(open: bool, len: nat, ts: seq<Try>)
    decreases |ts|
  {
    ts == [] ||
    if !open && !ts[0].opens then CutTries(false, len, ts[1..])
    else match ts[0].write
      case Done => true
      case Fails(sent) => sent < len && CutTries(false, len, ts[1..])
  }

  /** Try `i` is made: no earlier one succeeded, and it finds a stream. */
  ghost predicate Writes(open: bool, ts: seq<Try>, i: nat)
    requires i < |ts|
  {
    && (ts[i].opens || (i == 0 && open))
    && forall j | 0 <= j < i :: !((ts[j].opens || (j == 0 && open)) && ts[j].write.Done?)
  }

  lemma {:induction false} CutTriesMeans(open: bool, len: nat, ts: seq<Try>)
    ensures CutTries(open, len, ts)
       <==> forall i | 0 <= i < |ts| && Writes(open, ts, i) && ts[i].write.Fails? :: ts[i].write.sent < len
    decreases |ts|
  {
    if ts != [] {
      var rest := ts[1..];
      assert forall i | 0 <= i < |rest| :: rest[i] == ts[i + 1];
      CutTriesMeans(false, len, rest);
      if !((open || ts[0].opens) && ts[0].write.Done?) {
        forall i | 0 <= i < |rest| ensures Writes(false, rest, i) <==> Writes(open, ts, i + 1) {
          WritesLater(open, ts, i);
        }
        forall i | 0 < i < |ts| ensures Writes(open, ts, i) <==> Writes(false, rest, i - 1) {
          WritesLater(open, ts, i - 1);
        }
        assert Writes(open, ts, 0) <==> open || ts[0].opens;
      }
    }
  }

  lemma WritesLater(open: bool, ts: seq<Try>, i: nat)
    requires i + 1 < |ts| && !((open || ts[0].opens) && ts[0].write.Done?)
    ensures Writes(false, ts[1..], i) <==> Writes(open, ts, i + 1)
  {
    var rest := ts[1..];
    assert forall j | 0 <= j < |rest| :: rest[j] == ts[j + 1];
    if Writes(false, rest, i) {
      forall j | 0 <= j < i + 1 ensures !((ts[j].opens || (j == 0 && open)) && ts[j].write.Done?) {
        assert j > 0 ==> ts[j] == rest[j - 1];
      }
    }
  }

  predicate CutTask(ms: seq<Msg>, oracle: seq<seq<Try>>)
    requires |oracle| == |ms|
  {
    ms == [] ||
    var k := |ms| - 1;
    CutTask(ms[..k], oracle[..k]) && CutTries(RunTask(ms[..k], oracle[..k]).0.open, |Encode(ms[k])|, oracle[k])
  }

  lemma {:induction false} OneCopyIff(w: Wire, frame: seq<Byte>, ts: seq<Try>)
    requires WireOk(w)
    ensures CutTries(w.open, |frame|, ts) <==> Copies(w.open, |frame|, ts) == if SendFrom(w, frame, ts).1 then 1 else 0
    decreases |ts|
  {
    if ts != [] && !TryOnce(w, frame, ts[0]).1 {
      var w' := TryOnce(w, frame, ts[0]).0;
      OneCopyIff(w', frame, ts[1..]);
      OkMeansCopied(w', frame, ts[1..]);
    }
  }

  lemma {:induction false} OneCopyEachIff(ms: seq<Msg>, oracle: seq<seq<Try>>)
    requires |oracle| == |ms|
    ensures CutTask(ms, oracle) <==> CopiesOf(ms, oracle) == Ones(RunTask(ms, oracle).1)
    decreases |ms|
  {
    hide Encode, CutTries, Copies, SendFrom;
    if ms != [] {
      var k := |ms| - 1;
      OneCopyEachIff(ms[..k], oracle[..k]);
      OneCopyIff(RunTask(ms[..k], oracle[..k]).0, Encode(ms[k]), oracle[k]);
      var cs, ones := CopiesOf(ms, oracle), Ones(RunTask(ms, oracle).1);
      assert cs[..k] == CopiesOf(ms[..k], oracle[..k]) && ones[..k] == Ones(RunTask(ms[..k], oracle[..k]).1);
      assert cs == cs[..k] + [cs[k]] && ones == ones[..k] + [ones[k]];
    }
  }

  /** The receiver gets exactly the messages reported Ok, once each and in order,
      if and only if no try that was made failed after its whole frame was out. */
  lemma ExactlyOnceIff(ms: seq<Msg>, oracle: seq<seq<Try>>, isPeer: PeerId -> bool)
    requires |oracle| == |ms| && AllSendable(ms, isPeer)
    ensures
      var (w, oks) := RunTask(ms, oracle);
      Received(w.streams, isPeer) == Pick(ms, Expand(Ones(oks))) <==> CutTask(ms, oracle)
  {
    hide AllSendable, RunTask, CopiesOf, Received, CutTask;
    WriterDelivers(ms, oracle, isPeer);
    var oks := RunTask(ms, oracle).1;
    forall i | 0 <= i < |ms| ensures CopiesOf(ms, oracle)[i] >= Ones(oks)[i] {
      OkMeansDelivered(ms, oracle, i);
    }
    ExpandMore(CopiesOf(ms, oracle), Ones(oks));
    OneCopyEachIff(ms, oracle);
  }

  /** A failed flush makes the retry a duplicate: the sender is told Ok once and
      the receiver gets the message twice. */
  lemma FailedFlushDuplicates(m: Msg, isPeer: PeerId -> bool)
    requires Sendable(m, isPeer)
    ensures
      var (w, oks) := RunTask([m], [[Try(true, Fails(|Encode(m)|)), Try(true, Done), Try(true, Done)]]);
      oks == [true] && Received(w.streams, isPeer) == [m, m]
  {
    hide Encode, Sendable, Received;
    var t0, t1, t2 := Try(true, Fails(|Encode(m)|)), Try(true, Done), Try(true, Done);
    var ms, oracle := [m], [[t0, t1, t2]];
    WriterDelivers(ms, oracle, isPeer);
    assert ms[..0] == [] && oracle[..0] == [];
    var ts, len, w0 := oracle[0], |Encode(m)|, Wire([], false);
    assert ts[1..] == [t1, t2];
    assert Copies(false, len, ts) == 1 + Copies(false, len, [t1, t2]) == 2;
    assert RunTask([], []) == (w0, []);
    var w1 := TryOnce(w0, Encode(m), t0).0;
    assert SendFrom(w1, Encode(m), [t1, t2]).1;
    assert SendFrom(w0, Encode(m), ts) == SendFrom(w1, Encode(m), [t1, t2]);
    assert CopiesOf(ms, oracle) == [2];
    assert [2][..0] == [];
    assert Repeat(0, 2) == [0, 0];
    assert Expand([2]) == [0, 0];
    assert Pick(ms, [0, 0]) == [m, m];
  }
}
