/** The plugin's receive path as it runs: operation objects shared by pointer,
    queues, stashes and the completion channel updated in place, user buffers
    written in place.  Every method performs one step of the engine, and a ghost
    history ties the objects to the engine's runs. */
module Plugin {
  import opened Prelude
  import opened Buffers
  import opened Lane
  import opened Engine
  import opened Runs

  /** What the caller posted on an operation. */
  datatype Args = Args(kind: Kind, tag: nat, source: Option<PeerId>, buf: array?<Byte>, bufSize: nat)

  /** An operation id: its address, what was posted on it, and the completion
      data the user's callback will see. */
  class Op {
    const addr: nat
    var args: Args
    var ret: Ret
    var info: CbInfo

    constructor (addr: nat)
      ensures this.addr == addr && args == Args(Other, 0, None, null, 0)
    {
      this.addr := addr;
      args, ret, info := Args(Other, 0, None, null, 0), Success, NoInfo;
    }
  }

  datatype ChannelItem = ChannelItem(op: Op, ret: Ret, info: Option<RecvInfo>)

  /** The operation object is what the engine's queue entry says. */
  ghost predicate Tells(o: Op, r: Recv)
    reads o`args
  {
    var a := o.args;
    && o.addr == r.op
    && a.kind == (if r.filter.AnyMessage? then RecvUnexpected else RecvExpected)
    && (r.filter.Tagged? ==> r.filter == Tagged(a.tag, a.source))
    && r.hasBuf == (a.buf != null) && r.bufSize == a.bufSize
    && (a.buf != null ==> a.bufSize <= a.buf.Length)
  }

  ghost predicate QueueTells(expected: bool, os: seq<Op>, rs: seq<Recv>)
    reads os`args
  {
    && |os| == |rs|
    && forall i | 0 <= i < |os| :: Tells(os[i], rs[i]) && rs[i].filter.Tagged? == expected
  }

  function ChannelOps(cs: seq<ChannelItem>): set<Op> {
    set i | 0 <= i < |cs| :: cs[i].op
  }

  lemma TellsWithout(x: bool, os: seq<Op>, rs: seq<Recv>, i: nat)
    requires QueueTells(x, os, rs) && i < |rs|
    ensures i < |os| && Tells(os[i], rs[i]) && rs[i].filter.Tagged? == x
    ensures QueueTells(x, RemoveAt(os, i), RemoveAt(rs, i))
  {
    hide Tells;
  }

  lemma ChannelTellsMore(cs: seq<ChannelItem>, its: seq<Item>, c: ChannelItem, it: Item)
    requires ChannelTells(cs, its) && ItemTells(c, it)
    ensures ChannelTells(cs + [c], its + [it])
  {
    hide ItemTells;
  }

  ghost predicate ItemTells(c: ChannelItem, it: Item)
    reads c.op`args
  {
    && c.op.addr == it.op && c.ret == it.ret && c.info == it.info
    && (it.info.Some? ==> c.op.args.kind == it.kind)
  }

  ghost predicate ChannelTells(cs: seq<ChannelItem>, its: seq<Item>)
    reads ChannelOps(cs)`args
  {
    |cs| == |its| && forall i | 0 <= i < |cs| :: ItemTells(cs[i], its[i])
  }

  method Fill(buf: array?<Byte>, bufSize: nat, payload: seq<Byte>)
    requires buf != null ==> bufSize <= buf.Length
    modifies buf
    ensures buf != null ==> buf[..] == Filled(old(buf[..]), bufSize, payload)
    ensures buf != null ==> forall k | 0 <= k < buf.Length ::
              buf[k] == if k < |payload| && k < bufSize then payload[k] else old(buf[k])
  {
    var n := Min(|payload|, bufSize);
    if n > 0 && buf != null {
      CopyAt(buf, 0, payload, n);
    }
  }

  ghost predicate CallbacksTell(os: seq<Op>, cs: seq<Completion>) {
    |os| == |cs| && forall i | 0 <= i < |os| :: os[i].addr == cs[i].op
  }

  lemma CallbacksTellMore(os: seq<Op>, cs: seq<Completion>, o: Op, c: Completion)
    requires CallbacksTell(os, cs) && o.addr == c.op
    ensures CallbacksTell(os + [o], cs + [c])
  {
  }

  // ---- What each step does to the parts the plugin stores ----------------

  lemma PostHits(s: State, x: bool, r: Recv)
    requires FirstMessage(LaneOf(s, x).stash, r) < |LaneOf(s, x).stash|
    ensures
      var l, s' := LaneOf(s, x), PostRecv(s, x, r);
      var i := FirstMessage(l.stash, r);
      var info := if x then ExpectedInfo(|l.stash[i].payload|)
                  else UnexpectedInfo(|l.stash[i].payload|, l.stash[i].id, l.stash[i].tag);
      && LaneOf(s', x).ops == l.ops && LaneOf(s', x).stash == RemoveAt(l.stash, i)
      && LaneOf(s', !x) == LaneOf(s, !x) && s'.channel == s.channel && s'.clock == s.clock
      && s'.done == s.done + [Completion(r.id, r.op, Success, info)]
      && s'.handed == (if x then s.handed else s.handed + [l.stash[i].id])
      && s'.freed == (if x then s.freed + [l.stash[i].id] else s.freed)
  {
  }

  lemma PostWaits(s: State, x: bool, r: Recv)
    requires FirstMessage(LaneOf(s, x).stash, r) == |LaneOf(s, x).stash|
    ensures
      var l, s' := LaneOf(s, x), PostRecv(s, x, r);
      && LaneOf(s', x).ops == l.ops + [r] && LaneOf(s', x).stash == l.stash
      && LaneOf(s', !x) == LaneOf(s, !x) && s'.channel == s.channel && s'.clock == s.clock
      && s'.done == s.done && s'.handed == s.handed && s'.freed == s.freed
  {
  }

  lemma CancelEffect(s: State, x: bool, op: nat, at: nat)
    requires FirstOf(LaneOf(s, x).ops, op) < |LaneOf(s, x).ops|
    ensures
      var l, s' := LaneOf(s, x), CancelIn(s, x, op, at);
      var i := FirstOf(l.ops, op);
      && LaneOf(s', x).ops == RemoveAt(l.ops, i) && LaneOf(s', x).stash == l.stash
      && LaneOf(s', !x) == LaneOf(s, !x) && s'.clock == s.clock && s'.channel == s.channel
      && s'.done == s.done + [Completion(l.ops[i].id, op, Canceled, NoInfo)]
      && s'.handed == s.handed && s'.freed == s.freed
  {
  }

  lemma PollEffect(s: State)
    requires s.channel != []
    ensures
      var it, s' := s.channel[0], Step(s, PollOne);
      && s'.unexpected == s.unexpected && s'.expected == s.expected && s'.clock == s.clock + 1
      && s'.channel == s.channel[1..]
      && s'.done == s.done + [Completion(it.id, it.op, it.ret, CallbackInfo(it))]
      && s'.handed == s.handed + (if it.info.Some? && it.kind.RecvUnexpected? then [it.info.value.addr] else [])
      && s'.freed == s.freed + (if it.info.Some? && !it.kind.RecvUnexpected? then [it.info.value.addr] else [])
  {
    assert s.handed + [] == s.handed && s.freed + [] == s.freed;
  }

  lemma ChannelTellsTail(cs: seq<ChannelItem>, its: seq<Item>)
    requires ChannelTells(cs, its) && cs != []
    ensures its != [] && ItemTells(cs[0], its[0]) && cs[0].op.addr == its[0].op && ChannelTells(cs[1..], its[1..])
  {
  }

  function ItemOps(cs: seq<ChannelItem>): (os: seq<Op>)
    ensures |os| == |cs| && forall i | 0 <= i < |cs| :: os[i] == cs[i].op
  {
    seq(|cs|, i requires 0 <= i < |cs| => cs[i].op)
  }

  lemma DeliverHits(s: State, x: bool, m: Arrival)
    requires FirstRecv(LaneOf(s, x).ops, m) < |LaneOf(s, x).ops|
    ensures
      var l, s' := LaneOf(s, x), DeliverMsg(s, x, m);
      var i := FirstRecv(l.ops, m);
      && LaneOf(s', x).ops == RemoveAt(l.ops, i) && LaneOf(s', x).stash == l.stash
      && LaneOf(s', !x) == LaneOf(s, !x) && s'.clock == s.clock && s'.done == s.done
      && s'.channel == s.channel + [LateItem(x, l.ops[i], m)] && s'.handed == s.handed && s'.freed == s.freed
  {
  }

  lemma DeliverWaits(s: State, x: bool, m: Arrival)
    requires FirstRecv(LaneOf(s, x).ops, m) == |LaneOf(s, x).ops|
    ensures
      var l, s' := LaneOf(s, x), DeliverMsg(s, x, m);
      && LaneOf(s', x).ops == l.ops && LaneOf(s', x).stash == l.stash + [m]
      && LaneOf(s', !x) == LaneOf(s, !x) && s'.clock == s.clock && s'.done == s.done
      && s'.channel == s.channel && s'.handed == s.handed && s'.freed == s.freed
  {
  }

  class Queues {
    var unexpectedOps: seq<Op>
    var expectedOps: seq<Op>
    var unexpectedStash: seq<Arrival>
    var expectedStash: seq<Arrival>
    var channel: seq<ChannelItem>
    var callbacks: seq<Op>
    var handed: seq<nat>
    var freed: seq<nat>
    var steps: nat
    ghost var s: State
    ghost var history: seq<Event>

    ghost predicate QueuesValid()
      reads this, unexpectedOps`args, expectedOps`args
    {
      QueueTells(false, unexpectedOps, s.unexpected.ops) && QueueTells(true, expectedOps, s.expected.ops)
    }

    ghost predicate RestValid()
      reads this
    {
      && s.clock == steps
      && unexpectedStash == s.unexpected.stash && expectedStash == s.expected.stash
      && CallbacksTell(callbacks, s.done)
      && handed == s.handed && freed == s.freed
    }

    /** The objects are what the engine's state says. */
    ghost predicate Consistent()
      reads this, unexpectedOps`args, expectedOps`args, ChannelOps(channel)`args
    {
      QueuesValid() && RestValid() && ChannelTells(channel, s.channel)
    }

    /** And the engine's state is what the steps so far make of it. */
    ghost predicate Valid()
      reads this, unexpectedOps`args, expectedOps`args, ChannelOps(channel)`args
    {
      Consistent() && s == Run(history)
    }

    /** The operation is queued or waiting in the channel. */
    ghost predicate Outstanding(op: Op)
      reads this
    {
      op in unexpectedOps || op in expectedOps || op in ChannelOps(channel)
    }

    constructor ()
      ensures Valid() && history == []
    {
      unexpectedOps, expectedOps, unexpectedStash, expectedStash := [], [], [], [];
      channel, callbacks, handed, freed, steps, s, history := [], [], [], [], 0, Init, [];
    }

    /** The engine's state has made step `e`. */
    ghost method Record(e: Event)
      requires Consistent() && s == Step(Run(history), e)
      modifies this`history
      ensures Valid() && history == old(history) + [e] && s == old(s)
    {
      hide Run, Step;
      RunOneMore(history, e);
      history := history + [e];
    }

    /** No stashed message fits: the operation joins the queue. */
    method Enqueue(expected: bool, op: Op, ghost r: Recv)
      requires Consistent() && r.id == steps && Tells(op, r) && r.filter.Tagged? == expected
      requires FirstMessage(LaneOf(s, expected).stash, r) == |LaneOf(s, expected).stash|
      modifies this
      ensures Consistent() && s == PostRecv(old(s).(clock := old(steps) + 1), expected, r)
      ensures callbacks == old(callbacks)
      ensures history == old(history)
    {
      hide PostRecv, Tells;
      ghost var s0 := s.(clock := s.clock + 1);
      PostWaits(s0, expected, r);
      if expected {
        expectedOps := expectedOps + [op];
      } else {
        unexpectedOps := unexpectedOps + [op];
      }
      s := PostRecv(s0, expected, r);
      steps := steps + 1;
    }

    /** The oldest stashed message is taken and the operation completes at once;
        the source address goes to the user. */
    method TakeUnexpected(op: Op, ghost r: Recv)
      requires Consistent() && r.id == steps && r.op == op.addr
      requires unexpectedStash != [] && FirstMessage(unexpectedStash, r) == 0
      modifies this
      ensures Consistent() && s == PostRecv(old(s).(clock := old(steps) + 1), false, r)
      ensures callbacks == old(callbacks) + [op] && history == old(history)
    {
      hide PostRecv, QueueTells, ChannelTells, CallbacksTell, RemoveAt;
      ghost var s0 := s.(clock := s.clock + 1);
      PostHits(s0, false, r);
      ghost var after := PostRecv(s0, false, r);
      CallbacksTellMore(callbacks, s.done, op, after.done[|s.done|]);
      handed := handed + [unexpectedStash[0].id];
      unexpectedStash := RemoveAt(unexpectedStash, 0);
      callbacks := callbacks + [op];
      s := after;
      steps := steps + 1;
    }

    /** The i-th stashed message is taken and the operation completes at once; the
        source address is freed. */
    method TakeExpected(op: Op, i: nat, ghost r: Recv)
      requires Consistent() && r.id == steps && r.op == op.addr
      requires i == FirstMessage(expectedStash, r) < |expectedStash|
      modifies this
      ensures Consistent() && s == PostRecv(old(s).(clock := old(steps) + 1), true, r)
      ensures callbacks == old(callbacks) + [op] && history == old(history)
    {
      hide PostRecv, QueueTells, ChannelTells, CallbacksTell, RemoveAt;
      ghost var s0 := s.(clock := s.clock + 1);
      PostHits(s0, true, r);
      ghost var after := PostRecv(s0, true, r);
      CallbacksTellMore(callbacks, s.done, op, after.done[|s.done|]);
      freed := freed + [expectedStash[i].id];
      expectedStash := RemoveAt(expectedStash, i);
      callbacks := callbacks + [op];
      s := after;
      steps := steps + 1;
    }

    method MsgRecvUnexpected(op: Op, buf: array?<Byte>, bufSize: nat)
      requires Valid() && !Outstanding(op)
      requires buf != null ==> bufSize <= buf.Length
      modifies this, op, buf
      ensures Valid() && history == old(history) + [PostUnexpected(op.addr, buf != null, bufSize)]
      ensures old(unexpectedStash) == [] ==>
                callbacks == old(callbacks) && (buf != null ==> buf[..] == old(buf[..]))
      ensures old(unexpectedStash) != [] ==>
                var m := old(unexpectedStash)[0];
                && callbacks == old(callbacks) + [op]
                && op.ret == Success && op.info == UnexpectedInfo(|m.payload|, m.id, m.tag)
                && (buf != null ==> buf[..] == Filled(old(buf[..]), bufSize, m.payload))
    {
      hide PostRecv, QueueTells, ChannelTells, CallbacksTell, Run, Filled, RemoveAt;
      ghost var r := RecvOf(steps, PostUnexpected(op.addr, buf != null, bufSize));
      op.args := Args(RecvUnexpected, op.args.tag, None, buf, bufSize);
      if |unexpectedStash| > 0 {
        var m := unexpectedStash[0];
        Fill(buf, bufSize, m.payload);
        op.ret, op.info := Success, UnexpectedInfo(|m.payload|, m.id, m.tag);
        TakeUnexpected(op, r);
      } else {
        Enqueue(false, op, r);
      }
      Record(PostUnexpected(op.addr, buf != null, bufSize));
    }

    /** Searches the expected stash front to back, as `position` does. */
    method FindStashed(tag: nat, source: Option<PeerId>, ghost r: Recv) returns (i: nat)
      requires r.filter == Tagged(tag, source)
      ensures i == FirstMessage(expectedStash, r)
    {
      i := 0;
      while i < |expectedStash|
        invariant i <= |expectedStash|
        invariant forall j | 0 <= j < i :: !Matches(r, expectedStash[j])
      {
        var m := expectedStash[i];
        if m.tag == tag && (source.None? || m.source == source.value) {
          return;
        }
        i := i + 1;
      }
    }

    method MsgRecvExpected(op: Op, buf: array?<Byte>, bufSize: nat, source: Option<PeerId>, tag: nat)
      requires Valid() && !Outstanding(op)
      requires buf != null ==> bufSize <= buf.Length
      modifies this, op, buf
      ensures Valid() && history == old(history) + [PostExpected(op.addr, tag, source, buf != null, bufSize)]
      ensures
        var r := Recv(old(steps), op.addr, Tagged(tag, source), buf != null, bufSize);
        var i := FirstMessage(old(expectedStash), r);
        if i < |old(expectedStash)| then
          && callbacks == old(callbacks) + [op]
          && op.ret == Success && op.info == ExpectedInfo(|old(expectedStash)[i].payload|)
          && (buf != null ==> buf[..] == Filled(old(buf[..]), bufSize, old(expectedStash)[i].payload))
        else
          callbacks == old(callbacks) && (buf != null ==> buf[..] == old(buf[..]))
    {
      hide PostRecv, QueueTells, ChannelTells, CallbacksTell, Run, Filled, RemoveAt;
      ghost var r := RecvOf(steps, PostExpected(op.addr, tag, source, buf != null, bufSize));
      op.args := Args(RecvExpected, tag, source, buf, bufSize);
      var i := FindStashed(tag, source, r);
      if i < |expectedStash| {
        var m := expectedStash[i];
        Fill(buf, bufSize, m.payload);
        op.ret, op.info := Success, ExpectedInfo(|m.payload|);
        TakeExpected(op, i, r);
      } else {
        Enqueue(true, op, r);
      }
      Record(PostExpected(op.addr, tag, source, buf != null, bufSize));
    }

    /** Searches a receive queue for the first operation that takes the message. */
    method FindRecv(expected: bool, m: Arrival) returns (i: nat)
      requires Consistent()
      ensures i == FirstRecv(LaneOf(s, expected).ops, m)
      ensures |Waiting(expected)| == |LaneOf(s, expected).ops| && s.clock == steps && Consistent()
      ensures i < |Waiting(expected)| ==> Tells(Waiting(expected)[i], LaneOf(s, expected).ops[i])
    {
      ghost var rs := LaneOf(s, expected).ops;
      if !expected {
        i := 0;
      } else {
        i := 0;
        while i < |expectedOps|
          invariant i <= |expectedOps|
          invariant forall j | 0 <= j < i :: !Matches(rs[j], m)
        {
          var a := expectedOps[i].args;
          assert Tells(expectedOps[i], rs[i]);
          if a.tag == m.tag && (a.source.None? || a.source.value == m.source) {
            return;
          }
          i := i + 1;
        }
      }
    }

    ghost function Waiting(expected: bool): seq<Op>
      reads this
    {
      if expected then expectedOps else unexpectedOps
    }

    /** Buffers of the posted receives. */
    ghost function PostedBuffers(expected: bool): set<array<Byte>>
      reads this, Waiting(expected)`args
    {
      set o | o in Waiting(expected) && o.args.buf != null :: o.args.buf
    }

    /** The i-th posted receive gets the message; it completes through the channel. */
    method HandOver(expected: bool, i: nat, m: Arrival)
      requires Consistent() && m.id == steps
      requires i == FirstRecv(LaneOf(s, expected).ops, m) < |LaneOf(s, expected).ops|
      modifies this
      ensures Consistent() && s == DeliverMsg(old(s).(clock := old(steps) + 1), expected, m)
      ensures callbacks == old(callbacks)
      ensures history == old(history)
    {
      hide DeliverMsg, QueueTells, ChannelTells, CallbacksTell;
      ghost var s0 := s.(clock := s.clock + 1);
      DeliverHits(s0, expected, m);
      ghost var r := LaneOf(s, expected).ops[i];
      TellsWithout(expected, Waiting(expected), LaneOf(s, expected).ops, i);
      var op := if expected then expectedOps[i] else unexpectedOps[i];
      var item := ChannelItem(op, Success, Some(RecvInfo(|m.payload|, m.id, m.tag)));
      ChannelTellsMore(channel, s.channel, item, LateItem(expected, r, m));
      if expected {
        expectedOps := RemoveAt(expectedOps, i);
      } else {
        unexpectedOps := RemoveAt(unexpectedOps, i);
      }
      channel := channel + [item];
      s := DeliverMsg(s0, expected, m);
      steps := steps + 1;
    }

    method Stash(expected: bool, m: Arrival)
      requires Consistent() && m.id == steps
      requires FirstRecv(LaneOf(s, expected).ops, m) == |LaneOf(s, expected).ops|
      modifies this
      ensures Consistent() && s == DeliverMsg(old(s).(clock := old(steps) + 1), expected, m)
      ensures callbacks == old(callbacks)
      ensures history == old(history)
    {
      hide DeliverMsg;
      ghost var s0 := s.(clock := s.clock + 1);
      DeliverWaits(s0, expected, m);
      if expected {
        expectedStash := expectedStash + [m];
      } else {
        unexpectedStash := unexpectedStash + [m];
      }
      s := DeliverMsg(s0, expected, m);
      steps := steps + 1;
    }

    /** The payload is copied into the buffer of the i-th posted receive. */
    method FillFor(expected: bool, i: nat, payload: seq<Byte>)
      requires Consistent() && i < |Waiting(expected)| && Tells(Waiting(expected)[i], LaneOf(s, expected).ops[i])
      modifies PostedBuffers(expected)
      ensures Consistent()
      ensures
        var a := Waiting(expected)[i].args;
        && (a.buf != null ==> a.buf[..] == Filled(old(a.buf[..]), a.bufSize, payload))
        && forall b: array<Byte> | b in PostedBuffers(expected) && b != a.buf :: b[..] == old(b[..])
    {
      var op := if expected then expectedOps[i] else unexpectedOps[i];
      Fill(op.args.buf, op.args.bufSize, payload);
    }

    method HandleIncomingMsg(expected: bool, source: PeerId, tag: nat, payload: seq<Byte>)
      requires Valid()
      modifies this, PostedBuffers(expected)
      ensures Valid() && history == old(history) + [Deliver(expected, source, tag, payload)]
      ensures callbacks == old(callbacks)
      ensures
        var m := Arrival(old(steps), source, tag, payload);
        var i := FirstRecv(LaneOf(old(s), expected).ops, m);
        if i < |LaneOf(old(s), expected).ops| then
          var a := old(Waiting(expected)[i].args);
          && (a.buf != null ==> a.buf[..] == Filled(old(a.buf[..]), a.bufSize, payload))
          && forall b: array<Byte> | b in old(PostedBuffers(expected)) && b != a.buf :: b[..] == old(b[..])
        else
          forall b: array<Byte> | b in old(PostedBuffers(expected)) :: b[..] == old(b[..])
    {
      hide DeliverMsg, Run, Consistent, Tells, Filled;
      var m := Arrival(steps, source, tag, payload);
      var i := FindRecv(expected, m);
      var n := if expected then |expectedOps| else |unexpectedOps|;
      if i < n {
        FillFor(expected, i, payload);
        HandOver(expected, i, m);
      } else {
        Stash(expected, m);
      }
      Record(Deliver(expected, source, tag, payload));
    }

    /** Searches a receive queue for the operation. */
    method FindOp(expected: bool, op: Op) returns (i: nat)
      requires Consistent() && forall o | o in Waiting(expected) && o.addr == op.addr :: o == op
      ensures i == FirstOf(LaneOf(s, expected).ops, op.addr) && Consistent()
      ensures |Waiting(expected)| == |LaneOf(s, expected).ops| && s.clock == steps
      ensures i < |Waiting(expected)| <==> op in Waiting(expected)
    {
      var os := if expected then expectedOps else unexpectedOps;
      ghost var rs := LaneOf(s, expected).ops;
      i := 0;
      while i < |os|
        invariant i <= |os|
        invariant forall j | 0 <= j < i :: rs[j].op != op.addr && os[j] != op
      {
        assert Tells(os[i], rs[i]) && os[i] in os;
        if os[i] == op {
          return;
        }
        i := i + 1;
      }
    }

    /** The i-th queued receive leaves its queue and completes as cancelled. */
    method WithdrawUnexpected(op: Op, i: nat)
      requires Consistent() && i == FirstOf(s.unexpected.ops, op.addr) < |s.unexpected.ops|
      modifies this, op`ret
      ensures Consistent() && s == CancelIn(old(s).(clock := old(steps) + 1), false, op.addr, old(steps))
      ensures callbacks == old(callbacks) + [op] && op.ret == Canceled && history == old(history)
    {
      hide CancelIn, QueueTells, ChannelTells, CallbacksTell;
      ghost var s0 := s.(clock := s.clock + 1);
      CancelEffect(s0, false, op.addr, steps);
      ghost var after := CancelIn(s0, false, op.addr, steps);
      CallbacksTellMore(callbacks, s.done, op, after.done[|s.done|]);
      TellsWithout(false, unexpectedOps, s.unexpected.ops, i);
      unexpectedOps := RemoveAt(unexpectedOps, i);
      op.ret := Canceled;
      callbacks := callbacks + [op];
      s := after;
      steps := steps + 1;
    }

    method WithdrawExpected(op: Op, i: nat)
      requires Consistent() && i == FirstOf(s.expected.ops, op.addr) < |s.expected.ops|
      modifies this, op`ret
      ensures Consistent() && s == CancelIn(old(s).(clock := old(steps) + 1), true, op.addr, old(steps))
      ensures callbacks == old(callbacks) + [op] && op.ret == Canceled && history == old(history)
    {
      hide CancelIn, QueueTells, ChannelTells, CallbacksTell;
      ghost var s0 := s.(clock := s.clock + 1);
      CancelEffect(s0, true, op.addr, steps);
      ghost var after := CancelIn(s0, true, op.addr, steps);
      CallbacksTellMore(callbacks, s.done, op, after.done[|s.done|]);
      TellsWithout(true, expectedOps, s.expected.ops, i);
      expectedOps := RemoveAt(expectedOps, i);
      op.ret := Canceled;
      callbacks := callbacks + [op];
      s := after;
      steps := steps + 1;
    }

    method Cancel(op: Op)
      requires Valid()
      requires forall o | (o in unexpectedOps || o in expectedOps) && o.addr == op.addr :: o == op
      modifies this, op`ret
      ensures Valid() && history == old(history) + [CancelOp(op.addr)]
      ensures old(op in unexpectedOps || op in expectedOps) ==>
                callbacks == old(callbacks) + [op] && op.ret == Canceled
      ensures !old(op in unexpectedOps || op in expectedOps) ==>
                callbacks == old(callbacks) && op.ret == old(op.ret)
    {
      hide CancelIn, Run, Consistent;
      var i := FindOp(false, op);
      if i < |unexpectedOps| {
        WithdrawUnexpected(op, i);
      } else {
        i := FindOp(true, op);
        if i < |expectedOps| {
          WithdrawExpected(op, i);
        } else {
          Tick();
        }
      }
      Record(CancelOp(op.addr));
    }

    /** A step that changes nothing but the step count. */
    method Tick()
      requires Consistent()
      modifies this
      ensures Consistent() && s == old(s).(clock := old(steps) + 1) && callbacks == old(callbacks)
      ensures history == old(history)
    {
      s := s.(clock := s.clock + 1);
      steps := steps + 1;
    }

    /** A spawned task reports the end of a send, a put, or a failed get. */
    method ReportDone(op: Op, ok: bool)
      requires Valid()
      modifies this
      ensures Valid() && history == old(history) + [Report(op.addr, ok)] && callbacks == old(callbacks)
      ensures
        && |channel| == |old(channel)| + 1 && channel[..|old(channel)|] == old(channel)
        && var c := channel[|old(channel)|]; c.op == op && (c.ret == Success <==> ok) && c.info.None?
    {
      hide Run, ChannelTells, QueueTells;
      var item := ChannelItem(op, if ok then Success else ProtocolError, None);
      ghost var it := Item(s.clock, op.addr, Other, if ok then Success else ProtocolError, None);
      ChannelTellsMore(channel, s.channel, item, it);
      channel := channel + [item];
      s := Step(s, Report(op.addr, ok));
      steps := steps + 1;
      Record(Report(op.addr, ok));
    }

    /** What the head of the channel tells the user, and where its address goes. */
    method Unpack(c: ChannelItem, ghost it: Item) returns (told: CbInfo, toUser: seq<nat>, toFree: seq<nat>)
      requires Consistent() && ItemTells(c, it)
      ensures Consistent()
      ensures told == if it.info.Some? && !it.kind.Other? then CallbackInfo(it) else c.op.info
      ensures toUser == if it.info.Some? && it.kind.RecvUnexpected? then [it.info.value.addr] else []
      ensures toFree == if it.info.Some? && !it.kind.RecvUnexpected? then [it.info.value.addr] else []
    {
      told, toUser, toFree := c.op.info, [], [];
      if c.info.Some? {
        var info := c.info.value;
        if c.op.args.kind == RecvUnexpected {
          told, toUser := UnexpectedInfo(info.actualSize, info.addr, info.tag), [info.addr];
        } else {
          if c.op.args.kind == RecvExpected {
            told := ExpectedInfo(info.actualSize);
          }
          toFree := [info.addr];
        }
      }
    }

    /** The head of the channel, already unpacked, moves to the callback queue. */
    method Advance(toUser: seq<nat>, toFree: seq<nat>)
      requires Consistent() && channel != []
      requires
        var it := s.channel[0];
        && toUser == (if it.info.Some? && it.kind.RecvUnexpected? then [it.info.value.addr] else [])
        && toFree == (if it.info.Some? && !it.kind.RecvUnexpected? then [it.info.value.addr] else [])
      modifies this
      ensures Consistent() && s == Step(old(s), PollOne) && history == old(history)
      ensures channel == old(channel)[1..] && callbacks == old(callbacks) + [old(channel)[0].op]
    {
      hide Run, Step, QueueTells, ChannelTells, ItemTells, CallbacksTell;
      ChannelTellsTail(channel, s.channel);
      PollEffect(s);
      ghost var after := Step(s, PollOne);
      CallbacksTellMore(callbacks, s.done, channel[0].op, after.done[|s.done|]);
      handed, freed := handed + toUser, freed + toFree;
      callbacks := callbacks + [channel[0].op];
      channel := channel[1..];
      s := after;
      steps := steps + 1;
    }

    method PollNext()
      requires Valid() && channel != []
      modifies this, channel[0].op`ret, channel[0].op`info
      ensures Valid() && history == old(history) + [PollOne]
      ensures channel == old(channel)[1..]
      ensures
        var c, it := old(channel)[0], old(s).channel[0];
        && callbacks == old(callbacks) + [c.op] && c.op.ret == c.ret
        && c.op.info == if it.info.Some? && !it.kind.Other? then CallbackInfo(it) else old(c.op.info)
    {
      hide Run, Step, QueueTells, ChannelTells, ItemTells, CallbacksTell;
      ChannelTellsTail(channel, s.channel);
      var c := channel[0];
      var told, toUser, toFree := Unpack(c, s.channel[0]);
      ChannelTellsTail(channel, s.channel);
      c.op.ret, c.op.info := c.ret, told;
      Advance(toUser, toFree);
      Record(PollOne);
    }

    /** A report and the poll after it: the user sees success exactly when the task
        succeeded. */
    method ReportAndPoll(op: Op, ok: bool) returns (count: nat)
      requires Valid()
      modifies this, ChannelOps(channel), op
      ensures Valid() && channel == [] && count == |old(channel)| + 1
      ensures callbacks == old(callbacks) + ItemOps(old(channel)) + [op]
      ensures op.ret == Success <==> ok
    {
      hide Run, Consistent, CallbackInfo;
      ghost var before := channel;
      ReportDone(op, ok);
      ghost var all := channel;
      assert all == before + [all[|before|]];
      assert ItemOps(all) == ItemOps(before) + [op];
      assert LastFor(all, |all|, |before|);
      count := Poll();
      assert all[|before|].op.ret == all[|before|].ret;
    }

    /** Empties the completion channel, oldest item first. */
    method Poll() returns (count: nat)
      requires Valid()
      modifies this, ChannelOps(channel)
      ensures Valid() && history == old(history) + Polls(count)
      ensures channel == [] && count == |old(channel)|
      ensures callbacks == old(callbacks) + ItemOps(old(channel))
      ensures forall i | LastFor(old(channel), |old(channel)|, i) ::
                var c, it := old(channel)[i], old(s).channel[i];
                c.op.ret == c.ret && (it.info.Some? && !it.kind.Other? ==> c.op.info == CallbackInfo(it))
    {
      hide Run, QueueTells, ItemTells, RestValid;
      count := 0;
      ghost var all, items := channel, s.channel;
      assert all[0..] == all && items[0..] == items && history + Polls(0) == history;
      while channel != []
        invariant Valid() && count <= |all| == |items| && channel == all[count..] && s.channel == items[count..]
        invariant history == old(history) + Polls(count)
        invariant callbacks == old(callbacks) + ItemOps(all)[..count]
        invariant forall i | LastFor(all, count, i) ::
                    all[i].op.ret == all[i].ret
                    && (items[i].info.Some? && !items[i].kind.Other? ==> all[i].op.info == CallbackInfo(items[i]))
        decreases |channel|
      {
        assert channel[0] == all[count] && s.channel[0] == items[count];
        PollShortens(history);
        LastForLess(all, count);
        PollNext();
        assert ItemOps(all)[..count + 1] == ItemOps(all)[..count] + [all[count].op];
        count := count + 1;
      }
    }
  }

  /** `n` turns of the poll loop. */
  function Polls(n: nat): (es: seq<Event>)
    ensures |es| == n && forall i | 0 <= i < n :: es[i] == PollOne
  {
    seq(n, _ => PollOne)
  }

  /** Among the first `n` items, the i-th is the last one of its operation. */
  ghost predicate LastFor(cs: seq<ChannelItem>, n: nat, i: int) {
    0 <= i < n <= |cs| && forall j | i < j < n :: cs[j].op != cs[i].op
  }

  lemma LastForLess(cs: seq<ChannelItem>, n: nat)
    requires n < |cs|
    ensures forall i | LastFor(cs, n + 1, i) && i < n :: LastFor(cs, n, i) && cs[i].op != cs[n].op
  {
  }

  lemma PollShortens(es: seq<Event>)
    ensures Run(es).channel != [] ==> Run(es + [PollOne]).channel == Run(es).channel[1..]
  {
    hide Run, Step;
    RunOneMore(es, PollOne);
    if Run(es).channel != [] { PollEffect(Run(es)); }
  }

  // ---------------------------------------------------------------------
  //  What the runs guarantee, on the objects
  // ---------------------------------------------------------------------

  /** No queued operation could take a stashed message. */
  lemma NothingMatchable(q: Queues, o: Op, m: Arrival)
    requires q.Valid()
    ensures o in q.expectedOps && m in q.expectedStash ==>
              o.args.tag != m.tag || (o.args.source.Some? && o.args.source.value != m.source)
    ensures q.unexpectedOps == [] || q.unexpectedStash == []
  {
    hide Run;
    RunKeepsLanes(q.history, true);
    UnexpectedIsZip(q.history);
    if o in q.expectedOps && m in q.expectedStash {
      var i :| 0 <= i < |q.expectedOps| && q.expectedOps[i] == o;
      var r := q.s.expected.ops[i];
      assert Tells(o, r) && r in LaneOf(q.s, true).ops && m in LaneOf(q.s, true).stash;
    }
  }

  /** The address of each arrival is in one stash, in the channel, in the user's
      hands or freed, exactly once. */
  lemma AddressesInOnePlace(q: Queues, i: nat)
    requires q.Valid()
    ensures multiset(MsgIds(q.unexpectedStash))[i] + multiset(MsgIds(q.expectedStash))[i]
          + multiset(ItemAddrs(q.s.channel))[i] + multiset(q.handed)[i] + multiset(q.freed)[i]
         == Hit(i < |q.history| && q.history[i].Deliver?)
  {
    hide Run, ItemAddrs, MsgIds;
    EachAddrInOnePlace(q.history, i);
  }
}
