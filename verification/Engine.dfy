/** The receive engine as a step system: two matching lanes, the completion
    channel, the user's callback queue and the source addresses allocated for
    arriving messages.  One step is one critical section of the plugin.  The
    step number is the identity of the posting, report or arrival it performs,
    and of the address an arrival allocates. */
module Engine {
  import opened Prelude
  import opened Lane

  datatype Kind = RecvUnexpected | RecvExpected | Other

  datatype RecvInfo = RecvInfo(actualSize: nat, addr: nat, tag: nat)

  /** An entry of the completion channel. */
  datatype Item = Item(id: nat, op: nat, kind: Kind, ret: Ret, info: Option<RecvInfo>)

  datatype CbInfo =
    | NoInfo
    | UnexpectedInfo(actualSize: nat, source: nat, tag: nat)
    | ExpectedInfo(actualSize: nat)

  /** An operation handed to the user's callback queue. */
  datatype Completion = Completion(id: nat, op: nat, ret: Ret, info: CbInfo)

  /** Bytes copied to the front of the buffer of the receive posted at step `id`. */
  datatype Copy = Copy(expected: bool, id: nat, bytes: seq<Byte>)

  datatype State = State(
    clock: nat,
    unexpected: Lane,
    expected: Lane,
    channel: seq<Item>,
    done: seq<Completion>,
    handed: seq<nat>,
    freed: seq<nat>,
    copies: seq<Copy>)

  const Init := State(0, Empty, Empty, [], [], [], [], [])

  datatype Event =
    | PostUnexpected(op: nat, hasBuf: bool, bufSize: nat)
    | PostExpected(op: nat, tag: nat, source: Option<PeerId>, hasBuf: bool, bufSize: nat)
    | Deliver(expected: bool, from: PeerId, msgTag: nat, payload: seq<Byte>)
    | CancelOp(op: nat)
    | Report(op: nat, ok: bool)
    | PollOne

  function LaneOf(s: State, expected: bool): Lane { if expected then s.expected else s.unexpected }

  function WithLane(s: State, expected: bool, l: Lane): State {
    if expected then s.(expected := l) else s.(unexpected := l)
  }

  function KindOf(expected: bool): Kind { if expected then RecvExpected else RecvUnexpected }

  /** What a receive takes of a payload: as much as its buffer holds. */
  function Written(r: Recv, m: Arrival): seq<Byte> { m.payload[..Min(|m.payload|, r.bufSize)] }

  function CopyFor(expected: bool, r: Recv, m: Arrival): seq<Copy> {
    if r.hasBuf && |Written(r, m)| > 0 then [Copy(expected, r.id, Written(r, m))] else []
  }

  function StashHit(s: State, expected: bool, r: Recv, m: Arrival): State {
    var s' := s.(copies := s.copies + CopyFor(expected, r, m));
    if expected then
      s'.(done := s.done + [Completion(r.id, r.op, Success, ExpectedInfo(|m.payload|))],
          freed := s.freed + [m.id])
    else
      s'.(done := s.done + [Completion(r.id, r.op, Success, UnexpectedInfo(|m.payload|, m.id, m.tag))],
          handed := s.handed + [m.id])
  }

  function PostRecv(s: State, expected: bool, r: Recv): State {
    var l := LaneOf(s, expected);
    var i := FirstMessage(l.stash, r);
    var s' := WithLane(s, expected, Post(l, r));
    if i < |l.stash| then StashHit(s', expected, r, l.stash[i]) else s'
  }

  function LateItem(expected: bool, r: Recv, m: Arrival): Item {
    Item(r.id, r.op, KindOf(expected), Success, Some(RecvInfo(|m.payload|, m.id, m.tag)))
  }

  function DeliverMsg(s: State, expected: bool, m: Arrival): State {
    var l := LaneOf(s, expected);
    var i := FirstRecv(l.ops, m);
    var s' := WithLane(s, expected, Arrive(l, m));
    if i < |l.ops| then
      s'.(channel := s.channel + [LateItem(expected, l.ops[i], m)],
          copies := s.copies + CopyFor(expected, l.ops[i], m))
    else s'
  }

  function CancelIn(s: State, expected: bool, op: nat, at: nat): State
    requires FirstOf(LaneOf(s, expected).ops, op) < |LaneOf(s, expected).ops|
  {
    var l := LaneOf(s, expected);
    WithLane(s, expected, Cancel(l, op, at))
      .(done := s.done + [Completion(l.ops[FirstOf(l.ops, op)].id, op, Canceled, NoInfo)])
  }

  function CancelEither(s: State, op: nat, at: nat): State {
    if FirstOf(s.unexpected.ops, op) < |s.unexpected.ops| then CancelIn(s, false, op, at)
    else if FirstOf(s.expected.ops, op) < |s.expected.ops| then CancelIn(s, true, op, at)
    else s
  }

  function CallbackInfo(it: Item): CbInfo {
    if it.info.None? then NoInfo
    else match it.kind
      case RecvUnexpected => UnexpectedInfo(it.info.value.actualSize, it.info.value.addr, it.info.value.tag)
      case RecvExpected => ExpectedInfo(it.info.value.actualSize)
      case Other => NoInfo
  }

  /** One turn of the poll loop. */
  function PollItem(s: State): State
    requires s.channel != []
  {
    var it := s.channel[0];
    var s' := s.(channel := s.channel[1..],
                 done := s.done + [Completion(it.id, it.op, it.ret, CallbackInfo(it))]);
    if it.info.None? then s'
    else if it.kind.RecvUnexpected? then s'.(handed := s.handed + [it.info.value.addr])
    else s'.(freed := s.freed + [it.info.value.addr])
  }

  /** A completion reported by a send, put or failed get. */
  function AddItem(s: State, it: Item): State { s.(channel := s.channel + [it]) }

  function RecvOf(id: nat, e: Event): Recv
    requires e.PostUnexpected? || e.PostExpected?
  {
    if e.PostUnexpected? then Recv(id, e.op, AnyMessage, e.hasBuf, e.bufSize)
    else Recv(id, e.op, Tagged(e.tag, e.source), e.hasBuf, e.bufSize)
  }

  function ArrivalOf(id: nat, e: Event): Arrival
    requires e.Deliver?
  {
    Arrival(id, e.from, e.msgTag, e.payload)
  }

  function Step(s: State, e: Event): State {
    var s' := s.(clock := s.clock + 1);
    match e
    case PostUnexpected(_, _, _) => PostRecv(s', false, RecvOf(s.clock, e))
    case PostExpected(_, _, _, _, _) => PostRecv(s', true, RecvOf(s.clock, e))
    case Deliver(expected, _, _, _) => DeliverMsg(s', expected, ArrivalOf(s.clock, e))
    case CancelOp(op) => CancelEither(s', op, s.clock)
    case Report(op, ok) =>
      AddItem(s', Item(s.clock, op, Other, if ok then Success else ProtocolError, None))
    case PollOne => if s.channel == [] then s' else PollItem(s')
  }

  /** The state after a run: any sequence of steps, in any interleaving. */
  function Run(es: seq<Event>): State {
    if es == [] then Init else
      var k := |es| - 1;
      Step(Run(es[..k]), es[k])
  }

  lemma {:induction false} RunClock(es: seq<Event>)
    ensures Run(es).clock == |es|
    decreases |es|
  {
    if es != [] { RunClock(es[..|es| - 1]); }
  }

  lemma RunOneMore(es: seq<Event>, e: Event)
    ensures Run(es + [e]) == Step(Run(es), e)
  {
    assert (es + [e])[..|es|] == es;
  }

  // ---------------------------------------------------------------------
  //  A run, as seen by each lane
  // ---------------------------------------------------------------------

  predicate PostsTo(e: Event, expected: bool) {
    if expected then e.PostExpected? else e.PostUnexpected?
  }

  predicate ArrivesTo(e: Event, expected: bool) { e.Deliver? && e.expected == expected }

  function PostsOf(es: seq<Event>, expected: bool): seq<Recv> {
    if es == [] then [] else
      var k := |es| - 1;
      PostsOf(es[..k], expected) + if PostsTo(es[k], expected) then [RecvOf(k, es[k])] else []
  }

  function ArrivalsOf(es: seq<Event>, expected: bool): seq<Arrival> {
    if es == [] then [] else
      var k := |es| - 1;
      ArrivalsOf(es[..k], expected) + if ArrivesTo(es[k], expected) then [ArrivalOf(k, es[k])] else []
  }

  /** How one step acts on one lane. */
  ghost predicate LaneSteps(l: Lane, l': Lane, e: Event, expected: bool, now: nat) {
    if PostsTo(e, expected) then l' == Post(l, RecvOf(now, e))
    else if ArrivesTo(e, expected) then l' == Arrive(l, ArrivalOf(now, e))
    else if e.CancelOp? then l' == Cancel(l, e.op, now) || l' == l
    else l' == l
  }

  lemma StepOnLane(s: State, e: Event, x: bool)
    ensures LaneSteps(LaneOf(s, x), LaneOf(Step(s, e), x), e, x, s.clock)
    ensures Step(s, e).clock == s.clock + 1
  {
  }

  ghost predicate CancelsTraced(es: seq<Event>, ws: seq<Withdrawal>) {
    forall w | w in ws :: w.at < |es| && es[w.at] == CancelOp(w.recv.op)
  }

  lemma LaneStepKeeps(l: Lane, l': Lane, e: Event, x: bool, now: nat)
    requires Inv(l, now) && LaneSteps(l, l', e, x, now)
    ensures Inv(l', now + 1)
  {
    if PostsTo(e, x) {
      PostKeeps(l, RecvOf(now, e), now);
    } else if ArrivesTo(e, x) {
      ArriveKeeps(l, ArrivalOf(now, e), now);
    } else {
      if e.CancelOp? { CancelKeeps(l, e.op, now); }
      InvAgain(l, now, now + 1);
    }
  }

  /** In every run both lanes satisfy the matching invariant: settled, conserved
      and non-overtaking, under any interleaving of posts, arrivals, polls and
      cancellations. */
  lemma {:induction false} RunKeepsLanes(es: seq<Event>, x: bool)
    ensures Inv(LaneOf(Run(es), x), |es|) && Run(es).clock == |es|
    ensures Settled(LaneOf(Run(es), x))
    decreases |es|
  {
    if es == [] {
      InvEmpty(0);
    } else {
      var k := |es| - 1;
      RunKeepsLanes(es[..k], x);
      StepOnLane(Run(es[..k]), es[k], x);
      LaneStepKeeps(LaneOf(Run(es[..k]), x), LaneOf(Run(es), x), es[k], x, k);
    }
  }

  lemma LaneStepTracks(l: Lane, l': Lane, e: Event, x: bool, now: nat)
    requires LaneSteps(l, l', e, x, now)
    ensures l'.posted == l.posted + if PostsTo(e, x) then [RecvOf(now, e)] else []
    ensures l'.arrived == l.arrived + if ArrivesTo(e, x) then [ArrivalOf(now, e)] else []
    ensures forall w | w in l'.withdrawn :: w in l.withdrawn || (w.at == now && e == CancelOp(w.recv.op))
  {
  }

  /** The lanes' histories are the run's own postings, arrivals and cancels. */
  lemma {:induction false} RunTracksHistory(es: seq<Event>, x: bool)
    ensures LaneOf(Run(es), x).posted == PostsOf(es, x)
    ensures LaneOf(Run(es), x).arrived == ArrivalsOf(es, x)
    ensures CancelsTraced(es, LaneOf(Run(es), x).withdrawn)
    decreases |es|
  {
    if es != [] {
      var k := |es| - 1;
      hide Step, LaneSteps;
      RunTracksHistory(es[..k], x);
      RunClock(es[..k]);
      StepOnLane(Run(es[..k]), es[k], x);
      var l, l' := LaneOf(Run(es[..k]), x), LaneOf(Run(es), x);
      LaneStepTracks(l, l', es[k], x, k);
      forall w | w in l'.withdrawn ensures w.at < |es| && es[w.at] == CancelOp(w.recv.op) {
        if w in l.withdrawn { assert es[..k][w.at] == es[w.at]; }
      }
    }
  }

  // ---------------------------------------------------------------------
  //  Every operation and every address is in exactly one place
  // ---------------------------------------------------------------------

  function RecvIds(rs: seq<Recv>): seq<nat> {
    seq(|rs|, i requires 0 <= i < |rs| => rs[i].id)
  }

  function MsgIds(ms: seq<Arrival>): seq<nat> {
    seq(|ms|, i requires 0 <= i < |ms| => ms[i].id)
  }

  function ItemIds(c: seq<Item>): seq<nat> {
    seq(|c|, i requires 0 <= i < |c| => c[i].id)
  }

  function DoneIds(c: seq<Completion>): seq<nat> {
    seq(|c|, i requires 0 <= i < |c| => c[i].id)
  }

  /** The addresses travelling with completion items. */
  function ItemAddrs(c: seq<Item>): seq<nat> {
    if c == [] then [] else AddrOf(c[0]) + ItemAddrs(c[1..])
  }

  function AddrOf(it: Item): seq<nat> { if it.info.Some? then [it.info.value.addr] else [] }

  /** How often operation `i` occurs among the queued receives, the completion
      channel and the user's callback queue. */
  ghost function OpPlaces(s: State, i: nat): nat {
    multiset(RecvIds(s.unexpected.ops))[i] + multiset(RecvIds(s.expected.ops))[i]
    + multiset(ItemIds(s.channel))[i] + multiset(DoneIds(s.done))[i]
  }

  /** How often address `i` occurs among the stashes, the channel, the addresses
      handed to the user and the freed ones. */
  ghost function AddrPlaces(s: State, i: nat): nat {
    multiset(MsgIds(s.unexpected.stash))[i] + multiset(MsgIds(s.expected.stash))[i]
    + multiset(ItemAddrs(s.channel))[i] + multiset(s.handed)[i] + multiset(s.freed)[i]
  }

  predicate Starts(e: Event) { e.PostUnexpected? || e.PostExpected? || e.Report? }

  lemma RecvIdsMore(rs: seq<Recv>, r: Recv, i: nat)
    ensures multiset(RecvIds(rs + [r]))[i] == multiset(RecvIds(rs))[i] + Hit(r.id == i)
  {
    assert RecvIds(rs + [r]) == RecvIds(rs) + [r.id];
  }

  lemma RecvIdsLess(rs: seq<Recv>, k: nat, i: nat)
    requires k < |rs|
    ensures multiset(RecvIds(rs))[i] == multiset(RecvIds(RemoveAt(rs, k)))[i] + Hit(rs[k].id == i)
  {
    assert RecvIds(RemoveAt(rs, k)) == RemoveAt(RecvIds(rs), k);
    RemoveAtKeepsTheRest(RecvIds(rs), k);
  }

  lemma MsgIdsMore(ms: seq<Arrival>, m: Arrival, i: nat)
    ensures multiset(MsgIds(ms + [m]))[i] == multiset(MsgIds(ms))[i] + Hit(m.id == i)
  {
    assert MsgIds(ms + [m]) == MsgIds(ms) + [m.id];
  }

  lemma MsgIdsLess(ms: seq<Arrival>, k: nat, i: nat)
    requires k < |ms|
    ensures multiset(MsgIds(ms))[i] == multiset(MsgIds(RemoveAt(ms, k)))[i] + Hit(ms[k].id == i)
  {
    assert MsgIds(RemoveAt(ms, k)) == RemoveAt(MsgIds(ms), k);
    RemoveAtKeepsTheRest(MsgIds(ms), k);
  }

  lemma ItemIdsMore(c: seq<Item>, it: Item, i: nat)
    ensures multiset(ItemIds(c + [it]))[i] == multiset(ItemIds(c))[i] + Hit(it.id == i)
  {
    assert ItemIds(c + [it]) == ItemIds(c) + [it.id];
  }

  lemma ItemIdsHead(c: seq<Item>, i: nat)
    requires c != []
    ensures multiset(ItemIds(c))[i] == multiset(ItemIds(c[1..]))[i] + Hit(c[0].id == i)
  {
    assert ItemIds(c) == [c[0].id] + ItemIds(c[1..]);
  }

  lemma DoneIdsMore(c: seq<Completion>, d: Completion, i: nat)
    ensures multiset(DoneIds(c + [d]))[i] == multiset(DoneIds(c))[i] + Hit(d.id == i)
  {
    assert DoneIds(c + [d]) == DoneIds(c) + [d.id];
  }

  lemma {:induction false} ItemAddrsAppend(c: seq<Item>, it: Item)
    ensures ItemAddrs(c + [it]) == ItemAddrs(c) + AddrOf(it)
    decreases |c|
  {
    hide AddrOf;
    if c == [] {
      assert c + [it] == [it] && [it][1..] == [];
      assert AddrOf(it) + [] == [] + AddrOf(it);
    } else {
      ItemAddrsAppend(c[1..], it);
      assert (c + [it])[1..] == c[1..] + [it] && (c + [it])[0] == c[0];
      assert AddrOf(c[0]) + (ItemAddrs(c[1..]) + AddrOf(it)) == AddrOf(c[0]) + ItemAddrs(c[1..]) + AddrOf(it);
    }
  }

  lemma ItemAddrsMore(c: seq<Item>, it: Item, i: nat)
    ensures multiset(ItemAddrs(c + [it]))[i]
         == multiset(ItemAddrs(c))[i] + Hit(it.info.Some? && it.info.value.addr == i)
  {
    ItemAddrsAppend(c, it);
  }

  lemma ItemAddrsHead(c: seq<Item>, i: nat)
    requires c != []
    ensures multiset(ItemAddrs(c))[i]
         == multiset(ItemAddrs(c[1..]))[i] + Hit(c[0].info.Some? && c[0].info.value.addr == i)
  {
    assert ItemAddrs(c) == AddrOf(c[0]) + ItemAddrs(c[1..]);
  }

  lemma OneMore(xs: seq<nat>, x: nat, i: nat)
    ensures multiset(xs + [x])[i] == multiset(xs)[i] + Hit(x == i)
  {
  }

  lemma PostMovesOps(s: State, x: bool, r: Recv, i: nat)
    ensures OpPlaces(PostRecv(s, x, r), i) == OpPlaces(s, i) + Hit(i == r.id)
  {
    hide RecvIds, ItemIds, DoneIds, RemoveAt;
    var l := LaneOf(s, x);
    var k := FirstMessage(l.stash, r);
    if k < |l.stash| {
      DoneIdsMore(s.done, PostRecv(s, x, r).done[|s.done|], i);
    } else {
      RecvIdsMore(l.ops, r, i);
    }
  }

  lemma DeliverMovesOps(s: State, x: bool, m: Arrival, i: nat)
    ensures OpPlaces(DeliverMsg(s, x, m), i) == OpPlaces(s, i)
  {
    hide RecvIds, ItemIds, DoneIds, RemoveAt, CopyFor;
    var l := LaneOf(s, x);
    var k := FirstRecv(l.ops, m);
    if k < |l.ops| {
      RecvIdsLess(l.ops, k, i);
      ItemIdsMore(s.channel, LateItem(x, l.ops[k], m), i);
    }
  }

  lemma CancelMovesOps(s: State, op: nat, at: nat, i: nat)
    ensures OpPlaces(CancelEither(s, op, at), i) == OpPlaces(s, i)
  {
    hide RecvIds, ItemIds, DoneIds, RemoveAt;
    var x := !(FirstOf(s.unexpected.ops, op) < |s.unexpected.ops|);
    var l := LaneOf(s, x);
    var k := FirstOf(l.ops, op);
    if k < |l.ops| {
      RecvIdsLess(l.ops, k, i);
      DoneIdsMore(s.done, Completion(l.ops[k].id, op, Canceled, NoInfo), i);
    }
  }

  lemma PollMovesOps(s: State, i: nat)
    requires s.channel != []
    ensures OpPlaces(PollItem(s), i) == OpPlaces(s, i)
  {
    hide RecvIds, ItemIds, DoneIds, CallbackInfo;
    var it := s.channel[0];
    ItemIdsHead(s.channel, i);
    DoneIdsMore(s.done, Completion(it.id, it.op, it.ret, CallbackInfo(it)), i);
  }

  lemma TickMovesNothing(s: State, i: nat)
    ensures OpPlaces(s.(clock := s.clock + 1), i) == OpPlaces(s, i)
    ensures AddrPlaces(s.(clock := s.clock + 1), i) == AddrPlaces(s, i)
  {
  }

  lemma AddItemMoves(s: State, it: Item, i: nat)
    ensures OpPlaces(AddItem(s, it), i) == OpPlaces(s, i) + Hit(i == it.id)
    ensures it.info.None? ==> AddrPlaces(AddItem(s, it), i) == AddrPlaces(s, i)
  {
    hide ItemIds, ItemAddrs, RecvIds, MsgIds, DoneIds;
    ItemIdsMore(s.channel, it, i);
    ItemAddrsMore(s.channel, it, i);
  }

  lemma CancelMovesAddrs(s: State, op: nat, at: nat, i: nat)
    ensures AddrPlaces(CancelEither(s, op, at), i) == AddrPlaces(s, i)
  {
    hide ItemAddrs, MsgIds, RemoveAt;
  }

  lemma StepMovesOps(s: State, e: Event, i: nat)
    ensures OpPlaces(Step(s, e), i) == OpPlaces(s, i) + Hit(Starts(e) && i == s.clock)
  {
    hide OpPlaces, PostRecv, DeliverMsg, CancelEither, PollItem, AddItem;
    var s' := s.(clock := s.clock + 1);
    TickMovesNothing(s, i);
    match e
    case PostUnexpected(_, _, _) => PostMovesOps(s', false, RecvOf(s.clock, e), i);
    case PostExpected(_, _, _, _, _) => PostMovesOps(s', true, RecvOf(s.clock, e), i);
    case Deliver(x, _, _, _) => DeliverMovesOps(s', x, ArrivalOf(s.clock, e), i);
    case CancelOp(op) => CancelMovesOps(s', op, s.clock, i);
    case Report(op, ok) =>
      AddItemMoves(s', Item(s.clock, op, Other, if ok then Success else ProtocolError, None), i);
    case PollOne => if s.channel != [] { PollMovesOps(s', i); }
  }

  lemma InitPlaces(i: nat)
    ensures OpPlaces(Init, i) == 0 && AddrPlaces(Init, i) == 0
  {
  }

  /** In every run, each started operation is in exactly one place, exactly
      once: still queued, in the completion channel, or completed to the user.
      In particular no receive completes twice, whether by match, stash hit or
      cancellation. */
  lemma {:induction false} EachOpInOnePlace(es: seq<Event>, i: nat)
    ensures OpPlaces(Run(es), i) == Hit(i < |es| && Starts(es[i]))
    decreases |es|
  {
    hide OpPlaces, Step;
    InitPlaces(i);
    if es != [] {
      var k := |es| - 1;
      EachOpInOnePlace(es[..k], i);
      RunClock(es[..k]);
      StepMovesOps(Run(es[..k]), es[k], i);
    }
  }

  lemma PostMovesAddrs(s: State, x: bool, r: Recv, i: nat)
    ensures AddrPlaces(PostRecv(s, x, r), i) == AddrPlaces(s, i)
  {
    hide ItemAddrs, MsgIds, RemoveAt, CopyFor;
    var l := LaneOf(s, x);
    var k := FirstMessage(l.stash, r);
    if k < |l.stash| {
      MsgIdsLess(l.stash, k, i);
      OneMore(s.handed, l.stash[k].id, i);
      OneMore(s.freed, l.stash[k].id, i);
    }
  }

  lemma DeliverMovesAddrs(s: State, x: bool, m: Arrival, i: nat)
    ensures AddrPlaces(DeliverMsg(s, x, m), i) == AddrPlaces(s, i) + Hit(i == m.id)
  {
    hide ItemAddrs, MsgIds, RemoveAt, CopyFor;
    var l := LaneOf(s, x);
    var k := FirstRecv(l.ops, m);
    if k < |l.ops| {
      ItemAddrsMore(s.channel, LateItem(x, l.ops[k], m), i);
    } else {
      MsgIdsMore(l.stash, m, i);
    }
  }

  lemma PollMovesAddrs(s: State, i: nat)
    requires s.channel != []
    ensures AddrPlaces(PollItem(s), i) == AddrPlaces(s, i)
  {
    hide ItemAddrs, MsgIds, CallbackInfo;
    ItemAddrsHead(s.channel, i);
    var it := s.channel[0];
    if it.info.Some? {
      OneMore(s.handed, it.info.value.addr, i);
      OneMore(s.freed, it.info.value.addr, i);
    }
  }

  lemma StepMovesAddrs(s: State, e: Event, i: nat)
    ensures AddrPlaces(Step(s, e), i) == AddrPlaces(s, i) + Hit(e.Deliver? && i == s.clock)
  {
    hide AddrPlaces, PostRecv, DeliverMsg, CancelEither, PollItem, AddItem;
    var s' := s.(clock := s.clock + 1);
    TickMovesNothing(s, i);
    match e
    case PostUnexpected(_, _, _) => PostMovesAddrs(s', false, RecvOf(s.clock, e), i);
    case PostExpected(_, _, _, _, _) => PostMovesAddrs(s', true, RecvOf(s.clock, e), i);
    case Deliver(x, _, _, _) => DeliverMovesAddrs(s', x, ArrivalOf(s.clock, e), i);
    case CancelOp(op) => CancelMovesAddrs(s', op, s.clock, i);
    case Report(op, ok) =>
      AddItemMoves(s', Item(s.clock, op, Other, if ok then Success else ProtocolError, None), i);
    case PollOne => if s.channel != [] { PollMovesAddrs(s', i); }
  }

  /** In every run, the address allocated for an arriving message is in exactly
      one place: the stash, the channel, the user's hands, or freed; so it is
      never freed twice and never both freed and handed out. */
  lemma {:induction false} EachAddrInOnePlace(es: seq<Event>, i: nat)
    ensures AddrPlaces(Run(es), i) == Hit(i < |es| && es[i].Deliver?)
    decreases |es|
  {
    hide AddrPlaces, Step;
    InitPlaces(i);
    if es != [] {
      var k := |es| - 1;
      EachAddrInOnePlace(es[..k], i);
      RunClock(es[..k]);
      StepMovesAddrs(Run(es[..k]), es[k], i);
    }
  }

  // ---------------------------------------------------------------------
  //  Completions tell the truth
  // ---------------------------------------------------------------------

  ghost predicate ExplainedBy(l: Lane, id: nat, op: nat, size: nat, addr: nat, tag: nat) {
    exists p | p in l.pairs ::
      p.recv.id == id && p.recv.op == op && |p.msg.payload| == size && p.msg.id == addr && p.msg.tag == tag
  }

  ghost predicate TrueInfo(l: Lane, id: nat, op: nat, info: RecvInfo) {
    ExplainedBy(l, id, op, info.actualSize, info.addr, info.tag)
  }

  ghost predicate SizeExplainedBy(l: Lane, id: nat, op: nat, size: nat) {
    exists p | p in l.pairs :: p.recv.id == id && p.recv.op == op && |p.msg.payload| == size
  }

  ghost predicate CancelledIn(l: Lane, id: nat, op: nat) {
    exists w | w in l.withdrawn :: w.recv.id == id && w.recv.op == op
  }

  ghost predicate TrueItem(s: State, it: Item) {
    match it.kind
    case Other => it.info.None? && it.ret != Canceled
    case RecvUnexpected =>
      it.ret == Success && it.info.Some? && TrueInfo(s.unexpected, it.id, it.op, it.info.value)
    case RecvExpected =>
      it.ret == Success && it.info.Some? && TrueInfo(s.expected, it.id, it.op, it.info.value)
  }

  ghost predicate TrueCompletion(s: State, c: Completion) {
    match c.info
    case UnexpectedInfo(size, addr, tag) => c.ret == Success && ExplainedBy(s.unexpected, c.id, c.op, size, addr, tag)
    case ExpectedInfo(size) => c.ret == Success && SizeExplainedBy(s.expected, c.id, c.op, size)
    case NoInfo => c.ret == Canceled ==> CancelledIn(s.unexpected, c.id, c.op) || CancelledIn(s.expected, c.id, c.op)
  }

  ghost predicate Truthful(s: State) {
    && (forall it | it in s.channel :: TrueItem(s, it))
    && (forall c | c in s.done :: TrueCompletion(s, c))
  }

  ghost predicate Grows(l: Lane, l': Lane) { l.pairs <= l'.pairs && l.withdrawn <= l'.withdrawn }

  lemma StillExplained(s: State, s': State)
    requires Grows(s.unexpected, s'.unexpected) && Grows(s.expected, s'.expected)
    ensures forall it | TrueItem(s, it) :: TrueItem(s', it)
    ensures forall c | TrueCompletion(s, c) :: TrueCompletion(s', c)
  {
    forall l, l', id, op, size, addr, tag | Grows(l, l') && ExplainedBy(l, id, op, size, addr, tag)
      ensures ExplainedBy(l', id, op, size, addr, tag)
    {
      var p :| p in l.pairs && p.recv.id == id && p.recv.op == op && |p.msg.payload| == size && p.msg.id == addr && p.msg.tag == tag;
      assert p in l'.pairs;
    }
    forall l, l', id, op, size | Grows(l, l') && SizeExplainedBy(l, id, op, size)
      ensures SizeExplainedBy(l', id, op, size)
    {
      var p :| p in l.pairs && p.recv.id == id && p.recv.op == op && |p.msg.payload| == size;
      assert p in l'.pairs;
    }
    forall l, l', id, op | Grows(l, l') && CancelledIn(l, id, op) ensures CancelledIn(l', id, op) {
      var w :| w in l.withdrawn && w.recv.id == id && w.recv.op == op;
      assert w in l'.withdrawn;
    }
  }

  lemma PostTruthful(s: State, x: bool, r: Recv)
    requires Truthful(s)
    ensures Truthful(PostRecv(s, x, r))
  {
    var s' := PostRecv(s, x, r);
    StillExplained(s, s');
    var l := LaneOf(s, x);
    var i := FirstMessage(l.stash, r);
    if i < |l.stash| {
      var p := Pair(r, l.stash[i]);
      assert p in LaneOf(s', x).pairs;
      Append(s.done, s'.done[|s.done|]);
    }
  }

  lemma DeliverTruthful(s: State, x: bool, m: Arrival)
    requires Truthful(s)
    ensures Truthful(DeliverMsg(s, x, m))
  {
    var s' := DeliverMsg(s, x, m);
    StillExplained(s, s');
    var l := LaneOf(s, x);
    var i := FirstRecv(l.ops, m);
    if i < |l.ops| {
      assert Pair(l.ops[i], m) in LaneOf(s', x).pairs;
      Append(s.channel, LateItem(x, l.ops[i], m));
    }
  }

  lemma CancelTruthful(s: State, op: nat, at: nat)
    requires Truthful(s)
    ensures Truthful(CancelEither(s, op, at))
  {
    var s' := CancelEither(s, op, at);
    StillExplained(s, s');
    var x := !(FirstOf(s.unexpected.ops, op) < |s.unexpected.ops|);
    var l := LaneOf(s, x);
    var i := FirstOf(l.ops, op);
    if i < |l.ops| {
      assert Withdrawal(l.ops[i], at) in LaneOf(s', x).withdrawn;
      Append(s.done, Completion(l.ops[i].id, op, Canceled, NoInfo));
    }
  }

  lemma PollTruthful(s: State)
    requires Truthful(s) && s.channel != []
    ensures Truthful(PollItem(s))
  {
    var it := s.channel[0];
    var s' := PollItem(s);
    StillExplained(s, s');
    assert TrueItem(s, it);
    var c := Completion(it.id, it.op, it.ret, CallbackInfo(it));
    if it.kind.RecvExpected? {
      var p :| p in s.expected.pairs && p.recv.id == it.id && p.recv.op == it.op && |p.msg.payload| == it.info.value.actualSize;
      assert SizeExplainedBy(s'.expected, it.id, it.op, it.info.value.actualSize);
    }
    Append(s.done, c);
  }

  lemma TickTruthful(s: State)
    requires Truthful(s)
    ensures Truthful(s.(clock := s.clock + 1))
  {
    StillExplained(s, s.(clock := s.clock + 1));
  }

  lemma ReportTruthful(s: State, it: Item)
    requires Truthful(s) && it.kind.Other? && it.info.None? && it.ret != Canceled
    ensures Truthful(AddItem(s, it))
  {
    StillExplained(s, AddItem(s, it));
    Append(s.channel, it);
  }

  lemma StepTruthful(s: State, e: Event)
    requires Truthful(s)
    ensures Truthful(Step(s, e))
  {
    hide Truthful, PostRecv, DeliverMsg, CancelEither, PollItem, AddItem;
    var s' := s.(clock := s.clock + 1);
    TickTruthful(s);
    match e
    case PostUnexpected(_, _, _) => PostTruthful(s', false, RecvOf(s.clock, e));
    case PostExpected(_, _, _, _, _) => PostTruthful(s', true, RecvOf(s.clock, e));
    case Deliver(x, _, _, _) => DeliverTruthful(s', x, ArrivalOf(s.clock, e));
    case CancelOp(op) => CancelTruthful(s', op, s.clock);
    case Report(op, ok) =>
      ReportTruthful(s', Item(s.clock, op, Other, if ok then Success else ProtocolError, None));
    case PollOne => if s.channel != [] { PollTruthful(s'); }
  }

  /** In every run, whatever the user is told about a receive (its size, source
      address and tag, or that it was cancelled) is what its pairing or its
      cancellation says, on both the stash-hit and the late-arrival path. */
  lemma {:induction false} RunsAreTruthful(es: seq<Event>)
    ensures Truthful(Run(es))
    decreases |es|
  {
    if es != [] {
      var k := |es| - 1;
      RunsAreTruthful(es[..k]);
      StepTruthful(Run(es[..k]), es[k]);
    }
  }

  // ---------------------------------------------------------------------
  //  Every pairing and every cancellation is reported
  // ---------------------------------------------------------------------

  ghost predicate Told(s: State, id: nat) { id in ItemIds(s.channel) || id in DoneIds(s.done) }

  ghost predicate AllTold(s: State) {
    forall x: bool ::
      && (forall p | p in LaneOf(s, x).pairs :: Told(s, p.recv.id))
      && (forall w | w in LaneOf(s, x).withdrawn :: Told(s, w.recv.id))
  }

  /** What was told stays told when a step only adds items or moves one on. */
  lemma ToldStays(s: State, s': State)
    requires s.done <= s'.done
    requires s.channel <= s'.channel
          || (s.channel != [] && s'.channel == s.channel[1..] && s.channel[0].id in DoneIds(s'.done))
    ensures forall id | Told(s, id) :: Told(s', id)
  {
    forall id | Told(s, id) ensures Told(s', id) {
      if id in DoneIds(s.done) {
        var i :| 0 <= i < |s.done| && DoneIds(s.done)[i] == id;
        assert DoneIds(s'.done)[i] == id;
      } else {
        var i :| 0 <= i < |s.channel| && ItemIds(s.channel)[i] == id;
        if s.channel <= s'.channel {
          assert ItemIds(s'.channel)[i] == id;
        } else if i > 0 {
          assert ItemIds(s'.channel)[i - 1] == id;
        }
      }
    }
  }

  lemma PostTells(s: State, x: bool, r: Recv)
    requires AllTold(s)
    ensures AllTold(PostRecv(s, x, r))
  {
    var s' := PostRecv(s, x, r);
    ToldStays(s, s');
    var l := LaneOf(s, x);
    var i := FirstMessage(l.stash, r);
    if i < |l.stash| {
      assert DoneIds(s'.done)[|s.done|] == r.id;
      Append(l.pairs, Pair(r, l.stash[i]));
    }
    TellsBoth(s, s', x);
  }

  /** Only lane `x` changed, and its new pairings and cancellations are told. */
  lemma TellsBoth(s: State, s': State, x: bool)
    requires AllTold(s) && LaneOf(s', !x) == LaneOf(s, !x)
    requires forall id | Told(s, id) :: Told(s', id)
    requires forall p | p in LaneOf(s', x).pairs :: p in LaneOf(s, x).pairs || Told(s', p.recv.id)
    requires forall w | w in LaneOf(s', x).withdrawn :: w in LaneOf(s, x).withdrawn || Told(s', w.recv.id)
    ensures AllTold(s')
  {
    hide Told;
    forall y: bool
      ensures && (forall p | p in LaneOf(s', y).pairs :: Told(s', p.recv.id))
              && (forall w | w in LaneOf(s', y).withdrawn :: Told(s', w.recv.id))
    {
      if y != x { assert LaneOf(s', y) == LaneOf(s, y); }
    }
  }

  lemma DeliverTells(s: State, x: bool, m: Arrival)
    requires AllTold(s)
    ensures AllTold(DeliverMsg(s, x, m))
  {
    var s' := DeliverMsg(s, x, m);
    ToldStays(s, s');
    var l := LaneOf(s, x);
    var i := FirstRecv(l.ops, m);
    if i < |l.ops| {
      assert ItemIds(s'.channel)[|s.channel|] == l.ops[i].id;
      Append(l.pairs, Pair(l.ops[i], m));
    }
    TellsBoth(s, s', x);
  }

  lemma CancelTells(s: State, op: nat, at: nat)
    requires AllTold(s)
    ensures AllTold(CancelEither(s, op, at))
  {
    var s' := CancelEither(s, op, at);
    ToldStays(s, s');
    var x := !(FirstOf(s.unexpected.ops, op) < |s.unexpected.ops|);
    var l := LaneOf(s, x);
    var i := FirstOf(l.ops, op);
    if i < |l.ops| {
      assert DoneIds(s'.done)[|s.done|] == l.ops[i].id;
      Append(l.withdrawn, Withdrawal(l.ops[i], at));
    }
    TellsBoth(s, s', x);
  }

  lemma QuietTells(s: State, s': State)
    requires AllTold(s) && s'.unexpected == s.unexpected && s'.expected == s.expected
    requires s.done <= s'.done
    requires s.channel <= s'.channel
          || (s.channel != [] && s'.channel == s.channel[1..] && s.channel[0].id in DoneIds(s'.done))
    ensures AllTold(s')
  {
    ToldStays(s, s');
    TellsBoth(s, s', true);
  }

  lemma StepTells(s: State, e: Event)
    requires AllTold(s)
    ensures AllTold(Step(s, e))
  {
    var s' := s.(clock := s.clock + 1);
    QuietTells(s, s');
    if e.PollOne? && s.channel != [] {
      assert DoneIds(PollItem(s').done)[|s.done|] == s.channel[0].id;
      QuietTells(s', PollItem(s'));
    }
    if e.Report? { QuietTells(s, Step(s, e)); }
    hide AllTold, PostRecv, DeliverMsg, CancelEither, PollItem;
    match e
    case PostUnexpected(_, _, _) => PostTells(s', false, RecvOf(s.clock, e));
    case PostExpected(_, _, _, _, _) => PostTells(s', true, RecvOf(s.clock, e));
    case Deliver(x, _, _, _) => DeliverTells(s', x, ArrivalOf(s.clock, e));
    case CancelOp(op) => CancelTells(s', op, s.clock);
    case Report(_, _) =>
    case PollOne =>
  }

  lemma InitTells()
    ensures AllTold(Init)
  {
  }

  /** In every run, each paired or cancelled receive is reported: its completion
      is in the channel or in the user's callback queue. */
  lemma {:induction false} RunTellsAll(es: seq<Event>)
    ensures AllTold(Run(es))
    decreases |es|
  {
    hide AllTold, Step;
    if es == [] {
      InitTells();
    } else {
      var k := |es| - 1;
      RunTellsAll(es[..k]);
      StepTells(Run(es[..k]), es[k]);
    }
  }
}
