/** What the user is handed for a receive: its completion and the bytes in its
    buffer, whether the message was stashed early or came late, and that neither
    depends on the interleaving. */
module Confluence {
  import opened Prelude
  import opened Buffers
  import opened Lane
  import opened LaneSpec
  import opened Groups
  import opened Engine
  import opened Runs

  // ---------------------------------------------------------------------
  //  Completions, one by one
  // ---------------------------------------------------------------------

  lemma {:induction false} PostEvent(es: seq<Event>, x: bool, r: Recv)
    requires r in PostsOf(es, x)
    ensures r.id < |es| && PostsTo(es[r.id], x) && r == RecvOf(r.id, es[r.id])
    decreases |es|
  {
    var k := |es| - 1;
    if r in PostsOf(es[..k], x) {
      PostEvent(es[..k], x, r);
      assert es[..k][r.id] == es[r.id];
    }
  }

  /** What is said of an operation is what the report of step `id` said: success
      exactly when the task succeeded. */
  ghost predicate SaysReport(es: seq<Event>, id: nat, op: nat, ret: Ret) {
    && id < |es| && es[id].Report? && es[id].op == op
    && (ret == Success <==> es[id].ok) && (ret == ProtocolError <==> !es[id].ok)
  }

  /** Items and completions without receive data that are no cancellations stem
      from reports and say what they said. */
  ghost predicate Reported(es: seq<Event>, s: State) {
    && (forall it | it in s.channel && it.kind.Other? :: SaysReport(es, it.id, it.op, it.ret))
    && (forall c | c in s.done && c.info.NoInfo? && c.ret != Canceled :: SaysReport(es, c.id, c.op, c.ret))
  }

  lemma StepReported(es: seq<Event>, s: State, e: Event)
    requires Reported(es, s) && Truthful(s) && s.clock == |es|
    ensures Reported(es + [e], Step(s, e))
  {
    hide TrueInfo, TrueCompletion, PostRecv, DeliverMsg, CancelEither;
    var s0 := s.(clock := s.clock + 1);
    assert forall i | 0 <= i < |es| :: (es + [e])[i] == es[i];
    assert s.channel != [] ==> TrueItem(s, s.channel[0]);
    match e
    case PostUnexpected(_, _, _) => PostAdds(s0, false, RecvOf(s.clock, e));
    case PostExpected(_, _, _, _, _) => PostAdds(s0, true, RecvOf(s.clock, e));
    case Deliver(x, _, _, _) => DeliverAdds(s0, x, ArrivalOf(s.clock, e));
    case CancelOp(op) => CancelAdds(s0, op, s.clock);
    case _ =>
  }

  lemma PostAdds(s: State, x: bool, r: Recv)
    ensures PostRecv(s, x, r).channel == s.channel
    ensures forall c | c in PostRecv(s, x, r).done :: c in s.done || !c.info.NoInfo?
  {
  }

  lemma DeliverAdds(s: State, x: bool, m: Arrival)
    ensures DeliverMsg(s, x, m).done == s.done
    ensures forall it | it in DeliverMsg(s, x, m).channel :: it in s.channel || !it.kind.Other?
  {
  }

  lemma CancelAdds(s: State, op: nat, at: nat)
    ensures CancelEither(s, op, at).channel == s.channel
    ensures forall c | c in CancelEither(s, op, at).done :: c in s.done || c.ret == Canceled
  {
  }

  lemma {:induction false} RunReported(es: seq<Event>)
    ensures Reported(es, Run(es))
    decreases |es|
  {
    if es != [] {
      hide Step, Reported, Truthful;
      var k := |es| - 1;
      RunReported(es[..k]);
      RunClock(es[..k]);
      RunsAreTruthful(es[..k]);
      StepReported(es[..k], Run(es[..k]), es[k]);
      assert es == es[..k] + [es[k]];
    } else {
      NothingReported();
    }
  }

  lemma NothingReported()
    ensures Reported([], Run([]))
  {
  }

  /** Pairings and withdrawals of a run concern its postings. */
  lemma PairOfPosting(es: seq<Event>, x: bool)
    ensures forall p | p in LaneOf(Run(es), x).pairs :: p.recv in PostsOf(es, x)
    ensures forall w | w in LaneOf(Run(es), x).withdrawn :: w.recv in PostsOf(es, x)
  {
    hide Run;
    var l := LaneOf(Run(es), x);
    RunKeepsLanes(es, x);
    RunTracksHistory(es, x);
    Places(l);
    forall p | p in l.pairs ensures p.recv in l.posted { PairRecvListed(l.pairs, p); }
    forall w | w in l.withdrawn ensures w.recv in l.posted {
      var i :| 0 <= i < |l.withdrawn| && l.withdrawn[i] == w;
      assert Gone(l.withdrawn)[i] == w.recv;
    }
  }

  lemma PlacesDiffer(es: seq<Event>, x: bool, i: nat, j: nat)
    requires i < j < |LaneOf(Run(es), x).pairs|
    ensures LaneOf(Run(es), x).pairs[i].recv.id != LaneOf(Run(es), x).pairs[j].recv.id
  {
    hide Run, Fair, Settled, CancelsEager, PairsSound, PostsOf;
    var ps := LaneOf(Run(es), x).pairs;
    RunKeepsLanes(es, x);
    PairedOnce(LaneOf(Run(es), x), i, j);
    PairOfPosting(es, x);
    assert ps[i] in ps && ps[j] in ps;
    PostEvent(es, x, ps[i].recv);
    PostEvent(es, x, ps[j].recv);
  }

  /** A pairing is told by the step its receive was posted at. */
  lemma OnePairPerId(es: seq<Event>, x: bool, y: bool, p: Pair, q: Pair)
    requires p in LaneOf(Run(es), x).pairs && q in LaneOf(Run(es), y).pairs && p.recv.id == q.recv.id
    ensures x == y && p == q
  {
    hide Run, PostsOf;
    PairOfPosting(es, x);
    PairOfPosting(es, y);
    PostEvent(es, x, p.recv);
    PostEvent(es, y, q.recv);
    assert x == y;
    var ps := LaneOf(Run(es), x).pairs;
    var i :| 0 <= i < |ps| && ps[i] == p;
    var j :| 0 <= j < |ps| && ps[j] == q;
    if i < j { PlacesDiffer(es, x, i, j); }
    if j < i { PlacesDiffer(es, x, j, i); }
  }

  lemma PairedNotWithdrawn(es: seq<Event>, x: bool, y: bool, p: Pair, w: Withdrawal)
    requires p in LaneOf(Run(es), x).pairs && w in LaneOf(Run(es), y).withdrawn
    ensures p.recv.id != w.recv.id
  {
    hide Run;
    if p.recv.id == w.recv.id {
      PairOfPosting(es, x);
      PairOfPosting(es, y);
      PostEvent(es, x, p.recv);
      PostEvent(es, y, w.recv);
      RunKeepsLanes(es, x);
      WithdrawnUnpaired(LaneOf(Run(es), x), w, p);
    }
  }

  /** What the user is told about a pairing. */
  function InfoFor(x: bool, p: Pair): CbInfo {
    if x then ExpectedInfo(|p.msg.payload|) else UnexpectedInfo(|p.msg.payload|, p.msg.id, p.msg.tag)
  }

  function CompletionFor(x: bool, p: Pair): Completion {
    Completion(p.recv.id, p.recv.op, Success, InfoFor(x, p))
  }

  lemma CompletionOfPair(es: seq<Event>, x: bool, p: Pair, c: Completion)
    requires p in LaneOf(Run(es), x).pairs && c in Run(es).done && c.id == p.recv.id
    ensures c == CompletionFor(x, p)
  {
    hide Run;
    var s := Run(es);
    RunsAreTruthful(es);
    RunReported(es);
    PairOfPosting(es, x);
    PostEvent(es, x, p.recv);
    assert TrueCompletion(s, c);
    match c.info
    case UnexpectedInfo(size, addr, tag) =>
      var q :| q in s.unexpected.pairs && q.recv.id == c.id && q.recv.op == c.op
               && |q.msg.payload| == size && q.msg.id == addr && q.msg.tag == tag;
      assert s.unexpected == LaneOf(s, false);
      OnePairPerId(es, x, false, p, q);
    case ExpectedInfo(size) =>
      var q :| q in s.expected.pairs && q.recv.id == c.id && q.recv.op == c.op && |q.msg.payload| == size;
      assert s.expected == LaneOf(s, true);
      OnePairPerId(es, x, true, p, q);
    case NoInfo =>
      NotCancelled(es, x, p);
  }

  lemma NotCancelled(es: seq<Event>, x: bool, p: Pair)
    requires p in LaneOf(Run(es), x).pairs
    ensures !CancelledIn(Run(es).unexpected, p.recv.id, p.recv.op)
    ensures forall op :: !CancelledIn(Run(es).unexpected, p.recv.id, op) && !CancelledIn(Run(es).expected, p.recv.id, op)
  {
    hide Run;
    forall w, y: bool | w in LaneOf(Run(es), y).withdrawn ensures w.recv.id != p.recv.id {
      PairedNotWithdrawn(es, x, y, p, w);
    }
    assert LaneOf(Run(es), false) == Run(es).unexpected && LaneOf(Run(es), true) == Run(es).expected;
  }

  lemma ItemOfPair(es: seq<Event>, x: bool, p: Pair, it: Item)
    requires p in LaneOf(Run(es), x).pairs && it in Run(es).channel && it.id == p.recv.id
    ensures it == LateItem(x, p.recv, p.msg)
  {
    hide Run;
    var s := Run(es);
    RunsAreTruthful(es);
    RunReported(es);
    PairOfPosting(es, x);
    PostEvent(es, x, p.recv);
    assert TrueItem(s, it);
    assert !it.kind.Other?;
    var y := it.kind.RecvExpected?;
    assert TrueInfo(LaneOf(s, y), it.id, it.op, it.info.value);
    var q :| q in LaneOf(s, y).pairs && q.recv.id == it.id && q.recv.op == it.op
             && |q.msg.payload| == it.info.value.actualSize && q.msg.id == it.info.value.addr
             && q.msg.tag == it.info.value.tag;
    OnePairPerId(es, x, y, p, q);
  }

  /** In every run, a paired receive is reported once: with the size, source and
      tag of its message, in the channel or already to the user. */
  lemma PairIsToldOnce(es: seq<Event>, x: bool, p: Pair)
    requires p in LaneOf(Run(es), x).pairs
    ensures forall c | c in Run(es).done && c.id == p.recv.id :: c == CompletionFor(x, p)
    ensures forall it | it in Run(es).channel && it.id == p.recv.id :: it == LateItem(x, p.recv, p.msg)
    ensures multiset(DoneIds(Run(es).done))[p.recv.id] + multiset(ItemIds(Run(es).channel))[p.recv.id] == 1
  {
    hide Run, LateItem, CompletionFor, AllTold;
    forall c | c in Run(es).done && c.id == p.recv.id ensures c == CompletionFor(x, p) {
      CompletionOfPair(es, x, p, c);
    }
    forall it | it in Run(es).channel && it.id == p.recv.id ensures it == LateItem(x, p.recv, p.msg) {
      ItemOfPair(es, x, p, it);
    }
    PairOfPosting(es, x);
    PostEvent(es, x, p.recv);
    EachOpInOnePlace(es, p.recv.id);
    RunTellsAll(es);
    PairTold(Run(es), x, p);
  }

  lemma PairTold(s: State, x: bool, p: Pair)
    requires AllTold(s) && p in LaneOf(s, x).pairs
    ensures multiset(DoneIds(s.done))[p.recv.id] + multiset(ItemIds(s.channel))[p.recv.id] >= 1
  {
    hide DoneIds, ItemIds;
    var id := p.recv.id;
    assert Told(s, id);
    assert id in ItemIds(s.channel) ==> id in multiset(ItemIds(s.channel));
    assert id in DoneIds(s.done) ==> id in multiset(DoneIds(s.done));
  }

  lemma SameIdSamePosting(es: seq<Event>, x: bool, y: bool, r: Recv, q: Recv)
    requires r in PostsOf(es, x) && q in PostsOf(es, y) && r.id == q.id
    ensures r == q
  {
    hide PostsOf;
    PostEvent(es, x, r);
    PostEvent(es, y, q);
  }

  lemma CompletionOfWithdrawn(es: seq<Event>, x: bool, w: Withdrawal, c: Completion)
    requires w in LaneOf(Run(es), x).withdrawn && c in Run(es).done && c.id == w.recv.id
    ensures c == Completion(w.recv.id, w.recv.op, Canceled, NoInfo)
  {
    hide Run, PostsOf;
    var s := Run(es);
    RunsAreTruthful(es);
    RunReported(es);
    PairOfPosting(es, x);
    PairOfPosting(es, false);
    PairOfPosting(es, true);
    PostEvent(es, x, w.recv);
    assert TrueCompletion(s, c);
    assert s.unexpected == LaneOf(s, false) && s.expected == LaneOf(s, true);
    NoPairForWithdrawn(es, x, w);
    assert c.info.NoInfo? && c.ret == Canceled;
    var y := !CancelledIn(s.unexpected, c.id, c.op);
    assert CancelledIn(LaneOf(s, y), c.id, c.op);
    var v :| v in LaneOf(s, y).withdrawn && v.recv.id == c.id && v.recv.op == c.op;
    SameIdSamePosting(es, x, y, w.recv, v.recv);
  }

  lemma NoPairForWithdrawn(es: seq<Event>, x: bool, w: Withdrawal)
    requires w in LaneOf(Run(es), x).withdrawn
    ensures forall y: bool, p | p in LaneOf(Run(es), y).pairs :: p.recv.id != w.recv.id
  {
    hide Run;
    forall y: bool, p | p in LaneOf(Run(es), y).pairs ensures p.recv.id != w.recv.id {
      PairedNotWithdrawn(es, y, x, p, w);
    }
  }

  lemma NoItemOfWithdrawn(es: seq<Event>, x: bool, w: Withdrawal, it: Item)
    requires w in LaneOf(Run(es), x).withdrawn && it in Run(es).channel
    ensures it.id != w.recv.id
  {
    hide Run, PostsOf;
    var s := Run(es);
    RunsAreTruthful(es);
    RunReported(es);
    PairOfPosting(es, x);
    PostEvent(es, x, w.recv);
    NoPairForWithdrawn(es, x, w);
    assert TrueItem(s, it);
    assert s.unexpected == LaneOf(s, false) && s.expected == LaneOf(s, true);
  }

  /** In every run, a cancelled receive is reported to the user once, as cancelled,
      and never through the channel. */
  lemma WithdrawnIsToldOnce(es: seq<Event>, x: bool, w: Withdrawal)
    requires w in LaneOf(Run(es), x).withdrawn
    ensures forall c | c in Run(es).done && c.id == w.recv.id :: c == Completion(w.recv.id, w.recv.op, Canceled, NoInfo)
    ensures multiset(DoneIds(Run(es).done))[w.recv.id] == 1 && multiset(ItemIds(Run(es).channel))[w.recv.id] == 0
  {
    hide Run, DoneIds, AllTold, OpPlaces;
    var id, s := w.recv.id, Run(es);
    forall c | c in s.done && c.id == id ensures c == Completion(id, w.recv.op, Canceled, NoInfo) {
      CompletionOfWithdrawn(es, x, w, c);
    }
    forall it | it in s.channel ensures it.id != id { NoItemOfWithdrawn(es, x, w, it); }
    NoItemCount(s.channel, id);
    EachOpInOnePlace(es, id);
    RunTellsAll(es);
    WithdrawnCounts(s, x, w);
  }

  lemma NoItemCount(c: seq<Item>, id: nat)
    requires forall it | it in c :: it.id != id
    ensures multiset(ItemIds(c))[id] == 0 && id !in ItemIds(c)
  {
    assert forall k | 0 <= k < |c| :: c[k] in c;
  }

  lemma WithdrawnCounts(s: State, x: bool, w: Withdrawal)
    requires AllTold(s) && w in LaneOf(s, x).withdrawn && w.recv.id !in ItemIds(s.channel)
    requires OpPlaces(s, w.recv.id) <= 1
    ensures multiset(DoneIds(s.done))[w.recv.id] == 1
  {
    hide DoneIds, ItemIds, RecvIds;
    assert Told(s, w.recv.id);
    assert w.recv.id in multiset(DoneIds(s.done));
  }

  /** In every run, a report of a send, a put or a failed get reaches the user, or is
      on its way in the channel, exactly once; it names the report's operation and
      says success exactly when the task succeeded. */
  lemma ReportIsToldOnce(es: seq<Event>, i: nat)
    requires i < |es| && es[i].Report?
    ensures forall c | c in Run(es).done && c.id == i ::
              c.op == es[i].op && (c.ret == Success <==> es[i].ok) && (c.ret == ProtocolError <==> !es[i].ok) && c.info.NoInfo?
    ensures forall it | it in Run(es).channel && it.id == i ::
              it.op == es[i].op && (it.ret == Success <==> es[i].ok) && (it.ret == ProtocolError <==> !es[i].ok) && it.info.None?
    ensures multiset(DoneIds(Run(es).done))[i] + multiset(ItemIds(Run(es).channel))[i] == 1
  {
    hide Run, DoneIds, ItemIds, OpPlaces;
    RunReported(es);
    forall c | c in Run(es).done && c.id == i ensures SaysReport(es, c.id, c.op, c.ret) && c.info.NoInfo? {
      ReportedCompletion(es, c);
    }
    forall it | it in Run(es).channel && it.id == i ensures SaysReport(es, it.id, it.op, it.ret) && it.info.None? {
      ReportedItem(es, it);
    }
    EachOpInOnePlace(es, i);
    NotQueued(es, i);
  }

  lemma ReportedCompletion(es: seq<Event>, c: Completion)
    requires c in Run(es).done && c.id < |es| && es[c.id].Report? && Reported(es, Run(es))
    ensures c.info.NoInfo? && c.ret != Canceled
  {
    hide Run, PostsOf;
    var s := Run(es);
    RunsAreTruthful(es);
    assert TrueCompletion(s, c);
    PostingsAreNoReports(es, c.id);
    assert LaneOf(s, false) == s.unexpected && LaneOf(s, true) == s.expected;
  }

  lemma ReportedItem(es: seq<Event>, it: Item)
    requires it in Run(es).channel && it.id < |es| && es[it.id].Report?
    ensures it.kind.Other? && it.info.None?
  {
    hide Run, PostsOf;
    var s := Run(es);
    RunsAreTruthful(es);
    assert TrueItem(s, it);
    PostingsAreNoReports(es, it.id);
    assert LaneOf(s, false) == s.unexpected && LaneOf(s, true) == s.expected;
  }

  lemma PostingsAreNoReports(es: seq<Event>, i: nat)
    requires i < |es| && es[i].Report?
    ensures forall x: bool, p | p in LaneOf(Run(es), x).pairs :: p.recv.id != i
    ensures forall x: bool, w | w in LaneOf(Run(es), x).withdrawn :: w.recv.id != i
  {
    hide Run, PostsOf;
    forall x: bool, p | p in LaneOf(Run(es), x).pairs ensures p.recv.id != i {
      PairOfPosting(es, x);
      PostEvent(es, x, p.recv);
    }
    forall x: bool, w | w in LaneOf(Run(es), x).withdrawn ensures w.recv.id != i {
      PairOfPosting(es, x);
      PostEvent(es, x, w.recv);
    }
  }

  lemma NotQueued(es: seq<Event>, i: nat)
    requires i < |es| && es[i].Report?
    ensures OpPlaces(Run(es), i) == multiset(DoneIds(Run(es).done))[i] + multiset(ItemIds(Run(es).channel))[i]
  {
    hide Run, DoneIds, ItemIds, PostsOf;
    var s := Run(es);
    forall x: bool ensures i !in RecvIds(LaneOf(s, x).ops) {
      RunKeepsLanes(es, x);
      RunTracksHistory(es, x);
      NoIdQueued(es, x, i);
    }
    assert LaneOf(s, false) == s.unexpected && LaneOf(s, true) == s.expected;
    assert i !in multiset(RecvIds(s.unexpected.ops)) && i !in multiset(RecvIds(s.expected.ops));
  }

  lemma NoIdQueued(es: seq<Event>, x: bool, i: nat)
    requires i < |es| && es[i].Report? && Inv(LaneOf(Run(es), x), |es|) && LaneOf(Run(es), x).posted == PostsOf(es, x)
    ensures i !in RecvIds(LaneOf(Run(es), x).ops)
  {
    hide Run, PostsOf, Fair, Settled, CancelsEager, PairsSound;
    var l := LaneOf(Run(es), x);
    Within(l);
    forall k | 0 <= k < |l.ops| ensures l.ops[k].id != i {
      assert l.ops[k] in l.ops;
      PostEvent(es, x, l.ops[k]);
    }
  }

  // ---------------------------------------------------------------------
  //  Addresses the user was told about
  // ---------------------------------------------------------------------

  /** The source addresses the completions carry, in order. */
  function Sources(cs: seq<Completion>): seq<nat> {
    if cs == [] then [] else
      var k := |cs| - 1;
      Sources(cs[..k]) + if cs[k].info.UnexpectedInfo? then [cs[k].info.source] else []
  }

  lemma SourcesMore(cs: seq<Completion>, c: Completion)
    ensures Sources(cs + [c]) == Sources(cs) + if c.info.UnexpectedInfo? then [c.info.source] else []
  {
    assert (cs + [c])[..|cs|] == cs;
  }

  lemma StepHandsOver(s: State, e: Event)
    requires s.handed == Sources(s.done) && Truthful(s)
    ensures Step(s, e).handed == Sources(Step(s, e).done)
  {
    hide Sources, PostRecv, DeliverMsg, CancelEither, TrueCompletion, TrueInfo;
    var s0 := s.(clock := s.clock + 1);
    match e
    case PostUnexpected(_, _, _) => PostHandsOver(s0, false, RecvOf(s.clock, e));
    case PostExpected(_, _, _, _, _) => PostHandsOver(s0, true, RecvOf(s.clock, e));
    case Deliver(x, _, _, _) => DeliverHandsOver(s0, x, ArrivalOf(s.clock, e));
    case CancelOp(op) => CancelHandsOver(s0, op, s.clock);
    case Report(_, _) =>
    case PollOne =>
      if s.channel != [] {
        assert TrueItem(s, s.channel[0]);
        SourcesMore(s.done, PollItem(s0).done[|s.done|]);
      }
  }

  lemma PostHandsOver(s: State, x: bool, r: Recv)
    requires s.handed == Sources(s.done)
    ensures PostRecv(s, x, r).handed == Sources(PostRecv(s, x, r).done)
  {
    hide Sources;
    var l := LaneOf(s, x);
    if FirstMessage(l.stash, r) < |l.stash| { SourcesMore(s.done, PostRecv(s, x, r).done[|s.done|]); }
  }

  lemma DeliverHandsOver(s: State, x: bool, m: Arrival)
    ensures DeliverMsg(s, x, m).handed == s.handed && DeliverMsg(s, x, m).done == s.done
  {
  }

  lemma CancelHandsOver(s: State, op: nat, at: nat)
    requires s.handed == Sources(s.done)
    ensures CancelEither(s, op, at).handed == Sources(CancelEither(s, op, at).done)
  {
    hide Sources;
    var s' := CancelEither(s, op, at);
    if |s'.done| > |s.done| { SourcesMore(s.done, s'.done[|s.done|]); }
  }

  /** In every run, the addresses handed over are exactly those the user was told as
      sources, in order; so none of them is ever freed by the plugin, and every
      other address is freed or still on its way. */
  lemma {:induction false} HandedAreTold(es: seq<Event>)
    ensures Run(es).handed == Sources(Run(es).done)
    decreases |es|
  {
    if es != [] {
      hide Step, Sources, Truthful;
      var k := |es| - 1;
      HandedAreTold(es[..k]);
      RunsAreTruthful(es[..k]);
      StepHandsOver(Run(es[..k]), es[k]);
    }
  }

  // ---------------------------------------------------------------------
  //  Bytes, one receive at a time
  // ---------------------------------------------------------------------

  function InLane(x: bool): Copy -> bool { (c: Copy) => c.expected == x }

  function To(x: bool, id: nat): Copy -> bool { (c: Copy) => c.expected == x && c.id == id }

  function CopiesOf(x: bool, ps: seq<Pair>): seq<Copy> {
    if ps == [] then [] else
      var k := |ps| - 1;
      CopiesOf(x, ps[..k]) + CopyFor(x, ps[k].recv, ps[k].msg)
  }

  ghost predicate Copied(s: State, x: bool) {
    Select(InLane(x), s.copies) == CopiesOf(x, LaneOf(s, x).pairs)
  }

  lemma CopyInLane(x: bool, y: bool, p: Pair)
    ensures Select(InLane(x), CopyFor(y, p.recv, p.msg)) == if x == y then CopyFor(y, p.recv, p.msg) else []
  {
    if x == y {
      SelectAll(InLane(x), CopyFor(y, p.recv, p.msg));
    } else {
      SelectNone(InLane(x), CopyFor(y, p.recv, p.msg));
    }
  }

  lemma CopyTo(x: bool, id: nat, p: Pair)
    ensures Select(To(x, id), CopyFor(x, p.recv, p.msg)) == if id == p.recv.id then CopyFor(x, p.recv, p.msg) else []
  {
    if id == p.recv.id {
      SelectAll(To(x, id), CopyFor(x, p.recv, p.msg));
    } else {
      SelectNone(To(x, id), CopyFor(x, p.recv, p.msg));
    }
  }

  lemma CopiesOfMore(x: bool, ps: seq<Pair>, p: Pair)
    ensures CopiesOf(x, ps + [p]) == CopiesOf(x, ps) + CopyFor(x, p.recv, p.msg)
  {
    hide CopyFor;
    assert (ps + [p])[..|ps|] == ps;
  }

  /** One more pairing on lane `y`, with its copy. */
  lemma OneMoreCopied(s: State, s': State, x: bool, y: bool, p: Pair)
    requires Copied(s, x)
    requires LaneOf(s', y).pairs == LaneOf(s, y).pairs + [p] && LaneOf(s', !y).pairs == LaneOf(s, !y).pairs
    requires s'.copies == s.copies + CopyFor(y, p.recv, p.msg)
    ensures Copied(s', x)
  {
    hide Select, CopiesOf, CopyFor;
    SelectCat(InLane(x), s.copies, CopyFor(y, p.recv, p.msg));
    CopyInLane(x, y, p);
    CopiesOfMore(y, LaneOf(s, y).pairs, p);
    var cs := Select(InLane(x), s.copies);
    assert cs + [] == cs;
  }

  lemma SameCopied(s: State, s': State, x: bool)
    requires Copied(s, x)
    ensures s'.copies == s.copies && LaneOf(s', x).pairs == LaneOf(s, x).pairs ==> Copied(s', x)
  {
  }

  lemma PostCopied(s: State, y: bool, r: Recv, x: bool)
    requires Copied(s, x)
    ensures Copied(PostRecv(s, y, r), x)
  {
    hide Copied, CopyFor;
    var s', l := PostRecv(s, y, r), LaneOf(s, y);
    var i := FirstMessage(l.stash, r);
    if i < |l.stash| {
      OneMoreCopied(s, s', x, y, Pair(r, l.stash[i]));
    } else {
      SameCopied(s, s', x);
    }
  }

  lemma DeliverCopied(s: State, y: bool, m: Arrival, x: bool)
    requires Copied(s, x)
    ensures Copied(DeliverMsg(s, y, m), x)
  {
    hide Copied, CopyFor;
    var s', l := DeliverMsg(s, y, m), LaneOf(s, y);
    var i := FirstRecv(l.ops, m);
    if i < |l.ops| {
      OneMoreCopied(s, s', x, y, Pair(l.ops[i], m));
    } else {
      SameCopied(s, s', x);
    }
  }

  lemma CancelCopied(s: State, op: nat, at: nat, x: bool)
    requires Copied(s, x)
    ensures Copied(CancelEither(s, op, at), x)
  {
    hide Copied;
    SameCopied(s, CancelEither(s, op, at), x);
  }

  lemma StepCopied(s: State, e: Event, x: bool)
    requires Copied(s, x)
    ensures Copied(Step(s, e), x)
  {
    hide Copied, PostRecv, DeliverMsg, CancelEither;
    var s' := s.(clock := s.clock + 1);
    SameCopied(s, s', x);
    match e
    case PostUnexpected(_, _, _) => PostCopied(s', false, RecvOf(s.clock, e), x);
    case PostExpected(_, _, _, _, _) => PostCopied(s', true, RecvOf(s.clock, e), x);
    case Deliver(y, _, _, _) => DeliverCopied(s', y, ArrivalOf(s.clock, e), x);
    case CancelOp(op) => CancelCopied(s', op, s.clock, x);
    case Report(_, _) => SameCopied(s, Step(s, e), x);
    case PollOne => SameCopied(s, Step(s, e), x);
  }

  lemma NothingCopied(x: bool)
    ensures Copied(Init, x)
  {
  }

  /** In every run, the copies into receive buffers are those of the pairings. */
  lemma {:induction false} RunCopied(es: seq<Event>, x: bool)
    ensures Copied(Run(es), x)
    decreases |es|
  {
    hide Step, Copied;
    if es == [] {
      NothingCopied(x);
    } else {
      RunCopied(es[..|es| - 1], x);
      StepCopied(Run(es[..|es| - 1]), es[|es| - 1], x);
    }
  }

  lemma {:induction false} CopiesOfNone(x: bool, ps: seq<Pair>, id: nat)
    requires forall i | 0 <= i < |ps| :: ps[i].recv.id != id
    ensures Select(To(x, id), CopiesOf(x, ps)) == []
    decreases |ps|
  {
    hide CopyFor;
    if ps != [] {
      var k := |ps| - 1;
      CopiesOfNone(x, ps[..k], id);
      SelectCat(To(x, id), CopiesOf(x, ps[..k]), CopyFor(x, ps[k].recv, ps[k].msg));
      CopyTo(x, id, ps[k]);
    }
  }

  lemma {:induction false} CopiesOfOne(x: bool, ps: seq<Pair>, j: nat)
    requires j < |ps| && forall i | 0 <= i < |ps| && i != j :: ps[i].recv.id != ps[j].recv.id
    ensures Select(To(x, ps[j].recv.id), CopiesOf(x, ps)) == CopyFor(x, ps[j].recv, ps[j].msg)
    decreases |ps|
  {
    hide CopyFor, Select;
    var k, id := |ps| - 1, ps[j].recv.id;
    var last := CopyFor(x, ps[k].recv, ps[k].msg);
    SelectCat(To(x, id), CopiesOf(x, ps[..k]), last);
    CopyTo(x, id, ps[k]);
    if j == k {
      CopiesOfNone(x, ps[..k], id);
      assert [] + last == last;
    } else {
      CopiesOfOne(x, ps[..k], j);
      var c := CopyFor(x, ps[j].recv, ps[j].msg);
      assert c + [] == c;
    }
  }

  function CopiesTo(s: State, x: bool, id: nat): seq<Copy> { Select(To(x, id), s.copies) }

  lemma CopiesAreOfPairs(es: seq<Event>, x: bool, id: nat)
    ensures CopiesTo(Run(es), x, id) == Select(To(x, id), CopiesOf(x, LaneOf(Run(es), x).pairs))
  {
    hide Run, CopiesOf;
    RunCopied(es, x);
    SelectWithin(To(x, id), InLane(x), Run(es).copies);
  }

  /** In every run, exactly the message's bytes, cut to the buffer, are copied to a
      paired receive, once. */
  lemma PairIsCopiedOnce(es: seq<Event>, x: bool, p: Pair)
    requires p in LaneOf(Run(es), x).pairs
    ensures CopiesTo(Run(es), x, p.recv.id) == CopyFor(x, p.recv, p.msg)
  {
    hide Run, CopiesOf, CopyFor, CopiesTo;
    var ps := LaneOf(Run(es), x).pairs;
    CopiesAreOfPairs(es, x, p.recv.id);
    var j :| 0 <= j < |ps| && ps[j] == p;
    forall i | 0 <= i < |ps| && i != j ensures ps[i].recv.id != p.recv.id {
      if i < j { PlacesDiffer(es, x, i, j); } else { PlacesDiffer(es, x, j, i); }
    }
    CopiesOfOne(x, ps, j);
  }

  /** A buffer after the copies made to it. */
  function AfterCopies(b: seq<Byte>, cs: seq<Copy>): (r: seq<Byte>)
    requires forall i | 0 <= i < |cs| :: |cs[i].bytes| <= |b|
    ensures |r| == |b|
  {
    if cs == [] then b else
      var k := |cs| - 1;
      Patch(AfterCopies(b, cs[..k]), 0, cs[k].bytes)
  }

  /** The copy made for a pairing leaves the buffer as filling it does. */
  lemma CopyFills(x: bool, p: Pair, b: seq<Byte>)
    requires p.recv.hasBuf && p.recv.bufSize <= |b|
    ensures forall i | 0 <= i < |CopyFor(x, p.recv, p.msg)| :: |CopyFor(x, p.recv, p.msg)[i].bytes| <= |b|
    ensures AfterCopies(b, CopyFor(x, p.recv, p.msg)) == Filled(b, p.recv.bufSize, p.msg.payload)
  {
    var cs := CopyFor(x, p.recv, p.msg);
    var w := Written(p.recv, p.msg);
    assert Filled(b, p.recv.bufSize, p.msg.payload) == Patch(b, 0, w);
    if cs == [] {
      assert w == [];
      assert Patch(b, 0, []) == b;
    } else {
      assert cs[..0] == [];
    }
  }

  /** In every run, byte by byte, whatever the buffer held: after the copies made to
      a paired receive its buffer has the message's bytes as far as message and
      buffer size reach and is unchanged beyond. */
  lemma BufferHoldsMessage(es: seq<Event>, x: bool, p: Pair, b: seq<Byte>)
    requires p in LaneOf(Run(es), x).pairs && p.recv.hasBuf && p.recv.bufSize <= |b|
    ensures
      var cs := CopiesTo(Run(es), x, p.recv.id);
      && (forall i | 0 <= i < |cs| :: |cs[i].bytes| <= |b|)
      && var after := AfterCopies(b, cs);
      && |after| == |b|
      && forall k | 0 <= k < |b| ::
           after[k] == if k < |p.msg.payload| && k < p.recv.bufSize then p.msg.payload[k] else b[k]
  {
    hide Run, CopyFor, CopiesTo, AfterCopies, Filled;
    PairIsCopiedOnce(es, x, p);
    CopyFills(x, p, b);
  }

  /** A receive without a buffer, or not paired, gets no copy. */
  lemma NothingElseIsCopied(es: seq<Event>, x: bool, id: nat)
    requires forall p | p in LaneOf(Run(es), x).pairs && p.recv.id == id :: !p.recv.hasBuf
    ensures CopiesTo(Run(es), x, id) == []
  {
    hide Run, CopiesTo, CopiesOf;
    var ps := LaneOf(Run(es), x).pairs;
    if p :| p in ps && p.recv.id == id {
      PairIsCopiedOnce(es, x, p);
    } else {
      CopiesAreOfPairs(es, x, id);
      assert forall i | 0 <= i < |ps| :: ps[i] in ps;
      CopiesOfNone(x, ps, id);
    }
  }

  // ---------------------------------------------------------------------
  //  The same for every interleaving
  // ---------------------------------------------------------------------

  /** What is handed to the user for one receive: completions as the callback sees
      them, and the bytes copied to the front of its buffer. */
  datatype View = View(told: seq<(nat, Ret, CbInfo)>, copied: seq<seq<Byte>>)

  function OfId(id: nat): Completion -> bool { (c: Completion) => c.id == id }

  function ToldOf(cs: seq<Completion>): (out: seq<(nat, Ret, CbInfo)>)
    ensures |out| == |cs| && forall i | 0 <= i < |cs| :: out[i] == (cs[i].op, cs[i].ret, cs[i].info)
  {
    seq(|cs|, i requires 0 <= i < |cs| => (cs[i].op, cs[i].ret, cs[i].info))
  }

  function BytesOf(cs: seq<Copy>): (out: seq<seq<Byte>>)
    ensures |out| == |cs| && forall i | 0 <= i < |cs| :: out[i] == cs[i].bytes
  {
    seq(|cs|, i requires 0 <= i < |cs| => cs[i].bytes)
  }

  function Handed(s: State, x: bool, id: nat): View {
    View(ToldOf(Select(OfId(id), s.done)), BytesOf(CopiesTo(s, x, id)))
  }

  lemma {:induction false} CountIsLength(cs: seq<Completion>, id: nat)
    ensures |Select(OfId(id), cs)| == multiset(DoneIds(cs))[id]
    decreases |cs|
  {
    if cs != [] {
      var k := |cs| - 1;
      CountIsLength(cs[..k], id);
      DoneIdsMore(cs[..k], cs[k], id);
      assert cs == cs[..k] + [cs[k]];
    }
  }

  /** With the channel drained, a paired receive has been handed its one completion
      and its bytes. */
  lemma PairIsHanded(es: seq<Event>, x: bool, p: Pair)
    requires Run(es).channel == [] && p in LaneOf(Run(es), x).pairs
    ensures Handed(Run(es), x, p.recv.id)
         == View([(p.recv.op, Success, InfoFor(x, p))], BytesOf(CopyFor(x, p.recv, p.msg)))
  {
    hide Run, CopyFor, CopiesTo, InfoFor, Select;
    var id, done := p.recv.id, Run(es).done;
    PairIsToldOnce(es, x, p);
    PairIsCopiedOnce(es, x, p);
    NoItems(Run(es).channel, id);
    CountIsLength(done, id);
    var mine := Select(OfId(id), done);
    assert |mine| == 1;
    SelectIn(OfId(id), done, mine[0]);
    assert mine[0] == CompletionFor(x, p);
  }

  lemma NoItems(c: seq<Item>, id: nat)
    ensures c == [] ==> multiset(ItemIds(c))[id] == 0
  {
  }

  /** A receive still queued has been handed nothing. */
  lemma QueuedIsHandedNothing(es: seq<Event>, x: bool, r: Recv)
    requires r in LaneOf(Run(es), x).ops
    ensures Handed(Run(es), x, r.id) == View([], [])
  {
    hide Run, CopiesTo, Select, CopiesOf;
    var s := Run(es);
    QueuedCounts(es, x, r);
    CountIsLength(s.done, r.id);
    assert Select(OfId(r.id), s.done) == [];
    CopiesAreOfPairs(es, x, r.id);
    QueuedUnpaired(es, x, r);
    CopiesOfNone(x, LaneOf(s, x).pairs, r.id);
  }

  lemma QueuedCounts(es: seq<Event>, x: bool, r: Recv)
    requires r in LaneOf(Run(es), x).ops
    ensures multiset(DoneIds(Run(es).done))[r.id] == 0
  {
    hide Run, DoneIds, ItemIds;
    EachOpInOnePlace(es, r.id);
    var rs := LaneOf(Run(es), x).ops;
    var i :| 0 <= i < |rs| && rs[i] == r;
    assert RecvIds(rs)[i] == r.id;
    assert r.id in multiset(RecvIds(rs));
  }

  lemma QueuedUnpaired(es: seq<Event>, x: bool, r: Recv)
    requires r in LaneOf(Run(es), x).ops
    ensures forall i | 0 <= i < |LaneOf(Run(es), x).pairs| :: LaneOf(Run(es), x).pairs[i].recv.id != r.id
  {
    hide Run;
    var l := LaneOf(Run(es), x);
    RunKeepsLanes(es, x);
    RunTracksHistory(es, x);
    Within(l);
    PairOfPosting(es, x);
    PostEvent(es, x, r);
    forall i | 0 <= i < |l.pairs| ensures l.pairs[i].recv.id != r.id {
      var p := l.pairs[i];
      assert p in l.pairs;
      PostEvent(es, x, p.recv);
      QueuedIsUnpaired(l, r, p);
    }
  }

  lemma QueuedIsUnpaired(l: Lane, r: Recv, p: Pair)
    requires Conserved(l) && RecvsOrdered(l.posted) && r in l.ops && p in l.pairs
    ensures p.recv != r
  {
    RecvOnce(l.posted, r);
    assert r in multiset(l.ops);
    assert r !in multiset(Recvs(l.pairs));
    PairRecvListed(l.pairs, p);
  }

  /** What the i-th receive of a key ends up with: the i-th message of the key. */
  lemma KeyIsHanded(es: seq<Event>, tag: nat, source: PeerId, i: nat)
    requires Pure(Key(tag, source), PostsOf(es, true)) && NeverCancelled(Key(tag, source), es)
    requires Run(es).channel == [] && i < |SelR(Key(tag, source), PostsOf(es, true))|
    ensures
      var r, msgs := SelR(Key(tag, source), PostsOf(es, true))[i], SelM(Key(tag, source), ArrivalsOf(es, true));
      Handed(Run(es), true, r.id)
        == if i < |msgs|
           then View([(r.op, Success, ExpectedInfo(|msgs[i].payload|))], BytesOf(CopyFor(true, r, msgs[i])))
           else View([], [])
  {
    hide Run, SelR, SelM, SelP, Pure, NeverCancelled, Handed, CopyFor, PostsOf, ArrivalsOf;
    var g := Key(tag, source);
    var posts, msgs := SelR(g, PostsOf(es, true)), SelM(g, ArrivalsOf(es, true));
    KeyServedInOrder(es, tag, source);
    assert Run(es).expected == LaneOf(Run(es), true);
    if i < |msgs| {
      ServedIsPaired(g, Run(es).expected.pairs, i);
      PairIsHanded(es, true, Pair(posts[i], msgs[i]));
    } else {
      UnservedIsQueued(es, tag, source, i);
      QueuedIsHandedNothing(es, true, posts[i]);
    }
  }

  lemma ServedIsPaired(g: Group, ps: seq<Pair>, i: nat)
    requires i < |SelP(g, ps)|
    ensures SelP(g, ps)[i] in ps
  {
    SelectIn(InP(g), ps, SelP(g, ps)[i]);
  }

  lemma UnservedIsQueued(es: seq<Event>, tag: nat, source: PeerId, i: nat)
    requires Pure(Key(tag, source), PostsOf(es, true)) && NeverCancelled(Key(tag, source), es)
    requires i < |SelR(Key(tag, source), PostsOf(es, true))|
    requires i >= |SelP(Key(tag, source), LaneOf(Run(es), true).pairs)|
    ensures SelR(Key(tag, source), PostsOf(es, true))[i] in LaneOf(Run(es), true).ops
  {
    hide Run, SelR, SelM, SelP, Kept, Pure, NeverCancelled, PostsOf, ArrivalsOf;
    var g := Key(tag, source);
    var l := LaneOf(Run(es), true);
    RunServesInOrder(g, es, true);
    RunTracksHistory(es, true);
    NothingWithdrawn(g, es);
    var k := i - |SelP(g, l.pairs)|;
    assert SelR(g, l.ops)[k] == SelR(g, PostsOf(es, true))[i];
    QueuedSelected(g, l.ops, k);
  }

  lemma QueuedSelected(g: Group, rs: seq<Recv>, k: nat)
    requires k < |SelR(g, rs)|
    ensures SelR(g, rs)[k] in rs
  {
    SelectIn(InR(g), rs, SelR(g, rs)[k]);
  }

  /** The same postings and messages up to their instants. */
  ghost predicate SamePosts(a: seq<Recv>, b: seq<Recv>) {
    |a| == |b| && forall i | 0 <= i < |a| :: a[i].(id := 0) == b[i].(id := 0)
  }

  ghost predicate SameMsgs(a: seq<Arrival>, b: seq<Arrival>) {
    |a| == |b| && forall i | 0 <= i < |a| :: a[i].(id := 0) == b[i].(id := 0)
  }

  /** Confluence: two runs with the same postings and messages for a key, in
      whatever interleavings and amid whatever other traffic, hand the user the
      same completion and the same bytes for each posting, once both channels are
      drained. */
  lemma ExpectedMatchingIsConfluent(es: seq<Event>, fs: seq<Event>, tag: nat, source: PeerId, i: nat)
    requires Pure(Key(tag, source), PostsOf(es, true)) && NeverCancelled(Key(tag, source), es)
    requires Pure(Key(tag, source), PostsOf(fs, true)) && NeverCancelled(Key(tag, source), fs)
    requires SamePosts(SelR(Key(tag, source), PostsOf(es, true)), SelR(Key(tag, source), PostsOf(fs, true)))
    requires SameMsgs(SelM(Key(tag, source), ArrivalsOf(es, true)), SelM(Key(tag, source), ArrivalsOf(fs, true)))
    requires Run(es).channel == [] && Run(fs).channel == [] && i < |SelR(Key(tag, source), PostsOf(es, true))|
    ensures
      var g := Key(tag, source);
      Handed(Run(es), true, SelR(g, PostsOf(es, true))[i].id) == Handed(Run(fs), true, SelR(g, PostsOf(fs, true))[i].id)
  {
    hide Run, SelR, SelM, Pure, NeverCancelled, Handed, CopyFor, PostsOf, ArrivalsOf;
    var g := Key(tag, source);
    KeyIsHanded(es, tag, source, i);
    KeyIsHanded(fs, tag, source, i);
    var msgs, msgs' := SelM(g, ArrivalsOf(es, true)), SelM(g, ArrivalsOf(fs, true));
    if i < |msgs| {
      SameBytes(SelR(g, PostsOf(es, true))[i], msgs[i], SelR(g, PostsOf(fs, true))[i], msgs'[i]);
    }
  }

  lemma SameBytes(r: Recv, m: Arrival, q: Recv, n: Arrival)
    requires r.(id := 0) == q.(id := 0) && m.(id := 0) == n.(id := 0)
    ensures r.op == q.op && m.payload == n.payload
    ensures BytesOf(CopyFor(true, r, m)) == BytesOf(CopyFor(true, q, n))
  {
    var r0, m0 := r.(id := 0), m.(id := 0);
    assert r0.op == r.op && r0.op == q.op && r0.bufSize == r.bufSize == q.bufSize && r0.hasBuf == r.hasBuf == q.hasBuf;
    assert m0.payload == m.payload && m0.payload == n.payload;
  }
}
