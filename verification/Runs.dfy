/** What receive matching guarantees over whole runs of the engine. */
module Runs {
  import opened Prelude
  import opened Lane
  import opened LaneSpec
  import opened Groups
  import opened Engine

  /** In every run, each lane's pairing is the one and only legal pairing of the
      run's postings, arrivals and cancellations: it respects the filters, pairs
      nothing twice, leaves no pairable couple waiting, and never lets a message
      or a receive overtake an earlier one. */
  lemma RunPairsTheOnlyWay(es: seq<Event>, x: bool, ps: seq<Pair>)
    ensures
      var l := LaneOf(Run(es), x);
      Legal(History(PostsOf(es, x), ArrivalsOf(es, x), l.withdrawn), ps) <==> ps == l.pairs
  {
    RunKeepsLanes(es, x);
    RunTracksHistory(es, x);
    OnlyLegalPairing(LaneOf(Run(es), x), |es|, ps);
  }

  /** Non-overtaking, spelled out for one pairing of a run with wildcards. */
  lemma NobodyOvertakes(es: seq<Event>, x: bool, j: nat, m: Arrival, r: Recv)
    requires j < |LaneOf(Run(es), x).pairs|
    ensures
      var l := LaneOf(Run(es), x);
      var p := l.pairs[j];
      && (m in ArrivalsOf(es, x) && m.id < p.msg.id && Matches(p.recv, m) ==> MsgTakenBefore(l.pairs, j, m))
      && (r in PostsOf(es, x) && r.id < p.recv.id && Matches(r, p.msg) ==>
            RecvTakenBefore(l.pairs, j, r) || WithdrawnBefore(l.withdrawn, r, Time(p)))
  {
    RunKeepsLanes(es, x);
    RunTracksHistory(es, x);
    var l := LaneOf(Run(es), x);
    assert FairAt(l.posted, l.arrived, l.withdrawn, l.pairs, j);
  }

  // ---------------------------------------------------------------------
  //  Groups served in order
  // ---------------------------------------------------------------------

  lemma GoneWerePosted(l: Lane, now: nat)
    requires WellTimed(l, now) && Conserved(l)
    ensures forall r | r in Gone(l.withdrawn) :: r.id < now
  {
    Places(l);
  }

  lemma QueuedAreUnserved(g: Group, l: Lane, r: Recv)
    requires Conserved(l) && RecvsOrdered(l.posted) && r in l.ops
    ensures r !in Recvs(SelP(g, l.pairs))
  {
    RecvOnce(l.posted, r);
    assert r in multiset(l.ops);
    assert r !in multiset(Recvs(l.pairs));
    if k :| 0 <= k < |SelP(g, l.pairs)| && SelP(g, l.pairs)[k].recv == r {
      var p := SelP(g, l.pairs)[k];
      SelectIn(InP(g), l.pairs, p);
      PairRecvListed(l.pairs, p);
    }
  }

  lemma PairRecvListed(ps: seq<Pair>, p: Pair)
    requires p in ps
    ensures p.recv in Recvs(ps)
  {
    var i :| 0 <= i < |ps| && ps[i] == p;
    assert Recvs(ps)[i] == p.recv;
  }

  lemma LaneStepInOrder(g: Group, l: Lane, l': Lane, e: Event, x: bool, now: nat)
    requires Inv(l, now) && LaneSteps(l, l', e, x, now)
    requires InOrder(g, l) && Pure(g, l'.posted)
    ensures InOrder(g, l')
  {
    hide InOrder, Fair, PairsSound, CancelsEager;
    if PostsTo(e, x) {
      var r := RecvOf(now, e);
      GoneWerePosted(l, now);
      assert r in l'.posted;
      PostInOrder(g, l, r);
    } else if ArrivesTo(e, x) {
      Within(l);
      assert Pure(g, l.ops);
      ArriveInOrder(g, l, ArrivalOf(now, e));
    } else if e.CancelOp? {
      forall r | r in l.ops ensures r !in Recvs(SelP(g, l.pairs)) { QueuedAreUnserved(g, l, r); }
      CancelInOrder(g, l, e.op, now);
    }
  }

  lemma PurePrefix(g: Group, es: seq<Event>, x: bool)
    requires es != [] && Pure(g, PostsOf(es, x))
    ensures Pure(g, PostsOf(es[..|es| - 1], x))
  {
  }

  lemma InitInOrder(g: Group, x: bool)
    ensures InOrder(g, LaneOf(Init, x))
  {
  }

  lemma {:induction false} RunServesInOrder(g: Group, es: seq<Event>, x: bool)
    requires Pure(g, PostsOf(es, x))
    ensures InOrder(g, LaneOf(Run(es), x))
    decreases |es|
  {
    hide InOrder, Step, Inv, Pure;
    if es == [] {
      InitInOrder(g, x);
    } else {
      var k := |es| - 1;
      PurePrefix(g, es, x);
      RunServesInOrder(g, es[..k], x);
      RunKeepsLanes(es[..k], x);
      StepOnLane(Run(es[..k]), es[k], x);
      RunTracksHistory(es, x);
      LaneStepInOrder(g, LaneOf(Run(es[..k]), x), LaneOf(Run(es), x), es[k], x, k);
    }
  }

  lemma {:induction false} UnexpectedPostsTakeAnything(es: seq<Event>)
    ensures forall r | r in PostsOf(es, false) :: r.filter.AnyMessage?
    decreases |es|
  {
    if es != [] { UnexpectedPostsTakeAnything(es[..|es| - 1]); }
  }

  lemma SelectsAll(es: seq<Event>)
    ensures SelR(Everything, PostsOf(es, false)) == PostsOf(es, false)
    ensures SelM(Everything, ArrivalsOf(es, false)) == ArrivalsOf(es, false)
  {
    UnexpectedPostsTakeAnything(es);
    SelectAll(InR(Everything), PostsOf(es, false));
    SelectAll(InM(Everything), ArrivalsOf(es, false));
  }

  lemma UnexpectedPairsSelected(es: seq<Event>)
    ensures SelP(Everything, Run(es).unexpected.pairs) == Run(es).unexpected.pairs
    ensures SelR(Everything, Run(es).unexpected.ops) == Run(es).unexpected.ops
    ensures SelM(Everything, Run(es).unexpected.stash) == Run(es).unexpected.stash
  {
    var l := Run(es).unexpected;
    assert l == LaneOf(Run(es), false);
    RunKeepsLanes(es, false);
    RunTracksHistory(es, false);
    UnexpectedPostsTakeAnything(es);
    Places(l);
    forall p | p in l.pairs ensures RecvIn(Everything, p.recv) {
      PairRecvListed(l.pairs, p);
    }
    SelectAll(InP(Everything), l.pairs);
    SelectAll(InR(Everything), l.ops);
    SelectAll(InM(Everything), l.stash);
  }

  /** Unexpected receives refine a zip, at every point of every run: arrivals are
      the delivered messages followed by the stash, uncancelled postings are the
      served receives followed by the queue, the i-th delivered message went to
      the i-th served receive, and one of queue and stash is empty. */
  lemma UnexpectedIsZip(es: seq<Event>)
    ensures
      var l := Run(es).unexpected;
      && ArrivalsOf(es, false) == Msgs(l.pairs) + l.stash
      && Kept(PostsOf(es, false), Gone(l.withdrawn)) == Recvs(l.pairs) + l.ops
      && (l.ops == [] || l.stash == [])
  {
    hide Step, Inv, SelR, SelM, SelP, Kept;
    UnexpectedPostsTakeAnything(es);
    RunServesInOrder(Everything, es, false);
    RunTracksHistory(es, false);
    RunKeepsLanes(es, false);
    SelectsAll(es);
    UnexpectedPairsSelected(es);
    OneSideEmpty(Everything, LaneOf(Run(es), false));
  }

  // ---------------------------------------------------------------------
  //  One key
  // ---------------------------------------------------------------------

  /** No cancellation in the run names an operation posted for the group. */
  ghost predicate NeverCancelled(g: Group, es: seq<Event>) {
    forall t, r | 0 <= t < |es| && r in SelR(g, PostsOf(es, true)) :: es[t] != CancelOp(r.op)
  }

  lemma NothingWithdrawn(g: Group, es: seq<Event>)
    requires NeverCancelled(g, es)
    ensures Kept(SelR(g, PostsOf(es, true)), Gone(LaneOf(Run(es), true).withdrawn)) == SelR(g, PostsOf(es, true))
  {
    RunTracksHistory(es, true);
    var l := LaneOf(Run(es), true);
    var rs := SelR(g, PostsOf(es, true));
    forall k | 0 <= k < |l.withdrawn| ensures Gone(l.withdrawn)[k] !in rs {
      assert l.withdrawn[k] in l.withdrawn;
    }
    SelectAll(NotIn(Gone(l.withdrawn)), rs);
  }

  /** With source-specific receives and no cancellation for a (tag, source) key,
      the i-th receive posted for the key is paired with the i-th message of the
      key, in every interleaving and whatever else happens in the run. */
  lemma KeyServedInOrder(es: seq<Event>, tag: nat, source: PeerId)
    requires Pure(Key(tag, source), PostsOf(es, true)) && NeverCancelled(Key(tag, source), es)
    ensures
      var g := Key(tag, source);
      var posts, msgs := SelR(g, PostsOf(es, true)), SelM(g, ArrivalsOf(es, true));
      var served := SelP(g, Run(es).expected.pairs);
      && |served| == Min(|posts|, |msgs|)
      && forall i | 0 <= i < |served| :: served[i] == Pair(posts[i], msgs[i])
  {
    hide Step, Inv, SelR, SelM, SelP, Kept;
    var g := Key(tag, source);
    RunServesInOrder(g, es, true);
    RunTracksHistory(es, true);
    RunKeepsLanes(es, true);
    NothingWithdrawn(g, es);
    ServedIsZip(g, LaneOf(Run(es), true));
  }
}
