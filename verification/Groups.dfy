/** Message groups served in order.  A group is either everything on a lane or
    one (tag, source) key.  When every receive on the lane either accepts the
    whole group or none of it, the group is served first come, first served, as
    if it had a queue of its own. */
module Groups {
  import opened Prelude
  import opened Lane

  datatype Group = Everything | Key(tag: nat, source: PeerId)

  predicate MsgIn(g: Group, m: Arrival) {
    g.Everything? || (g.tag == m.tag && g.source == m.source)
  }

  predicate RecvIn(g: Group, r: Recv) {
    match g
    case Everything => r.filter.AnyMessage?
    case Key(tag, source) => r.filter == Tagged(tag, Some(source))
  }

  /** The receive accepts no message of the group. */
  predicate Apart(g: Group, r: Recv) {
    match g
    case Everything => false
    case Key(tag, source) =>
      r.filter.Tagged? && (r.filter.tag != tag || (r.filter.source.Some? && r.filter.source.value != source))
  }

  ghost predicate Pure(g: Group, rs: seq<Recv>) {
    forall r | r in rs :: RecvIn(g, r) || Apart(g, r)
  }

  function InR(g: Group): Recv -> bool { r => RecvIn(g, r) }

  function InM(g: Group): Arrival -> bool { m => MsgIn(g, m) }

  function InP(g: Group): Pair -> bool { (p: Pair) => RecvIn(g, p.recv) }

  function NotIn(gone: seq<Recv>): Recv -> bool { r => r !in gone }

  function SelR(g: Group, rs: seq<Recv>): seq<Recv> { Select(InR(g), rs) }

  function SelM(g: Group, ms: seq<Arrival>): seq<Arrival> { Select(InM(g), ms) }

  function SelP(g: Group, ps: seq<Pair>): seq<Pair> { Select(InP(g), ps) }

  /** The postings that were not withdrawn. */
  function Kept(rs: seq<Recv>, gone: seq<Recv>): seq<Recv> { Select(NotIn(gone), rs) }

  lemma SelRSteps(g: Group, rs: seq<Recv>, r: Recv)
    ensures SelR(g, rs + [r]) == SelR(g, rs) + if RecvIn(g, r) then [r] else []
  {
    SelectCat(InR(g), rs, [r]);
    SelectOne(InR(g), r);
  }

  lemma SelMSteps(g: Group, ms: seq<Arrival>, m: Arrival)
    ensures SelM(g, ms + [m]) == SelM(g, ms) + if MsgIn(g, m) then [m] else []
  {
    SelectCat(InM(g), ms, [m]);
    SelectOne(InM(g), m);
  }

  lemma SelPSteps(g: Group, ps: seq<Pair>, p: Pair)
    ensures Msgs(SelP(g, ps + [p])) == Msgs(SelP(g, ps)) + if RecvIn(g, p.recv) then [p.msg] else []
    ensures Recvs(SelP(g, ps + [p])) == Recvs(SelP(g, ps)) + if RecvIn(g, p.recv) then [p.recv] else []
  {
    SelectCat(InP(g), ps, [p]);
    SelectOne(InP(g), p);
  }

  /** Withdrawing one more posting filters what was kept. */
  lemma {:induction false} KeptTwice(rs: seq<Recv>, gone: seq<Recv>, r: Recv)
    ensures Kept(rs, gone + [r]) == Kept(Kept(rs, gone), [r])
    decreases |rs|
  {
    if rs != [] {
      var k := |rs| - 1;
      KeptTwice(rs[..k], gone, r);
      SelectCat(NotIn([r]), Kept(rs[..k], gone), if rs[k] in gone then [] else [rs[k]]);
      SelectOne(NotIn([r]), rs[k]);
    }
  }

  // ---------------------------------------------------------------------
  //  First come, first served
  // ---------------------------------------------------------------------

  /** The group's arrivals are the delivered messages followed by the stash, and
      its uncancelled postings are the served receives followed by the queue. */
  ghost predicate InOrder(g: Group, l: Lane) {
    && Msgs(SelP(g, l.pairs)) + SelM(g, l.stash) == SelM(g, l.arrived)
    && Recvs(SelP(g, l.pairs)) + SelR(g, l.ops) == Kept(SelR(g, l.posted), Gone(l.withdrawn))
  }

  lemma RecvInMeansAll(g: Group, r: Recv, m: Arrival)
    ensures RecvIn(g, r) ==> (Matches(r, m) <==> MsgIn(g, m))
    ensures Apart(g, r) && Matches(r, m) ==> !MsgIn(g, m)
  {
  }

  /** A group never has both a waiting receive and a waiting message. */
  lemma OneSideEmpty(g: Group, l: Lane)
    requires Settled(l)
    ensures SelR(g, l.ops) == [] || SelM(g, l.stash) == []
  {
    if SelR(g, l.ops) != [] && SelM(g, l.stash) != [] {
      var r, m := SelR(g, l.ops)[0], SelM(g, l.stash)[0];
      SelectIn(InR(g), l.ops, r);
      SelectIn(InM(g), l.stash, m);
      RecvInMeansAll(g, r, m);
    }
  }

  lemma PostKept(g: Group, l: Lane, r: Recv)
    requires r !in Gone(l.withdrawn)
    ensures Kept(SelR(g, l.posted + [r]), Gone(l.withdrawn))
         == Kept(SelR(g, l.posted), Gone(l.withdrawn)) + if RecvIn(g, r) then [r] else []
  {
    SelRSteps(g, l.posted, r);
    SelectCat(NotIn(Gone(l.withdrawn)), SelR(g, l.posted), if RecvIn(g, r) then [r] else []);
    SelectOne(NotIn(Gone(l.withdrawn)), r);
  }

  /** A receive takes the head of its group's stash. */
  lemma StashHead(g: Group, l: Lane, r: Recv)
    requires RecvIn(g, r) || Apart(g, r)
    requires FirstMessage(l.stash, r) < |l.stash|
    ensures
      var i := FirstMessage(l.stash, r);
      && SelM(g, l.stash) == (if RecvIn(g, r) then [l.stash[i]] else []) + SelM(g, RemoveAt(l.stash, i))
  {
    var i := FirstMessage(l.stash, r);
    forall j | 0 <= j <= i ensures RecvIn(g, r) ==> (Matches(r, l.stash[j]) <==> MsgIn(g, l.stash[j])) {
      RecvInMeansAll(g, r, l.stash[j]);
    }
    RecvInMeansAll(g, r, l.stash[i]);
    if RecvIn(g, r) { SelectTake(InM(g), l.stash, i); } else { SelectSkip(InM(g), l.stash, i); }
  }

  /** A message takes the head of its group's receive queue. */
  lemma QueueHead(g: Group, l: Lane, m: Arrival)
    requires Pure(g, l.ops) && FirstRecv(l.ops, m) < |l.ops|
    ensures
      var i := FirstRecv(l.ops, m);
      && SelR(g, l.ops) == (if MsgIn(g, m) then [l.ops[i]] else []) + SelR(g, RemoveAt(l.ops, i))
      && (RecvIn(g, l.ops[i]) <==> MsgIn(g, m))
  {
    var i := FirstRecv(l.ops, m);
    forall j | 0 <= j <= i ensures RecvIn(g, l.ops[j]) ==> (Matches(l.ops[j], m) <==> MsgIn(g, m)) {
      RecvInMeansAll(g, l.ops[j], m);
    }
    RecvInMeansAll(g, l.ops[i], m);
    if MsgIn(g, m) { SelectTake(InR(g), l.ops, i); } else { SelectSkip(InR(g), l.ops, i); }
  }

  lemma Shift<T>(a: seq<T>, x: seq<T>, b: seq<T>)
    ensures a + (x + b) == (a + x) + b
  {
  }

  lemma PostHitInOrder(g: Group, l: Lane, r: Recv)
    requires InOrder(g, l) && Settled(l) && r !in Gone(l.withdrawn)
    requires RecvIn(g, r) || Apart(g, r)
    requires FirstMessage(l.stash, r) < |l.stash|
    ensures InOrder(g, Post(l, r))
  {
    hide SelR, SelM, SelP, Kept, RecvIn, Apart;
    var i := FirstMessage(l.stash, r);
    PostKept(g, l, r);
    OneSideEmpty(g, l);
    StashHead(g, l, r);
    SelPSteps(g, l.pairs, Pair(r, l.stash[i]));
    Shift(Msgs(SelP(g, l.pairs)), if RecvIn(g, r) then [l.stash[i]] else [], SelM(g, RemoveAt(l.stash, i)));
  }

  lemma PostInOrder(g: Group, l: Lane, r: Recv)
    requires InOrder(g, l) && Settled(l) && r !in Gone(l.withdrawn)
    requires RecvIn(g, r) || Apart(g, r)
    ensures InOrder(g, Post(l, r))
  {
    hide SelR, SelM, SelP, Kept, RecvIn, Apart;
    if FirstMessage(l.stash, r) < |l.stash| {
      PostHitInOrder(g, l, r);
    } else {
      PostKept(g, l, r);
      SelRSteps(g, l.ops, r);
      Shift(Recvs(SelP(g, l.pairs)), SelR(g, l.ops), if RecvIn(g, r) then [r] else []);
    }
  }

  lemma ArriveInOrder(g: Group, l: Lane, m: Arrival)
    requires InOrder(g, l) && Settled(l) && Pure(g, l.ops)
    ensures InOrder(g, Arrive(l, m))
  {
    hide SelR, SelM, SelP, Kept, RecvIn, Apart;
    SelMSteps(g, l.arrived, m);
    var mine := if MsgIn(g, m) then [m] else [];
    var i := FirstRecv(l.ops, m);
    if i < |l.ops| {
      OneSideEmpty(g, l);
      QueueHead(g, l, m);
      SelPSteps(g, l.pairs, Pair(l.ops[i], m));
      Shift(Recvs(SelP(g, l.pairs)), if MsgIn(g, m) then [l.ops[i]] else [], SelR(g, RemoveAt(l.ops, i)));
    } else {
      SelMSteps(g, l.stash, m);
      Shift(Msgs(SelP(g, l.pairs)), SelM(g, l.stash), mine);
    }
  }

  lemma PostingsDistinct(rs: seq<Recv>, i: nat)
    requires i < |rs| && RecvsOrdered(rs)
    ensures rs[i] !in rs[..i] && rs[i] !in rs[i + 1..]
  {
  }

  lemma KeptOthers(g: Group, rs: seq<Recv>, r: Recv)
    requires r !in rs
    ensures Kept(SelR(g, rs), [r]) == SelR(g, rs)
  {
    SelectIn(InR(g), rs, r);
    SelectAll(NotIn([r]), SelR(g, rs));
  }

  lemma KeptMid(g: Group, a: seq<Recv>, r: Recv, b: seq<Recv>)
    requires r !in a && r !in b
    ensures Kept(SelR(g, a + [r] + b), [r]) == SelR(g, a + b)
  {
    KeptOthers(g, a, r);
    KeptOthers(g, b, r);
    var one := SelR(g, [r]);
    SelectOne(InR(g), r);
    SelectOne(NotIn([r]), r);
    assert Kept(one, [r]) == [];
    calc {
      Kept(SelR(g, a + [r] + b), [r]);
      { SelectMid(InR(g), a, r, b); }
      Kept(SelR(g, a) + one + SelR(g, b), [r]);
      { SelectCat(NotIn([r]), SelR(g, a) + one, SelR(g, b)); SelectCat(NotIn([r]), SelR(g, a), one); }
      SelR(g, a) + [] + SelR(g, b);
      { SelectMid(InR(g), a, r, b); }
      SelR(g, a + b);
    }
  }

  /** Withdrawing the i-th of distinct postings removes just it from its group. */
  lemma KeptWithout(g: Group, rs: seq<Recv>, i: nat)
    requires i < |rs| && RecvsOrdered(rs)
    ensures Kept(SelR(g, rs), [rs[i]]) == SelR(g, RemoveAt(rs, i))
  {
    PostingsDistinct(rs, i);
    AroundIndex(rs, i);
    KeptMid(g, rs[..i], rs[i], rs[i + 1..]);
  }

  lemma CancelInOrder(g: Group, l: Lane, op: nat, at: nat)
    requires InOrder(g, l) && RecvsOrdered(l.ops)
    requires forall r | r in l.ops :: r !in Recvs(SelP(g, l.pairs))
    ensures InOrder(g, Cancel(l, op, at))
  {
    var i := FirstOf(l.ops, op);
    if i < |l.ops| {
      var r := l.ops[i];
      GoneAppend(l.withdrawn, Withdrawal(r, at));
      KeptTwice(SelR(g, l.posted), Gone(l.withdrawn), r);
      SelectCat(NotIn([r]), Recvs(SelP(g, l.pairs)), SelR(g, l.ops));
      SelectAll(NotIn([r]), Recvs(SelP(g, l.pairs)));
      KeptWithout(g, l.ops, i);
    }
  }

  /** Served in order and settled: the i-th receive of the group got the i-th
      message, for as many as both sides have. */
  lemma ServedIsZip(g: Group, l: Lane)
    requires InOrder(g, l) && Settled(l)
    ensures
      var served := SelP(g, l.pairs);
      var posts, msgs := Kept(SelR(g, l.posted), Gone(l.withdrawn)), SelM(g, l.arrived);
      && |served| == Min(|posts|, |msgs|)
      && forall i | 0 <= i < |served| :: served[i] == Pair(posts[i], msgs[i])
  {
    OneSideEmpty(g, l);
    var served := SelP(g, l.pairs);
    var posts, msgs := Kept(SelR(g, l.posted), Gone(l.withdrawn)), SelM(g, l.arrived);
    forall i | 0 <= i < |served| ensures served[i] == Pair(posts[i], msgs[i]) {
      assert posts[i] == Recvs(served)[i] && msgs[i] == Msgs(served)[i];
    }
  }
}
