/** One receive-matching lane: a queue of posted receives and a stash of early
    messages.  The unexpected lane is the lane whose receives accept every
    message; the expected lane filters by tag and, optionally, by source.

    A lane carries its own history.  Every post, arrival and cancellation is
    stamped with the instant at which its critical section ran, so a posting
    and an arrival are identified by their instants. */
module Lane {
  import opened Prelude

  datatype Filter = AnyMessage | Tagged(tag: nat, source: Option<PeerId>)

  datatype Recv = Recv(id: nat, op: nat, filter: Filter, hasBuf: bool, bufSize: nat)

  datatype Arrival = Arrival(id: nat, source: PeerId, tag: nat, payload: seq<Byte>)

  datatype Pair = Pair(recv: Recv, msg: Arrival)

  datatype Withdrawal = Withdrawal(recv: Recv, at: nat)

  datatype Lane = Lane(
    ops: seq<Recv>,
    stash: seq<Arrival>,
    posted: seq<Recv>,
    arrived: seq<Arrival>,
    pairs: seq<Pair>,
    withdrawn: seq<Withdrawal>)

  const Empty := Lane([], [], [], [], [], [])

  predicate Matches(r: Recv, m: Arrival) {
    match r.filter
    case AnyMessage => true
    case Tagged(tag, source) =>
      tag == m.tag && (source.None? || source.value == m.source)
  }

  /** Position of the oldest stashed message the receive accepts. */
  function FirstMessage(stash: seq<Arrival>, r: Recv): (i: nat)
    ensures i <= |stash|
    ensures i < |stash| ==> Matches(r, stash[i])
    ensures forall j | 0 <= j < i :: !Matches(r, stash[j])
  {
    if stash == [] || Matches(r, stash[0]) then 0 else 1 + FirstMessage(stash[1..], r)
  }

  /** Position of the oldest posted receive that accepts the message. */
  function FirstRecv(ops: seq<Recv>, m: Arrival): (i: nat)
    ensures i <= |ops|
    ensures i < |ops| ==> Matches(ops[i], m)
    ensures forall j | 0 <= j < i :: !Matches(ops[j], m)
  {
    if ops == [] || Matches(ops[0], m) then 0 else 1 + FirstRecv(ops[1..], m)
  }

  /** Position of the first posted receive on the given operation. */
  function FirstOf(ops: seq<Recv>, op: nat): (i: nat)
    ensures i <= |ops|
    ensures i < |ops| ==> ops[i].op == op
    ensures forall j | 0 <= j < i :: ops[j].op != op
  {
    if ops == [] || ops[0].op == op then 0 else 1 + FirstOf(ops[1..], op)
  }

  function Post(l: Lane, r: Recv): Lane {
    var i := FirstMessage(l.stash, r);
    var l' := l.(posted := l.posted + [r]);
    if i < |l.stash| then
      l'.(stash := RemoveAt(l.stash, i), pairs := l.pairs + [Pair(r, l.stash[i])])
    else
      l'.(ops := l.ops + [r])
  }

  function Arrive(l: Lane, m: Arrival): Lane {
    var i := FirstRecv(l.ops, m);
    var l' := l.(arrived := l.arrived + [m]);
    if i < |l.ops| then
      l'.(ops := RemoveAt(l.ops, i), pairs := l.pairs + [Pair(l.ops[i], m)])
    else
      l'.(stash := l.stash + [m])
  }

  function Cancel(l: Lane, op: nat, at: nat): Lane {
    var i := FirstOf(l.ops, op);
    if i < |l.ops| then
      l.(ops := RemoveAt(l.ops, i), withdrawn := l.withdrawn + [Withdrawal(l.ops[i], at)])
    else
      l
  }

  // ---------------------------------------------------------------------
  //  What every step keeps
  // ---------------------------------------------------------------------

  function Time(p: Pair): nat { Max(p.recv.id, p.msg.id) }

  function Recvs(ps: seq<Pair>): (rs: seq<Recv>)
    ensures |rs| == |ps| && forall i | 0 <= i < |ps| :: rs[i] == ps[i].recv
  {
    seq(|ps|, i requires 0 <= i < |ps| => ps[i].recv)
  }

  function Msgs(ps: seq<Pair>): (ms: seq<Arrival>)
    ensures |ms| == |ps| && forall i | 0 <= i < |ps| :: ms[i] == ps[i].msg
  {
    seq(|ps|, i requires 0 <= i < |ps| => ps[i].msg)
  }

  function Gone(ws: seq<Withdrawal>): (rs: seq<Recv>)
    ensures |rs| == |ws| && forall i | 0 <= i < |ws| :: rs[i] == ws[i].recv
  {
    seq(|ws|, i requires 0 <= i < |ws| => ws[i].recv)
  }

  ghost predicate RecvsOrdered(rs: seq<Recv>) {
    forall i, j | 0 <= i < j < |rs| :: rs[i].id < rs[j].id
  }

  ghost predicate MsgsOrdered(ms: seq<Arrival>) {
    forall i, j | 0 <= i < j < |ms| :: ms[i].id < ms[j].id
  }

  /** All instants so far are distinct and lie before `now`. */
  ghost predicate WellTimed(l: Lane, now: nat) {
    && RecvsOrdered(l.posted) && MsgsOrdered(l.arrived)
    && (forall r | r in l.posted :: r.id < now)
    && (forall m | m in l.arrived :: m.id < now)
    && (forall r, m | r in l.posted && m in l.arrived :: r.id != m.id)
    && (forall w | w in l.withdrawn :: w.at < now)
  }

  /** Every posting is queued, paired or withdrawn; every arrival is stashed or
      paired; nothing is in two places and nothing is lost. */
  ghost predicate Conserved(l: Lane) {
    && multiset(l.posted) == multiset(l.ops) + multiset(Recvs(l.pairs)) + multiset(Gone(l.withdrawn))
    && multiset(l.arrived) == multiset(l.stash) + multiset(Msgs(l.pairs))
    && RecvsOrdered(l.ops) && MsgsOrdered(l.stash)
  }

  /** No posted receive accepts any stashed message. */
  ghost predicate Settled(l: Lane) {
    forall r, m | r in l.ops && m in l.stash :: !Matches(r, m)
  }

  ghost predicate PairsSound(l: Lane, now: nat) {
    && (forall p | p in l.pairs :: Matches(p.recv, p.msg) && Time(p) < now)
    && (forall i, j | 0 <= i < j < |l.pairs| :: Time(l.pairs[i]) < Time(l.pairs[j]))
  }

  ghost predicate MsgTakenBefore(ps: seq<Pair>, j: nat, m: Arrival) {
    exists i | 0 <= i < j && i < |ps| :: ps[i].msg == m
  }

  ghost predicate RecvTakenBefore(ps: seq<Pair>, j: nat, r: Recv) {
    exists i | 0 <= i < j && i < |ps| :: ps[i].recv == r
  }

  ghost predicate WithdrawnBefore(ws: seq<Withdrawal>, r: Recv, t: nat) {
    exists w | w in ws :: w.recv == r && w.at < t
  }

  /** Non-overtaking at one pairing: every earlier message the receive accepts
      was already paired, and every earlier receive that accepts the message was
      already paired or cancelled. */
  ghost predicate FairAt(posted: seq<Recv>, arrived: seq<Arrival>, ws: seq<Withdrawal>, ps: seq<Pair>, j: nat)
    requires j < |ps|
  {
    var p := ps[j];
    && (forall m | m in arrived && m.id < p.msg.id && Matches(p.recv, m) :: MsgTakenBefore(ps, j, m))
    && (forall r | r in posted && r.id < p.recv.id && Matches(r, p.msg) ::
          RecvTakenBefore(ps, j, r) || WithdrawnBefore(ws, r, Time(p)))
  }

  ghost predicate Fair(l: Lane) {
    forall j | 0 <= j < |l.pairs| :: FairAt(l.posted, l.arrived, l.withdrawn, l.pairs, j)
  }

  /** A cancelled receive and a message it accepts that stays unpaired: the
      message came after the cancellation. */
  ghost predicate CancelsEager(l: Lane) {
    forall w, m | w in l.withdrawn && m in l.stash && Matches(w.recv, m) :: w.at < m.id
  }

  ghost predicate Inv(l: Lane, now: nat) {
    && WellTimed(l, now) && Conserved(l) && Settled(l)
    && PairsSound(l, now) && Fair(l) && CancelsEager(l)
  }

  lemma InvAgain(l: Lane, now: nat, later: nat)
    requires Inv(l, now) && now <= later
    ensures Inv(l, later)
  {
    forall p | p in l.pairs ensures Matches(p.recv, p.msg) && Time(p) < later {}
  }

  lemma InvEmpty(now: nat)
    ensures Inv(Empty, now)
  {
  }

  lemma Append<T>(s: seq<T>, x: T)
    ensures multiset(s + [x]) == multiset(s) + multiset{x}
    ensures forall y :: y in s + [x] <==> y in s || y == x
  {
  }

  lemma PairsAppend(ps: seq<Pair>, p: Pair)
    ensures Recvs(ps + [p]) == Recvs(ps) + [p.recv]
    ensures Msgs(ps + [p]) == Msgs(ps) + [p.msg]
  {
  }

  lemma GoneAppend(ws: seq<Withdrawal>, w: Withdrawal)
    ensures Gone(ws + [w]) == Gone(ws) + [w.recv]
  {
  }

  lemma Places(l: Lane)
    requires Conserved(l)
    ensures forall r :: r in l.posted <==> r in l.ops || r in Recvs(l.pairs) || r in Gone(l.withdrawn)
    ensures forall m :: m in l.arrived <==> m in l.stash || m in Msgs(l.pairs)
  {
    forall r ensures r in l.posted <==> r in l.ops || r in Recvs(l.pairs) || r in Gone(l.withdrawn) {
      assert r in l.posted <==> r in multiset(l.posted);
      assert r in l.ops <==> r in multiset(l.ops);
      assert r in Recvs(l.pairs) <==> r in multiset(Recvs(l.pairs));
      assert r in Gone(l.withdrawn) <==> r in multiset(Gone(l.withdrawn));
    }
    forall m ensures m in l.arrived <==> m in l.stash || m in Msgs(l.pairs) {
      assert m in l.arrived <==> m in multiset(l.arrived);
      assert m in l.stash <==> m in multiset(l.stash);
      assert m in Msgs(l.pairs) <==> m in multiset(Msgs(l.pairs));
    }
  }

  // ---- Conservation --------------------------------------------------------

  lemma OrderedWithout(rs: seq<Recv>, ms: seq<Arrival>, i: nat)
    ensures RecvsOrdered(rs) && i < |rs| ==> RecvsOrdered(RemoveAt(rs, i))
    ensures MsgsOrdered(ms) && i < |ms| ==> MsgsOrdered(RemoveAt(ms, i))
  {
  }

  lemma PostConserves(l: Lane, r: Recv)
    requires Conserved(l) && (forall q | q in l.ops :: q.id < r.id)
    ensures Conserved(Post(l, r))
  {
    hide Conserved;
    var i := FirstMessage(l.stash, r);
    if i < |l.stash| {
      TakeConserves(l, r, i);
    } else {
      QueueConserves(l, r);
    }
  }

  lemma QueueConserves(l: Lane, r: Recv)
    requires Conserved(l) && (forall q | q in l.ops :: q.id < r.id)
    ensures Conserved(l.(posted := l.posted + [r], ops := l.ops + [r]))
  {
    Append(l.posted, r);
    Append(l.ops, r);
  }

  lemma TakeConserves(l: Lane, r: Recv, i: nat)
    requires Conserved(l) && i < |l.stash|
    ensures Conserved(l.(posted := l.posted + [r], stash := RemoveAt(l.stash, i),
                         pairs := l.pairs + [Pair(r, l.stash[i])]))
  {
    hide RemoveAt;
    RemoveAtKeepsTheRest(l.stash, i);
    PairsAppend(l.pairs, Pair(r, l.stash[i]));
    Append(Recvs(l.pairs), r);
    Append(Msgs(l.pairs), l.stash[i]);
    Append(l.posted, r);
    OrderedWithout([], l.stash, i);
  }

  lemma ArriveConserves(l: Lane, m: Arrival)
    requires Conserved(l) && (forall n | n in l.stash :: n.id < m.id)
    ensures Conserved(Arrive(l, m))
  {
    hide Conserved;
    var i := FirstRecv(l.ops, m);
    if i < |l.ops| {
      MatchConserves(l, m, i);
    } else {
      StashConserves(l, m);
    }
  }

  lemma StashConserves(l: Lane, m: Arrival)
    requires Conserved(l) && (forall n | n in l.stash :: n.id < m.id)
    ensures Conserved(l.(arrived := l.arrived + [m], stash := l.stash + [m]))
  {
    Append(l.arrived, m);
    Append(l.stash, m);
  }

  lemma MatchConserves(l: Lane, m: Arrival, i: nat)
    requires Conserved(l) && i < |l.ops|
    ensures Conserved(l.(arrived := l.arrived + [m], ops := RemoveAt(l.ops, i),
                         pairs := l.pairs + [Pair(l.ops[i], m)]))
  {
    hide RemoveAt;
    RemoveAtKeepsTheRest(l.ops, i);
    PairsAppend(l.pairs, Pair(l.ops[i], m));
    Append(Recvs(l.pairs), l.ops[i]);
    Append(Msgs(l.pairs), m);
    Append(l.arrived, m);
    OrderedWithout(l.ops, [], i);
  }

  lemma CancelConserves(l: Lane, op: nat, now: nat)
    requires Conserved(l)
    ensures Conserved(Cancel(l, op, now))
  {
    var i := FirstOf(l.ops, op);
    if i < |l.ops| {
      RemoveAtKeepsTheRest(l.ops, i);
      GoneAppend(l.withdrawn, Withdrawal(l.ops[i], now));
      Append(Gone(l.withdrawn), l.ops[i]);
      OrderedWithout(l.ops, [], i);
    }
  }

  // ---- Non-overtaking -------------------------------------------------------

  /** The lane grew by events at or after `now`. */
  ghost predicate GrowsAt(l: Lane, l': Lane, now: nat) {
    && l.pairs <= l'.pairs && l.withdrawn <= l'.withdrawn
    && (forall r | r in l'.posted :: r in l.posted || r.id >= now)
    && (forall m | m in l'.arrived :: m in l.arrived || m.id >= now)
  }

  lemma TakenStays(ps: seq<Pair>, ps': seq<Pair>, ws: seq<Withdrawal>, ws': seq<Withdrawal>, j: nat)
    requires ps <= ps' && ws <= ws'
    ensures forall m | MsgTakenBefore(ps, j, m) :: MsgTakenBefore(ps', j, m)
    ensures forall r | RecvTakenBefore(ps, j, r) :: RecvTakenBefore(ps', j, r)
    ensures forall r, t | WithdrawnBefore(ws, r, t) :: WithdrawnBefore(ws', r, t)
  {
    assert forall i | 0 <= i < |ps| :: ps'[i] == ps[i];
    assert forall w | w in ws :: w in ws';
  }

  lemma OldPairStaysFair(l: Lane, l': Lane, now: nat, j: nat)
    requires j < |l.pairs| && GrowsAt(l, l', now) && Time(l.pairs[j]) < now
    requires FairAt(l.posted, l.arrived, l.withdrawn, l.pairs, j)
    ensures FairAt(l'.posted, l'.arrived, l'.withdrawn, l'.pairs, j)
  {
    TakenStays(l.pairs, l'.pairs, l.withdrawn, l'.withdrawn, j);
    assert l'.pairs[j] == l.pairs[j];
  }

  /** Growing the history with later events leaves old pairings fair. */
  lemma OldPairsStayFair(l: Lane, l': Lane, now: nat)
    requires Fair(l) && PairsSound(l, now) && GrowsAt(l, l', now)
    ensures forall j | 0 <= j < |l.pairs| :: FairAt(l'.posted, l'.arrived, l'.withdrawn, l'.pairs, j)
  {
    forall j | 0 <= j < |l.pairs|
      ensures FairAt(l'.posted, l'.arrived, l'.withdrawn, l'.pairs, j)
    {
      hide FairAt, GrowsAt;
      assert l.pairs[j] in l.pairs;
      OldPairStaysFair(l, l', now, j);
    }
  }

  lemma PostIsFair(l: Lane, r: Recv, now: nat)
    requires Inv(l, now) && r.id == now
    ensures Fair(Post(l, r))
  {
    var l' := Post(l, r);
    OldPairsStayFair(l, l', now);
    var i := FirstMessage(l.stash, r);
    if i < |l.stash| {
      var j := |l.pairs|;
      forall m | m in l.arrived && m.id < l.stash[i].id && Matches(r, m)
        ensures MsgTakenBefore(l'.pairs, j, m)
      {
        if m in l.stash { OlderIsNearer(l.stash, i, m); }
        PastMsg(l, m);
      }
      forall q | q in l.posted && Matches(q, l.stash[i])
        ensures RecvTakenBefore(l'.pairs, j, q) || WithdrawnBefore(l'.withdrawn, q, now)
      {
        PastRecv(l, q, now);
      }
    }
  }

  lemma ArriveIsFair(l: Lane, m: Arrival, now: nat)
    requires Inv(l, now) && m.id == now
    ensures Fair(Arrive(l, m))
  {
    var l' := Arrive(l, m);
    OldPairsStayFair(l, l', now);
    var i := FirstRecv(l.ops, m);
    if i < |l.ops| {
      var j := |l.pairs|;
      forall n | n in l.arrived && Matches(l.ops[i], n)
        ensures MsgTakenBefore(l'.pairs, j, n)
      {
        PastMsg(l, n);
      }
      forall q | q in l.posted && q.id < l.ops[i].id && Matches(q, m)
        ensures RecvTakenBefore(l'.pairs, j, q) || WithdrawnBefore(l'.withdrawn, q, now)
      {
        if q in l.ops { OlderRecvIsNearer(l.ops, i, q); }
        PastRecv(l, q, now);
      }
    }
  }

  lemma OlderIsNearer(ms: seq<Arrival>, i: nat, m: Arrival)
    requires MsgsOrdered(ms) && i < |ms| && m in ms && m.id < ms[i].id
    ensures exists k | 0 <= k < i :: ms[k] == m
  {
    var k :| 0 <= k < |ms| && ms[k] == m;
    assert k < i;
  }

  lemma OlderRecvIsNearer(rs: seq<Recv>, i: nat, r: Recv)
    requires RecvsOrdered(rs) && i < |rs| && r in rs && r.id < rs[i].id
    ensures exists k | 0 <= k < i :: rs[k] == r
  {
    var k :| 0 <= k < |rs| && rs[k] == r;
    assert k < i;
  }

  /** An arrival that left the stash is in some pairing. */
  lemma PastMsg(l: Lane, m: Arrival)
    requires Conserved(l) && m in l.arrived && m !in l.stash
    ensures forall ps: seq<Pair> | l.pairs <= ps :: MsgTakenBefore(ps, |l.pairs|, m)
  {
    Places(l);
    var k :| 0 <= k < |l.pairs| && Msgs(l.pairs)[k] == m;
    forall ps: seq<Pair> | l.pairs <= ps ensures MsgTakenBefore(ps, |l.pairs|, m) {
      assert ps[k].msg == m;
    }
  }

  /** A posting that left the queue is in some pairing or was withdrawn. */
  lemma PastRecv(l: Lane, q: Recv, now: nat)
    requires Conserved(l) && q in l.posted && q !in l.ops
    requires forall w | w in l.withdrawn :: w.at < now
    ensures WithdrawnBefore(l.withdrawn, q, now)
         || forall ps: seq<Pair> | l.pairs <= ps :: RecvTakenBefore(ps, |l.pairs|, q)
  {
    Places(l);
    if q in Recvs(l.pairs) {
      var k :| 0 <= k < |l.pairs| && Recvs(l.pairs)[k] == q;
      forall ps: seq<Pair> | l.pairs <= ps ensures RecvTakenBefore(ps, |l.pairs|, q) {
        assert ps[k].recv == q;
      }
    } else {
      var k :| 0 <= k < |l.withdrawn| && Gone(l.withdrawn)[k] == q;
      assert l.withdrawn[k] in l.withdrawn;
    }
  }

  // ---- The whole invariant -----------------------------------------------

  /** What is queued or stashed was posted or arrived. */
  lemma Within(l: Lane)
    requires Conserved(l)
    ensures forall r | r in l.ops :: r in l.posted
    ensures forall m | m in l.stash :: m in l.arrived
  {
    Places(l);
  }

  lemma PostTimed(l: Lane, r: Recv, now: nat)
    requires WellTimed(l, now) && r.id == now
    ensures WellTimed(Post(l, r), now + 1)
  {
    Append(l.posted, r);
  }

  lemma ArriveTimed(l: Lane, m: Arrival, now: nat)
    requires WellTimed(l, now) && m.id == now
    ensures WellTimed(Arrive(l, m), now + 1)
  {
    Append(l.arrived, m);
  }

  lemma NewPairSound(l: Lane, p: Pair, l': Lane, now: nat)
    requires PairsSound(l, now) && l'.pairs == l.pairs + [p]
    requires Matches(p.recv, p.msg) && Time(p) == now
    ensures PairsSound(l', now + 1)
  {
    Append(l.pairs, p);
  }

  lemma PostSettles(l: Lane, r: Recv)
    requires Settled(l) && CancelsEager(l)
    ensures Settled(Post(l, r)) && CancelsEager(Post(l, r))
  {
    var i := FirstMessage(l.stash, r);
    if i < |l.stash| {
      RemoveAtKeepsTheRest(l.stash, i);
    } else {
      Append(l.ops, r);
    }
  }

  lemma ArriveSettles(l: Lane, m: Arrival)
    requires Settled(l) && CancelsEager(l) && (forall w | w in l.withdrawn :: w.at < m.id)
    ensures Settled(Arrive(l, m)) && CancelsEager(Arrive(l, m))
  {
    var i := FirstRecv(l.ops, m);
    if i < |l.ops| {
      RemoveAtKeepsTheRest(l.ops, i);
    } else {
      Append(l.stash, m);
    }
  }

  /** Whatever waits on the lane waits since before `now`. */
  lemma WaitingSince(l: Lane, now: nat)
    requires WellTimed(l, now) && Conserved(l)
    ensures forall r | r in l.ops :: r.id < now
    ensures forall m | m in l.stash :: m.id < now
    ensures forall w | w in l.withdrawn :: w.at < now
  {
    Within(l);
  }

  lemma PostKeeps(l: Lane, r: Recv, now: nat)
    requires Inv(l, now) && r.id == now
    ensures Inv(Post(l, r), now + 1)
  {
    hide WellTimed, Conserved, Settled, PairsSound, Fair, CancelsEager;
    WaitingSince(l, now);
    PostConserves(l, r);
    PostTimed(l, r, now);
    PostSettles(l, r);
    PostIsFair(l, r, now);
    PostSound(l, r, now);
  }

  lemma PostSound(l: Lane, r: Recv, now: nat)
    requires PairsSound(l, now) && r.id == now && (forall m | m in l.stash :: m.id < now)
    ensures PairsSound(Post(l, r), now + 1)
  {
    var i := FirstMessage(l.stash, r);
    if i < |l.stash| {
      NewPairSound(l, Pair(r, l.stash[i]), Post(l, r), now);
    }
  }

  lemma ArriveKeeps(l: Lane, m: Arrival, now: nat)
    requires Inv(l, now) && m.id == now
    ensures Inv(Arrive(l, m), now + 1)
  {
    hide WellTimed, Conserved, Settled, PairsSound, Fair, CancelsEager;
    WaitingSince(l, now);
    ArriveConserves(l, m);
    ArriveTimed(l, m, now);
    ArriveSettles(l, m);
    ArriveIsFair(l, m, now);
    ArriveSound(l, m, now);
  }

  lemma ArriveSound(l: Lane, m: Arrival, now: nat)
    requires PairsSound(l, now) && m.id == now && (forall r | r in l.ops :: r.id < now)
    ensures PairsSound(Arrive(l, m), now + 1)
  {
    var i := FirstRecv(l.ops, m);
    if i < |l.ops| {
      NewPairSound(l, Pair(l.ops[i], m), Arrive(l, m), now);
    }
  }

  lemma CancelKeeps(l: Lane, op: nat, now: nat)
    requires Inv(l, now)
    ensures Inv(Cancel(l, op, now), now + 1)
  {
    hide WellTimed, Conserved, Settled, PairsSound, Fair, CancelsEager;
    CancelConserves(l, op, now);
    CancelIsFair(l, op, now);
    CancelSettles(l, op, now);
    CancelTimed(l, op, now);
  }

  lemma CancelIsFair(l: Lane, op: nat, now: nat)
    requires Fair(l) && PairsSound(l, now)
    ensures Fair(Cancel(l, op, now)) && PairsSound(Cancel(l, op, now), now + 1)
  {
    hide FairAt;
    var l' := Cancel(l, op, now);
    OldPairsStayFair(l, l', now);
  }

  lemma CancelTimed(l: Lane, op: nat, now: nat)
    requires WellTimed(l, now)
    ensures WellTimed(Cancel(l, op, now), now + 1)
  {
    var i := FirstOf(l.ops, op);
    if i < |l.ops| {
      Append(l.withdrawn, Withdrawal(l.ops[i], now));
    }
  }

  lemma CancelSettles(l: Lane, op: nat, now: nat)
    requires Settled(l) && CancelsEager(l)
    ensures Settled(Cancel(l, op, now)) && CancelsEager(Cancel(l, op, now))
  {
    var i := FirstOf(l.ops, op);
    if i < |l.ops| {
      RemoveAtKeepsTheRest(l.ops, i);
      Append(l.withdrawn, Withdrawal(l.ops[i], now));
    }
  }
}
