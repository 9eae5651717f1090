/** What a run of the engine matches and what its cancellations take back,
    without reference to queues, and the proof that the engine computes just
    that.  Cancel calls are judged from the run's events, like posts and
    arrivals. */
module RunSpec {
  import opened Prelude
  import opened Lane
  import opened LaneSpec
  import opened Engine
  import opened Runs

  /** The pairings and withdrawals of one lane, in order of time. */
  datatype Side = Side(pairs: seq<Pair>, withdrawn: seq<Withdrawal>)

  datatype Matching = Matching(unexpected: Side, expected: Side)

  function SideOf(m: Matching, x: bool): Side { if x then m.expected else m.unexpected }

  function SideIn(l: Lane): Side { Side(l.pairs, l.withdrawn) }

  function MatchingOf(s: State): Matching { Matching(SideIn(s.unexpected), SideIn(s.expected)) }

  /** Neither paired nor withdrawn before instant `t`. */
  ghost predicate Free(d: Side, r: Recv, t: nat) {
    && (forall p | p in d.pairs && p.recv == r :: t <= Time(p))
    && (forall w | w in d.withdrawn && w.recv == r :: t <= w.at)
  }

  /** A posting on the operation still open at instant `t`. */
  ghost predicate Waits(es: seq<Event>, m: Matching, x: bool, r: Recv, op: nat, t: nat) {
    r in PostsOf(es, x) && r.op == op && r.id < t && Free(SideOf(m, x), r, t)
  }

  /** Step `t` cancels the posting: the oldest open one on its operation, of the
      unexpected lane if that has one. */
  ghost predicate Withdraws(es: seq<Event>, m: Matching, x: bool, r: Recv, t: nat) {
    && t < |es| && es[t] == CancelOp(r.op)
    && Waits(es, m, x, r, r.op, t)
    && (forall q | Waits(es, m, x, q, r.op, t) :: r.id <= q.id)
    && (x ==> forall q :: !Waits(es, m, false, q, r.op, t))
  }

  ghost predicate CancelsTakeEffect(es: seq<Event>, m: Matching) {
    forall x: bool, r, t: nat :: Withdrawal(r, t) in SideOf(m, x).withdrawn <==> Withdraws(es, m, x, r, t)
  }

  ghost predicate WithdrawnInOrder(ws: seq<Withdrawal>) {
    forall i, j | 0 <= i < j < |ws| :: ws[i].at < ws[j].at
  }

  ghost predicate PairedBy(ps: seq<Pair>, r: Recv, m: Arrival, t: nat) {
    exists p | p in ps :: Time(p) <= t && (p.recv == r || p.msg == m)
  }

  /** A receive and a message that match do not wait side by side: one of them is
      paired by the time both are there, or the receive was gone before. */
  ghost predicate Prompt(es: seq<Event>, d: Side, x: bool) {
    forall r, m | r in PostsOf(es, x) && m in ArrivalsOf(es, x) && Matches(r, m) ::
      PairedBy(d.pairs, r, m, Max(r.id, m.id)) || WithdrawnBefore(d.withdrawn, r, m.id)
  }

  ghost predicate LegalSide(es: seq<Event>, d: Side, x: bool) {
    && Legal(History(PostsOf(es, x), ArrivalsOf(es, x), d.withdrawn), d.pairs)
    && WithdrawnInOrder(d.withdrawn) && Prompt(es, d, x)
  }

  /** What the run's events alone demand of its pairings and withdrawals. */
  ghost predicate LegalRun(es: seq<Event>, m: Matching) {
    LegalSide(es, m.unexpected, false) && LegalSide(es, m.expected, true) && CancelsTakeEffect(es, m)
  }

  // ---------------------------------------------------------------------
  //  Everything before an instant
  // ---------------------------------------------------------------------

  /** `d'` is what `d` has before instant `k`. */
  ghost predicate Below(d': Side, d: Side, k: nat) {
    && d'.pairs <= d.pairs && d'.withdrawn <= d.withdrawn
    && (forall p | p in d'.pairs :: Time(p) < k) && (forall w | w in d'.withdrawn :: w.at < k)
    && (forall p | p in d.pairs :: p in d'.pairs || k <= Time(p))
    && (forall w | w in d.withdrawn :: w in d'.withdrawn || k <= w.at)
  }

  ghost predicate BothBelow(m': Matching, m: Matching, k: nat) {
    Below(m'.unexpected, m.unexpected, k) && Below(m'.expected, m.expected, k)
  }

  lemma FreeBelow(d': Side, d: Side, k: nat, r: Recv, t: nat)
    requires Below(d', d, k) && t <= k
    ensures Free(d', r, t) <==> Free(d, r, t)
  {
  }

  lemma PostsBelow(es: seq<Event>, x: bool, r: Recv)
    requires es != [] && r.id < |es| - 1
    ensures r in PostsOf(es, x) <==> r in PostsOf(es[..|es| - 1], x)
  {
  }

  lemma WaitsBelow(es: seq<Event>, m': Matching, m: Matching, x: bool, r: Recv, op: nat, t: nat)
    requires es != [] && BothBelow(m', m, |es| - 1) && t < |es|
    ensures Waits(es[..|es| - 1], m', x, r, op, t) <==> Waits(es, m, x, r, op, t)
  {
    hide Free, Below, PostsOf;
    FreeBelow(SideOf(m', x), SideOf(m, x), |es| - 1, r, t);
    if r.id < t { PostsBelow(es, x, r); }
  }

  /** Which posting a cancel takes depends only on what happened before it. */
  lemma WithdrawsBelow(es: seq<Event>, m': Matching, m: Matching, x: bool, r: Recv, t: nat)
    requires es != [] && BothBelow(m', m, |es| - 1) && t < |es| - 1
    ensures Withdraws(es[..|es| - 1], m', x, r, t) <==> Withdraws(es, m, x, r, t)
  {
    hide Waits, Below;
    var es' := es[..|es| - 1];
    assert es'[t] == es[t];
    forall y: bool, q ensures Waits(es', m', y, q, r.op, t) == Waits(es, m, y, q, r.op, t) {
      WaitsBelow(es, m', m, y, q, r.op, t);
    }
    assert Withdraws(es', m', x, r, t) ==> Withdraws(es, m, x, r, t);
  }

  lemma WithdrawsAlike(es: seq<Event>, m0: Matching, m: Matching, n: Matching, x: bool, r: Recv)
    requires es != [] && BothBelow(m0, m, |es| - 1) && BothBelow(m0, n, |es| - 1)
    ensures Withdraws(es, m, x, r, |es| - 1) <==> Withdraws(es, n, x, r, |es| - 1)
  {
    hide Waits, Below;
    var t := |es| - 1;
    forall y: bool, q ensures Waits(es, m, y, q, r.op, t) <==> Waits(es, n, y, q, r.op, t) {
      WaitsBelow(es, m0, m, y, q, r.op, t);
      WaitsBelow(es, m0, n, y, q, r.op, t);
    }
  }

  // ---------------------------------------------------------------------
  //  A legal matching cut before its last instant is legal
  // ---------------------------------------------------------------------

  function CutPairs(ps: seq<Pair>, k: nat): seq<Pair> {
    if ps != [] && k <= Time(ps[|ps| - 1]) then ps[..|ps| - 1] else ps
  }

  function CutWithdrawn(ws: seq<Withdrawal>, k: nat): seq<Withdrawal> {
    if ws != [] && k <= ws[|ws| - 1].at then ws[..|ws| - 1] else ws
  }

  function Cut(d: Side, k: nat): Side { Side(CutPairs(d.pairs, k), CutWithdrawn(d.withdrawn, k)) }

  lemma {:induction false} IdsWithin(es: seq<Event>, x: bool)
    ensures forall r | r in PostsOf(es, x) :: r.id < |es|
    ensures forall m | m in ArrivalsOf(es, x) :: m.id < |es|
    decreases |es|
  {
    if es != [] { IdsWithin(es[..|es| - 1], x); }
  }

  lemma CutIsBelow(d: Side, k: nat)
    requires Exclusive(d.pairs) && WithdrawnInOrder(d.withdrawn)
    requires forall p | p in d.pairs :: Time(p) <= k
    requires forall w | w in d.withdrawn :: w.at <= k
    ensures Below(Cut(d, k), d, k)
  {
    hide CutPairs, CutWithdrawn;
    CutPairsBelow(d.pairs, k);
    CutWithdrawnBelow(d.withdrawn, k);
  }

  lemma CutPairsBelow(ps: seq<Pair>, k: nat)
    requires Exclusive(ps) && forall p | p in ps :: Time(p) <= k
    ensures CutPairs(ps, k) <= ps && (forall p | p in CutPairs(ps, k) :: Time(p) < k)
    ensures forall p | p in ps :: p in CutPairs(ps, k) || k <= Time(p)
  {
    hide Time;
    if ps != [] {
      var n := |ps| - 1;
      assert ps == ps[..n] + [ps[n]];
      assert ps[n] in ps;
    }
  }

  lemma CutWithdrawnBelow(ws: seq<Withdrawal>, k: nat)
    requires WithdrawnInOrder(ws) && forall w | w in ws :: w.at <= k
    ensures CutWithdrawn(ws, k) <= ws && (forall w | w in CutWithdrawn(ws, k) :: w.at < k)
    ensures forall w | w in ws :: w in CutWithdrawn(ws, k) || k <= w.at
  {
    if ws != [] {
      var n := |ws| - 1;
      assert ws == ws[..n] + [ws[n]];
      assert ws[n] in ws;
    }
  }

  lemma TimesWithin(es: seq<Event>, d: Side, x: bool)
    requires es != [] && LegalSide(es, d, x)
    ensures forall p | p in d.pairs :: Time(p) <= |es| - 1
  {
    IdsWithin(es, x);
  }

  /** The history before the last step is part of the history. */
  lemma HistoryBelow(es: seq<Event>, x: bool)
    requires es != []
    ensures forall r | r in PostsOf(es[..|es| - 1], x) :: r in PostsOf(es, x) && r.id < |es| - 1
    ensures forall m | m in ArrivalsOf(es[..|es| - 1], x) :: m in ArrivalsOf(es, x) && m.id < |es| - 1
    ensures forall r | r in PostsOf(es, x) && r.id < |es| - 1 :: r in PostsOf(es[..|es| - 1], x)
    ensures forall m | m in ArrivalsOf(es, x) && m.id < |es| - 1 :: m in ArrivalsOf(es[..|es| - 1], x)
  {
    IdsWithin(es[..|es| - 1], x);
  }

  lemma OnHistoryBelow(es: seq<Event>, d': Side, d: Side, x: bool)
    requires es != [] && Below(d', d, |es| - 1)
    requires OnHistory(History(PostsOf(es, x), ArrivalsOf(es, x), d.withdrawn), d.pairs)
    ensures
      var es' := es[..|es| - 1];
      OnHistory(History(PostsOf(es', x), ArrivalsOf(es', x), d'.withdrawn), d'.pairs)
  {
    hide PostsOf, ArrivalsOf;
    HistoryBelow(es, x);
    assert forall p | p in d'.pairs :: p in d.pairs && p.recv.id < |es| - 1 && p.msg.id < |es| - 1;
  }

  lemma PromptBelow(es: seq<Event>, d': Side, d: Side, x: bool)
    requires es != [] && Below(d', d, |es| - 1) && Prompt(es, d, x)
    ensures Prompt(es[..|es| - 1], d', x)
  {
    hide PostsOf, ArrivalsOf, Matches;
    HistoryBelow(es, x);
    var es' := es[..|es| - 1];
    forall r, m | r in PostsOf(es', x) && m in ArrivalsOf(es', x) && Matches(r, m)
      ensures PairedBy(d'.pairs, r, m, Max(r.id, m.id)) || WithdrawnBefore(d'.withdrawn, r, m.id)
    {
      if PairedBy(d.pairs, r, m, Max(r.id, m.id)) {
        var p :| p in d.pairs && Time(p) <= Max(r.id, m.id) && (p.recv == r || p.msg == m);
        assert p in d'.pairs;
      } else {
        var w :| w in d.withdrawn && w.recv == r && w.at < m.id;
        assert w in d'.withdrawn;
      }
    }
  }

  lemma PromptIsEager(es: seq<Event>, d: Side, x: bool)
    requires Prompt(es, d, x)
    ensures Eager(History(PostsOf(es, x), ArrivalsOf(es, x), d.withdrawn), d.pairs)
  {
    hide PostsOf, ArrivalsOf, Matches;
    forall r, m | r in PostsOf(es, x) && m in ArrivalsOf(es, x) && Matches(r, m)
      ensures RecvTakenBefore(d.pairs, |d.pairs|, r) || MsgTakenBefore(d.pairs, |d.pairs|, m)
           || WithdrawnBefore(d.withdrawn, r, m.id)
    {
      if PairedBy(d.pairs, r, m, Max(r.id, m.id)) {
        var p :| p in d.pairs && Time(p) <= Max(r.id, m.id) && (p.recv == r || p.msg == m);
        var i :| 0 <= i < |d.pairs| && d.pairs[i] == p;
      }
    }
  }

  lemma FairBelow(es: seq<Event>, d': Side, d: Side, x: bool, j: nat)
    requires es != [] && Below(d', d, |es| - 1) && j < |d'.pairs|
    requires FairAt(PostsOf(es, x), ArrivalsOf(es, x), d.withdrawn, d.pairs, j)
    ensures
      var es' := es[..|es| - 1];
      FairAt(PostsOf(es', x), ArrivalsOf(es', x), d'.withdrawn, d'.pairs, j)
  {
    hide PostsOf, ArrivalsOf, Matches;
    HistoryBelow(es, x);
    var es' := es[..|es| - 1];
    var p := d'.pairs[j];
    assert p == d.pairs[j] && p in d'.pairs;
    assert forall i | 0 <= i < j :: d'.pairs[i] == d.pairs[i];
    forall r | r in PostsOf(es', x) && r.id < p.recv.id && Matches(r, p.msg)
      ensures RecvTakenBefore(d'.pairs, j, r) || WithdrawnBefore(d'.withdrawn, r, Time(p))
    {
      if RecvTakenBefore(d.pairs, j, r) {
        var i :| 0 <= i < j && d.pairs[i].recv == r;
        assert d'.pairs[i].recv == r;
      } else {
        var w :| w in d.withdrawn && w.recv == r && w.at < Time(p);
        assert w in d'.withdrawn;
      }
    }
    forall n | n in ArrivalsOf(es', x) && n.id < p.msg.id && Matches(p.recv, n)
      ensures MsgTakenBefore(d'.pairs, j, n)
    {
      var i :| 0 <= i < j && d.pairs[i].msg == n;
      assert d'.pairs[i].msg == n;
    }
  }

  lemma SideBelow(es: seq<Event>, d': Side, d: Side, x: bool)
    requires es != [] && Below(d', d, |es| - 1) && LegalSide(es, d, x)
    ensures LegalSide(es[..|es| - 1], d', x)
  {
    OnHistoryBelow(es, d', d, x);
    PromptBelow(es, d', d, x);
    PromptIsEager(es[..|es| - 1], d', x);
    var es' := es[..|es| - 1];
    forall j | 0 <= j < |d'.pairs|
      ensures FairAt(PostsOf(es', x), ArrivalsOf(es', x), d'.withdrawn, d'.pairs, j)
    {
      FairBelow(es, d', d, x, j);
    }
  }

  lemma LegalBelow(es: seq<Event>, m': Matching, m: Matching)
    requires es != [] && BothBelow(m', m, |es| - 1) && LegalRun(es, m)
    ensures LegalRun(es[..|es| - 1], m')
  {
    hide LegalSide, Withdraws;
    var k := |es| - 1;
    SideBelow(es, m'.unexpected, m.unexpected, false);
    SideBelow(es, m'.expected, m.expected, true);
    forall x: bool, r, t: nat
      ensures Withdrawal(r, t) in SideOf(m', x).withdrawn <==> Withdraws(es[..k], m', x, r, t)
    {
      assert Withdrawal(r, t) in SideOf(m, x).withdrawn <==> Withdraws(es, m, x, r, t);
      if t < k {
        WithdrawsBelow(es, m', m, x, r, t);
      } else {
        WithdrawsWithin(es[..k], m', x, r, t);
      }
    }
  }

  lemma WithdrawsWithin(es: seq<Event>, m: Matching, x: bool, r: Recv, t: nat)
    ensures Withdraws(es, m, x, r, t) ==> t < |es|
  {
  }

  // ---------------------------------------------------------------------
  //  The engine's matching is legal
  // ---------------------------------------------------------------------

  lemma StepBelow(es: seq<Event>)
    requires es != []
    ensures BothBelow(MatchingOf(Run(es[..|es| - 1])), MatchingOf(Run(es)), |es| - 1)
  {
    forall x: bool ensures Below(SideIn(LaneOf(Run(es[..|es| - 1]), x)), SideIn(LaneOf(Run(es), x)), |es| - 1) {
      LaneBelow(es, x);
    }
    assert LaneOf(Run(es), false) == Run(es).unexpected && LaneOf(Run(es), true) == Run(es).expected;
  }

  lemma LaneBelow(es: seq<Event>, x: bool)
    requires es != []
    ensures Below(SideIn(LaneOf(Run(es[..|es| - 1]), x)), SideIn(LaneOf(Run(es), x)), |es| - 1)
  {
    hide Step, Inv, LaneSteps, Below;
    var k := |es| - 1;
    RunKeepsLanes(es[..k], x);
    StepOnLane(Run(es[..k]), es[k], x);
    LaneStepBelow(LaneOf(Run(es[..k]), x), LaneOf(Run(es), x), es[k], x, k);
  }

  lemma LaneStepBelow(l: Lane, l': Lane, e: Event, x: bool, now: nat)
    requires Inv(l, now) && LaneSteps(l, l', e, x, now)
    ensures Below(SideIn(l), SideIn(l'), now)
  {
    hide Fair, Settled, CancelsEager;
    WaitingSince(l, now);
  }

  /** Open postings are the queued ones. */
  lemma WaitingIsQueued(es: seq<Event>, x: bool, r: Recv, op: nat)
    ensures Waits(es, MatchingOf(Run(es)), x, r, op, |es|) <==> r in LaneOf(Run(es), x).ops && r.op == op
  {
    hide Step, PostsOf, Fair, Settled, CancelsEager;
    var l := LaneOf(Run(es), x);
    assert SideOf(MatchingOf(Run(es)), x) == SideIn(l);
    RunKeepsLanes(es, x);
    RunTracksHistory(es, x);
    IdsWithin(es, x);
    QueuedIsFree(l, r, |es|);
  }

  lemma QueuedIsFree(l: Lane, r: Recv, now: nat)
    requires Inv(l, now)
    ensures r in l.ops <==> r in l.posted && Free(SideIn(l), r, now)
  {
    hide Conserved, PairsSound, Fair, Settled, CancelsEager;
    Within(l);
    if r in l.ops {
      QueuedIsNowhereElse(l, r);
    } else if r in l.posted {
      ElsewhereIsTaken(l, r, now);
    }
  }

  lemma QueuedIsNowhereElse(l: Lane, r: Recv)
    requires Conserved(l) && RecvsOrdered(l.posted) && r in l.ops
    ensures forall p | p in l.pairs :: p.recv != r
    ensures forall w | w in l.withdrawn :: w.recv != r
  {
    RecvOnce(l.posted, r);
    assert r in multiset(l.ops) && r !in multiset(Recvs(l.pairs)) && r !in multiset(Gone(l.withdrawn));
    forall p | p in l.pairs ensures p.recv != r { PairRecvListed(l.pairs, p); }
    forall w | w in l.withdrawn ensures w.recv != r {
      var i :| 0 <= i < |l.withdrawn| && l.withdrawn[i] == w;
      assert Gone(l.withdrawn)[i] == w.recv;
    }
  }

  lemma ElsewhereIsTaken(l: Lane, r: Recv, now: nat)
    requires Conserved(l) && PairsSound(l, now) && r in l.posted && r !in l.ops
    requires forall w | w in l.withdrawn :: w.at < now
    ensures !Free(SideIn(l), r, now)
  {
    PastRecv(l, r, now);
    if !WithdrawnBefore(l.withdrawn, r, now) {
      assert RecvTakenBefore(l.pairs, |l.pairs|, r);
      var i :| 0 <= i < |l.pairs| && l.pairs[i].recv == r;
      assert l.pairs[i] in l.pairs;
    }
  }

  /** The first queued receive on an operation is its oldest open posting. */
  lemma FirstIsOldest(ops: seq<Recv>, op: nat, r: Recv)
    requires RecvsOrdered(ops)
    ensures
      var i := FirstOf(ops, op);
      (r in ops && r.op == op && forall q | q in ops && q.op == op :: r.id <= q.id)
      <==> i < |ops| && r == ops[i]
  {
    var i := FirstOf(ops, op);
    if r in ops && r.op == op {
      var k :| 0 <= k < |ops| && ops[k] == r;
      assert ops[i] in ops;
    }
  }

  /** What one cancel call withdraws, in the engine's state. */
  lemma CancelWithdraws(s: State, op: nat, x: bool, r: Recv)
    requires forall w | w in LaneOf(s, x).withdrawn :: w.at < s.clock
    ensures
      var l := LaneOf(s, x);
      Withdrawal(r, s.clock) in LaneOf(Step(s, CancelOp(op)), x).withdrawn
      <==> FirstOf(l.ops, op) < |l.ops| && r == l.ops[FirstOf(l.ops, op)]
           && (x ==> FirstOf(s.unexpected.ops, op) == |s.unexpected.ops|)
  {
  }

  lemma QueueOrdered(es: seq<Event>, x: bool)
    ensures RecvsOrdered(LaneOf(Run(es), x).ops)
    ensures forall w | w in LaneOf(Run(es), x).withdrawn :: w.at < |es|
  {
    RunKeepsLanes(es, x);
  }

  /** A posting that a step withdraws in the engine is the one the events name. */
  lemma CancelHere(es: seq<Event>, x: bool, r: Recv)
    requires es != [] && es[|es| - 1].CancelOp?
    ensures
      var k := |es| - 1;
      Withdrawal(r, k) in LaneOf(Run(es), x).withdrawn <==> Withdraws(es, MatchingOf(Run(es)), x, r, k)
  {
    hide Step, Withdraws, QueueYields;
    var k := |es| - 1;
    var s := Run(es[..k]);
    RunClock(es[..k]);
    QueueOrdered(es[..k], x);
    CancelWithdraws(s, es[k].op, x, r);
    FirstIsYielded(s, es[k].op, x, r);
    WithdrawsQueued(es, x, r);
  }

  /** The receive is the oldest queued one on the operation, unexpected first. */
  ghost predicate QueueYields(s: State, op: nat, x: bool, r: Recv) {
    && r in LaneOf(s, x).ops && r.op == op
    && (forall q | q in LaneOf(s, x).ops && q.op == op :: r.id <= q.id)
    && (x ==> forall q | q in s.unexpected.ops :: q.op != op)
  }

  lemma FirstIsYielded(s: State, op: nat, x: bool, r: Recv)
    requires RecvsOrdered(LaneOf(s, x).ops)
    ensures
      var l := LaneOf(s, x);
      QueueYields(s, op, x, r)
      <==> FirstOf(l.ops, op) < |l.ops| && r == l.ops[FirstOf(l.ops, op)]
           && (x ==> FirstOf(s.unexpected.ops, op) == |s.unexpected.ops|)
  {
    FirstIsOldest(LaneOf(s, x).ops, op, r);
    NoneWaits(s.unexpected.ops, op);
  }

  lemma WithdrawsQueued(es: seq<Event>, x: bool, r: Recv)
    requires es != [] && es[|es| - 1].CancelOp?
    ensures
      var k := |es| - 1;
      Withdraws(es, MatchingOf(Run(es)), x, r, k) <==> QueueYields(Run(es[..k]), es[k].op, x, r)
  {
    hide Run, Waits, Below;
    var k := |es| - 1;
    var op, m := es[k].op, MatchingOf(Run(es));
    StepBelow(es);
    forall y: bool, q ensures Waits(es, m, y, q, op, k) <==> q in LaneOf(Run(es[..k]), y).ops && q.op == op {
      WaitsBelow(es, MatchingOf(Run(es[..k])), m, y, q, op, k);
      WaitingIsQueued(es[..k], y, q, op);
    }
    assert LaneOf(Run(es[..k]), false) == Run(es[..k]).unexpected;
  }

  lemma NoneWaits(ops: seq<Recv>, op: nat)
    ensures FirstOf(ops, op) == |ops| <==> forall q | q in ops :: q.op != op
  {
    var i := FirstOf(ops, op);
    assert i < |ops| ==> ops[i] in ops;
  }

  lemma NothingHere(es: seq<Event>, x: bool, r: Recv)
    requires es != [] && !es[|es| - 1].CancelOp?
    ensures Withdrawal(r, |es| - 1) !in LaneOf(Run(es), x).withdrawn
  {
    hide Step;
    var k := |es| - 1;
    RunTracksHistory(es, x);
  }

  lemma RunIsPrompt(es: seq<Event>, x: bool)
    requires es != [] ==> Prompt(es[..|es| - 1], SideIn(LaneOf(Run(es[..|es| - 1]), x)), x)
    ensures Prompt(es, SideIn(LaneOf(Run(es), x)), x)
  {
    hide Step, Matches, Fair, Settled, CancelsEager, Conserved;
    var l := LaneOf(Run(es), x);
    RunKeepsLanes(es, x);
    RunTracksHistory(es, x);
    LaneIsEager(l, |es|);
    forall r, m | r in PostsOf(es, x) && m in ArrivalsOf(es, x) && Matches(r, m)
      ensures PairedBy(l.pairs, r, m, Max(r.id, m.id)) || WithdrawnBefore(l.withdrawn, r, m.id)
    {
      PromptCouple(es, x, r, m);
    }
  }

  lemma PromptCouple(es: seq<Event>, x: bool, r: Recv, m: Arrival)
    requires es != [] ==> Prompt(es[..|es| - 1], SideIn(LaneOf(Run(es[..|es| - 1]), x)), x)
    requires r in PostsOf(es, x) && m in ArrivalsOf(es, x) && Matches(r, m)
    requires Eager(HistoryOf(LaneOf(Run(es), x)), LaneOf(Run(es), x).pairs)
    requires PairsSound(LaneOf(Run(es), x), |es|)
    requires LaneOf(Run(es), x).posted == PostsOf(es, x) && LaneOf(Run(es), x).arrived == ArrivalsOf(es, x)
    ensures
      var l := LaneOf(Run(es), x);
      PairedBy(l.pairs, r, m, Max(r.id, m.id)) || WithdrawnBefore(l.withdrawn, r, m.id)
  {
    hide Run, Matches, PostsOf, ArrivalsOf;
    var l, k := LaneOf(Run(es), x), |es| - 1;
    assert es != [] by { EmptyPosts(es, x); }
    IdsWithin(es, x);
    if r.id < k && m.id < k {
      HistoryBelow(es, x);
      LaneBelow(es, x);
      var l0 := LaneOf(Run(es[..k]), x);
      if PairedBy(l0.pairs, r, m, Max(r.id, m.id)) {
        var p :| p in l0.pairs && Time(p) <= Max(r.id, m.id) && (p.recv == r || p.msg == m);
        assert p in l.pairs;
      }
    } else {
      assert r in l.posted && m in l.arrived;
      if RecvTakenBefore(l.pairs, |l.pairs|, r) {
        var i :| 0 <= i < |l.pairs| && l.pairs[i].recv == r;
        assert l.pairs[i] in l.pairs;
      } else if MsgTakenBefore(l.pairs, |l.pairs|, m) {
        var i :| 0 <= i < |l.pairs| && l.pairs[i].msg == m;
        assert l.pairs[i] in l.pairs;
      }
    }
  }

  lemma EmptyPosts(es: seq<Event>, x: bool)
    ensures es == [] ==> PostsOf(es, x) == []
  {
  }

  lemma RunWithdrawsInOrder(es: seq<Event>, x: bool)
    requires es != [] ==> WithdrawnInOrder(LaneOf(Run(es[..|es| - 1]), x).withdrawn)
    ensures WithdrawnInOrder(LaneOf(Run(es), x).withdrawn)
  {
    if es != [] {
      hide Step, LaneSteps;
      var k := |es| - 1;
      QueueOrdered(es[..k], x);
      RunClock(es[..k]);
      StepOnLane(Run(es[..k]), es[k], x);
      LaneWithdrawsInOrder(LaneOf(Run(es[..k]), x), LaneOf(Run(es), x), es[k], x, k);
    }
  }

  lemma LaneWithdrawsInOrder(l: Lane, l': Lane, e: Event, x: bool, now: nat)
    requires WithdrawnInOrder(l.withdrawn) && LaneSteps(l, l', e, x, now)
    requires forall w | w in l.withdrawn :: w.at < now
    ensures WithdrawnInOrder(l'.withdrawn)
  {
  }

  lemma RunSideLegal(es: seq<Event>, x: bool)
    requires es != [] ==> LegalSide(es[..|es| - 1], SideIn(LaneOf(Run(es[..|es| - 1]), x)), x)
    ensures LegalSide(es, SideIn(LaneOf(Run(es), x)), x)
  {
    hide Run, Prompt, Legal;
    var l := LaneOf(Run(es), x);
    RunPairsTheOnlyWay(es, x, l.pairs);
    RunWithdrawsInOrder(es, x);
    RunIsPrompt(es, x);
  }

  /** A run's pairings and withdrawals are what its events demand. */
  lemma {:induction false} RunIsLegal(es: seq<Event>)
    ensures LegalRun(es, MatchingOf(Run(es)))
    decreases |es|
  {
    hide Run, LegalSide, Withdraws, Below;
    var k := |es| - 1;
    var m := MatchingOf(Run(es));
    assert forall x: bool :: SideOf(m, x) == SideIn(LaneOf(Run(es), x));
    if es == [] {
      EmptyIsLegal();
    } else {
      RunIsLegal(es[..k]);
      var m0 := MatchingOf(Run(es[..k]));
      assert forall x: bool :: SideOf(m0, x) == SideIn(LaneOf(Run(es[..k]), x));
      RunSideLegal(es, false);
      RunSideLegal(es, true);
      StepBelow(es);
      forall x: bool, r, t: nat
        ensures Withdrawal(r, t) in SideOf(m, x).withdrawn <==> Withdraws(es, m, x, r, t)
      {
        CancelEffectAt(es, m0, m, x, r, t);
      }
    }
  }

  lemma EmptyIsLegal()
    ensures LegalRun([], MatchingOf(Run([])))
  {
  }

  lemma CancelEffectAt(es: seq<Event>, m0: Matching, m: Matching, x: bool, r: Recv, t: nat)
    requires es != [] && m0 == MatchingOf(Run(es[..|es| - 1])) && m == MatchingOf(Run(es))
    requires BothBelow(m0, m, |es| - 1) && CancelsTakeEffect(es[..|es| - 1], m0)
    ensures Withdrawal(r, t) in SideOf(m, x).withdrawn <==> Withdraws(es, m, x, r, t)
  {
    hide Run, Waits;
    var k := |es| - 1;
    assert SideOf(m, x) == SideIn(LaneOf(Run(es), x));
    if t < k {
      WithdrawsBelow(es, m0, m, x, r, t);
      assert Withdrawal(r, t) in SideOf(m0, x).withdrawn <==> Withdraws(es[..k], m0, x, r, t);
    } else if t == k {
      if es[k].CancelOp? { CancelHere(es, x, r); } else { NothingHere(es, x, r); }
    } else {
      QueueOrdered(es, x);
    }
  }

  // ---------------------------------------------------------------------
  //  There is only one
  // ---------------------------------------------------------------------

  lemma {:induction false} SameWithdrawals(ws: seq<Withdrawal>, vs: seq<Withdrawal>)
    requires WithdrawnInOrder(ws) && WithdrawnInOrder(vs)
    requires forall w :: w in ws <==> w in vs
    ensures ws == vs
    decreases |ws|
  {
    if ws == [] {
      Inhabited(vs);
    } else {
      var n := |ws| - 1;
      assert ws[n] in vs;
      var k := |vs| - 1;
      assert vs[k] in ws;
      assert ws[n] == vs[k];
      forall w ensures w in ws[..n] <==> w in vs[..k] {
        InFront(ws, w);
        InFront(vs, w);
      }
      SameWithdrawals(ws[..n], vs[..k]);
      assert ws == ws[..n] + [ws[n]] && vs == vs[..k] + [vs[k]];
    }
  }

  lemma InFront(ws: seq<Withdrawal>, w: Withdrawal)
    requires ws != [] && WithdrawnInOrder(ws)
    ensures w in ws[..|ws| - 1] <==> w in ws && w != ws[|ws| - 1]
  {
    assert ws == ws[..|ws| - 1] + [ws[|ws| - 1]];
  }

  lemma WithdrawnWithin(es: seq<Event>, m: Matching, x: bool)
    requires CancelsTakeEffect(es, m)
    ensures forall w | w in SideOf(m, x).withdrawn :: w.at < |es|
  {
    hide Waits;
    forall w | w in SideOf(m, x).withdrawn ensures w.at < |es| {
      assert w == Withdrawal(w.recv, w.at);
      assert Withdraws(es, m, x, w.recv, w.at);
    }
  }

  function CutMatching(m: Matching, k: nat): Matching { Matching(Cut(m.unexpected, k), Cut(m.expected, k)) }

  lemma CutBelow(es: seq<Event>, m: Matching)
    requires es != [] && LegalRun(es, m)
    ensures BothBelow(CutMatching(m, |es| - 1), m, |es| - 1)
  {
    hide Withdraws, Prompt, Below, Cut, OnHistory, Eager, NoOvertaking;
    forall x: bool ensures Below(Cut(SideOf(m, x), |es| - 1), SideOf(m, x), |es| - 1) {
      WithdrawnWithin(es, m, x);
      CutSideBelow(es, SideOf(m, x), x);
    }
    assert SideOf(m, false) == m.unexpected && SideOf(m, true) == m.expected;
  }

  lemma CutSideBelow(es: seq<Event>, d: Side, x: bool)
    requires es != [] && LegalSide(es, d, x) && forall w | w in d.withdrawn :: w.at < |es|
    ensures Below(Cut(d, |es| - 1), d, |es| - 1)
  {
    hide Below, Cut, Prompt;
    TimesWithin(es, d, x);
    CutIsBelow(d, |es| - 1);
  }

  /** Two legal matchings that agree before the last step withdraw alike in it. */
  lemma SameAtLast(es: seq<Event>, m0: Matching, m: Matching, n: Matching, x: bool)
    requires es != [] && BothBelow(m0, m, |es| - 1) && BothBelow(m0, n, |es| - 1)
    requires LegalRun(es, m) && LegalRun(es, n)
    ensures SideOf(m, x).withdrawn == SideOf(n, x).withdrawn
  {
    hide Withdraws, Legal, Prompt;
    var k := |es| - 1;
    var ws, vs := SideOf(m, x).withdrawn, SideOf(n, x).withdrawn;
    WithdrawnWithin(es, m, x);
    WithdrawnWithin(es, n, x);
    forall w ensures w in ws <==> w in vs {
      if w.at == k {
        assert w == Withdrawal(w.recv, k);
        WithdrawsAlike(es, m0, m, n, x, w.recv);
      }
    }
    SameWithdrawals(ws, vs);
  }

  /** The pairings and withdrawals of a run, on both lanes, are the only ones that
      its posts, arrivals and cancel calls allow: pairings are legal, no couple
      that matches waits, and a cancel takes exactly the oldest open posting of
      its operation, unexpected before expected. */
  lemma {:induction false} RunIsTheOnlyMatching(es: seq<Event>, m: Matching)
    ensures LegalRun(es, m) <==> m == MatchingOf(Run(es))
    decreases |es|
  {
    hide LegalRun, Run, Below;
    RunIsLegal(es);
    if LegalRun(es, m) {
      if es == [] {
        OnlyEmpty(m);
      } else {
        var k := |es| - 1;
        var m0, n := CutMatching(m, k), MatchingOf(Run(es));
        CutBelow(es, m);
        LegalBelow(es, m0, m);
        RunIsTheOnlyMatching(es[..k], m0);
        StepBelow(es);
        forall x: bool ensures SideOf(m, x) == SideOf(n, x) {
          SameAtLast(es, m0, m, n, x);
          SamePairs(es, m, x);
        }
        assert SideOf(m, false) == SideOf(n, false) && SideOf(m, true) == SideOf(n, true);
      }
    }
  }

  lemma SamePairs(es: seq<Event>, m: Matching, x: bool)
    requires LegalRun(es, m) && SideOf(m, x).withdrawn == SideOf(MatchingOf(Run(es)), x).withdrawn
    ensures SideOf(m, x) == SideOf(MatchingOf(Run(es)), x)
  {
    hide Run, Legal, Prompt, CancelsTakeEffect;
    RunPairsTheOnlyWay(es, x, SideOf(m, x).pairs);
    assert SideOf(MatchingOf(Run(es)), x) == SideIn(LaneOf(Run(es), x));
  }

  lemma Inhabited<T>(s: seq<T>)
    ensures s == [] || s[0] in s
  {
  }

  lemma OnlyEmpty(m: Matching)
    requires LegalRun([], m)
    ensures m == MatchingOf(Run([]))
  {
    forall x: bool ensures SideOf(m, x) == Side([], []) {
      WithdrawnWithin([], m, x);
      Inhabited(SideOf(m, x).withdrawn);
      Inhabited(SideOf(m, x).pairs);
    }
    assert SideOf(m, false) == Side([], []) && SideOf(m, true) == Side([], []);
  }

  /** In every run a posting is withdrawn at a step exactly when the step cancels
      its operation and it is the oldest posting on it neither paired nor
      withdrawn before, the unexpected lane going first. */
  lemma CancelTakesTheOldest(es: seq<Event>, x: bool, r: Recv, t: nat)
    ensures Withdrawal(r, t) in LaneOf(Run(es), x).withdrawn <==> Withdraws(es, MatchingOf(Run(es)), x, r, t)
  {
    hide Run, LegalSide, Withdraws;
    RunIsLegal(es);
    assert SideOf(MatchingOf(Run(es)), x) == SideIn(LaneOf(Run(es), x));
  }
}
