/** The command and event loop: relay lookups waiting for a direct connection,
    and the pool of per-peer writer channels.  One step is one turn of the loop
    or one step of a writer task; the step number identifies the lookup, the
    message or the writer the step creates. */
module SwarmLoop {
  import opened Prelude

  datatype Answer = Direct | RelayOnly | Failed

  datatype Reply = Reply(lookup: nat, answer: Answer)

  datatype Pending = Pending(lookup: nat, relayed: bool, deadline: nat)

  /** Lookups waiting per peer, and what became of the others. */
  datatype Lookups = Lookups(
    pending: map<PeerId, Pending>,
    answers: multiset<Reply>,
    superseded: multiset<nat>,
    dropped: multiset<nat>)

  /** A message on its way to a writer task; a get request is reported only when
      sending it fails. */
  datatype Job = Job(id: nat, writer: nat, get: bool)

  datatype Report = Report(id: nat, ok: bool)

  /** The senders of the pool and the writer tasks behind them. */
  datatype Pool = Pool(
    senders: map<PeerId, nat>,
    writers: set<nat>,
    dead: set<nat>,
    backlog: seq<Job>,
    processed: seq<Job>,
    reports: seq<Report>)

  datatype State = State(clock: nat, stopped: bool, lookups: Lookups, pool: Pool)

  const Init := State(0, false, Lookups(map[], multiset{}, multiset{}, multiset{}), Pool(map[], {}, {}, [], [], []))

  /** Milliseconds a lookup waits for a direct connection. */
  const DCUTR_TIMEOUT := 10_000

  datatype Event =
    | Established(peer: PeerId, relayed: bool)
    | Closed(peer: PeerId, remaining: nat)
    | DialError(who: Option<PeerId>)
    | Dcutr(peer: PeerId, ok: bool)
    | ConnectViaRelay(peer: PeerId, dialed: bool, now: nat)
    | Send(peer: PeerId, get: bool)
    | Timeout(now: nat)
    | Shutdown
    | WriterTakes(writer: nat, ok: bool)
    | WriterDies(writer: nat)

  // ---- Lookups --------------------------------------------------------------

  function Resolve(l: Lookups, p: PeerId, a: Answer): Lookups
    requires p in l.pending
  {
    l.(pending := l.pending - {p}, answers := l.answers + multiset{Reply(l.pending[p].lookup, a)})
  }

  function OnEstablished(l: Lookups, p: PeerId, relayed: bool): Lookups {
    if p !in l.pending then l
    else if relayed then l.(pending := l.pending[p := l.pending[p].(relayed := true)])
    else Resolve(l, p, Direct)
  }

  function OnDialError(l: Lookups, who: Option<PeerId>): Lookups {
    if who.Some? && who.value in l.pending && !l.pending[who.value].relayed
    then Resolve(l, who.value, Failed) else l
  }

  function OnDcutr(l: Lookups, p: PeerId, ok: bool): Lookups {
    if p !in l.pending then l else Resolve(l, p, if ok then Direct else RelayOnly)
  }

  /** A dialed lookup replaces any earlier one for the peer, whose caller is
      never answered. */
  function OnConnect(l: Lookups, id: nat, p: PeerId, dialed: bool, now: nat): Lookups {
    if !dialed then l.(answers := l.answers + multiset{Reply(id, Failed)})
    else
      var l' := l.(pending := l.pending[p := Pending(id, false, now + DCUTR_TIMEOUT)]);
      if p in l.pending then l'.(superseded := l.superseded + multiset{l.pending[p].lookup}) else l'
  }

  function Expired(l: Lookups, now: nat): set<PeerId> {
    set p | p in l.pending && l.pending[p].deadline <= now
  }

  function TimeoutReply(d: Pending): Reply {
    Reply(d.lookup, if d.relayed then RelayOnly else Failed)
  }

  function OnTimeout(l: Lookups, now: nat): Lookups {
    var gone := Expired(l, now);
    l.(pending := l.pending - gone,
       answers := l.answers + multiset(set p | p in gone :: TimeoutReply(l.pending[p])))
  }

  function OnShutdown(l: Lookups): Lookups {
    l.(pending := map[],
       dropped := l.dropped + multiset(set p | p in l.pending :: l.pending[p].lookup))
  }

  function LookupStep(l: Lookups, stopped: bool, id: nat, e: Event): Lookups {
    if stopped then
      if e.ConnectViaRelay? then l.(dropped := l.dropped + multiset{id}) else l
    else match e
      case Established(p, relayed) => OnEstablished(l, p, relayed)
      case DialError(who) => OnDialError(l, who)
      case Dcutr(p, ok) => OnDcutr(l, p, ok)
      case ConnectViaRelay(p, dialed, now) => OnConnect(l, id, p, dialed, now)
      case Timeout(now) => OnTimeout(l, now)
      case Shutdown => OnShutdown(l)
      case _ => l
  }

  // ---- Writers -------------------------------------------------------------

  /** `get_or_create`: the peer's live writer, or a new one named after this step. */
  function WriterFor(o: Pool, id: nat, p: PeerId): nat {
    if p in o.senders && o.senders[p] !in o.dead then o.senders[p] else id
  }

  function OnSend(o: Pool, id: nat, p: PeerId, get: bool): Pool {
    var w := WriterFor(o, id, p);
    o.(senders := o.senders[p := w], writers := o.writers + {w}, backlog := o.backlog + [Job(id, w, get)])
  }

  function ForgetSender(o: Pool, p: PeerId): Pool { o.(senders := o.senders - {p}) }

  function ReportOf(j: Job, ok: bool): seq<Report> {
    if j.get && ok then [] else [Report(j.id, ok)]
  }

  function OfWriter(w: nat): Job -> bool { (j: Job) => j.writer == w }

  function NotOfWriter(w: nat): Job -> bool { (j: Job) => j.writer != w }

  function FirstJob(js: seq<Job>, w: nat): (i: nat)
    ensures i <= |js|
    ensures i < |js| ==> js[i].writer == w
    ensures forall k | 0 <= k < i :: js[k].writer != w
  {
    if js == [] || js[0].writer == w then 0 else 1 + FirstJob(js[1..], w)
  }

  /** The writer finishes its oldest message. */
  function OnWriterTakes(o: Pool, w: nat, ok: bool): Pool {
    var i := FirstJob(o.backlog, w);
    if w in o.dead || i == |o.backlog| then o
    else
      o.(backlog := RemoveAt(o.backlog, i),
         processed := o.processed + [o.backlog[i]],
         reports := o.reports + ReportOf(o.backlog[i], ok))
  }

  function FailureReports(js: seq<Job>): seq<Report> {
    if js == [] then [] else
      var k := |js| - 1;
      FailureReports(js[..k]) + ReportOf(js[k], false)
  }

  /** A writer task ends: the queued messages' result channels close. */
  function OnWriterDies(o: Pool, w: nat): Pool {
    if w !in o.writers then o
    else
      var lost := Select(OfWriter(w), o.backlog);
      o.(dead := o.dead + {w},
         backlog := Select(NotOfWriter(w), o.backlog),
         processed := o.processed + lost,
         reports := o.reports + FailureReports(lost))
  }

  /** The step makes the loop drop its sender for the peer: the last connection
      closed, or a pending lookup turned direct. */
  predicate Resets(l: Lookups, e: Event, p: PeerId) {
    || e == Closed(p, 0)
    || (p in l.pending && (e == Established(p, false) || e == Dcutr(p, true)))
  }

  function PoolStep(o: Pool, l: Lookups, stopped: bool, id: nat, e: Event): Pool {
    if e.WriterTakes? then OnWriterTakes(o, e.writer, e.ok)
    else if e.WriterDies? then OnWriterDies(o, e.writer)
    else if stopped then o
    else if e.Send? then OnSend(o, id, e.peer, e.get)
    else if (e.Closed? || e.Established? || e.Dcutr?) && Resets(l, e, e.peer) then ForgetSender(o, e.peer)
    else o
  }

  function Step(s: State, e: Event): State {
    State(s.clock + 1, s.stopped || e.Shutdown?,
          LookupStep(s.lookups, s.stopped, s.clock, e),
          PoolStep(s.pool, s.lookups, s.stopped, s.clock, e))
  }

  function Run(es: seq<Event>): State {
    if es == [] then Init else
      var k := |es| - 1;
      Step(Run(es[..k]), es[k])
  }

  lemma {:induction false} RunClock(es: seq<Event>)
    ensures Run(es).clock == |es| && (Run(es).stopped <==> Shutdown in es)
    decreases |es|
  {
    hide LookupStep, PoolStep;
    if es != [] {
      var k := |es| - 1;
      RunClock(es[..k]);
      assert es == es[..k] + [es[k]];
    }
  }

  lemma RunOneMore(es: seq<Event>, e: Event)
    ensures Run(es + [e]) == Step(Run(es), e)
  {
    assert (es + [e])[..|es|] == es;
  }

  // ---------------------------------------------------------------------
  //  Each lookup on its own
  // ---------------------------------------------------------------------

  datatype Status = Waiting(relayed: bool) | Answered(answer: Answer) | Superseded | Dropped

  /** How one later event moves one waiting lookup for peer `p`. */
  function Moves(st: Status, p: PeerId, deadline: nat, e: Event): Status
    requires st.Waiting?
  {
    match e
    case Established(q, relayed) =>
      if q != p then st else if relayed then Waiting(true) else Answered(Direct)
    case DialError(who) => if who == Some(p) && !st.relayed then Answered(Failed) else st
    case Dcutr(q, ok) => if q != p then st else Answered(if ok then Direct else RelayOnly)
    case ConnectViaRelay(q, dialed, _) => if q == p && dialed then Superseded else st
    case Timeout(now) =>
      if deadline <= now then Answered(if st.relayed then RelayOnly else Failed) else st
    case Shutdown => Dropped
    case _ => st
  }

  /** What becomes of the lookup started at step `i`, judged from the events
      alone, as if it were the only one. */
  function StatusOf(es: seq<Event>, i: nat): Status
    requires i < |es| && es[i].ConnectViaRelay?
    decreases |es|
  {
    var k := |es| - 1;
    if i == k then
      if Shutdown in es[..k] then Dropped
      else if es[i].dialed then Waiting(false)
      else Answered(Failed)
    else
      var st := StatusOf(es[..k], i);
      if st.Waiting? then Moves(st, es[i].peer, es[i].now + DCUTR_TIMEOUT, es[k]) else st
  }

  /** The loop's tables say exactly this about the lookup: it is in one of
      pending, answers, superseded, dropped, and there once. */
  ghost predicate Shows(l: Lookups, i: nat, p: PeerId, deadline: nat, st: Status) {
    && (st.Waiting? <==> (p in l.pending && l.pending[p].lookup == i))
    && (st.Waiting? ==> l.pending[p] == Pending(i, st.relayed, deadline))
    && (forall a: Answer :: l.answers[Reply(i, a)] == Hit(st == Answered(a)))
    && l.superseded[i] == Hit(st.Superseded?) && l.dropped[i] == Hit(st.Dropped?)
  }

  /** The tables mention only lookups already started, each under its own peer. */
  ghost predicate Owned(l: Lookups, es: seq<Event>) {
    && (forall p | p in l.pending ::
          l.pending[p].lookup < |es| && es[l.pending[p].lookup].ConnectViaRelay?
          && es[l.pending[p].lookup].peer == p)
    && (forall i, a | i >= |es| :: l.answers[Reply(i, a)] == 0)
    && (forall i | i >= |es| :: l.superseded[i] == 0 && l.dropped[i] == 0)
  }

  lemma SetOnce<T>(s: set<T>, x: T)
    ensures multiset(s)[x] == if x in s then 1 else 0
  {
  }

  /** Distinct peers have distinct lookups. */
  ghost predicate Apart(l: Lookups) {
    forall p, q | p in l.pending && q in l.pending && l.pending[p].lookup == l.pending[q].lookup :: p == q
  }

  lemma OwnedApart(l: Lookups, es: seq<Event>)
    requires Owned(l, es)
    ensures Apart(l)
  {
  }

  lemma TimeoutCounts(l: Lookups, now: nat, i: nat, a: Answer)
    requires Apart(l)
    ensures
      OnTimeout(l, now).answers[Reply(i, a)]
        == l.answers[Reply(i, a)]
           + Hit(exists p :: p in Expired(l, now) && TimeoutReply(l.pending[p]) == Reply(i, a))
  {
    var replies := set p | p in Expired(l, now) :: TimeoutReply(l.pending[p]);
    SetOnce(replies, Reply(i, a));
  }

  lemma ShutdownCounts(l: Lookups, i: nat)
    ensures OnShutdown(l).dropped[i] == l.dropped[i] + Hit(exists p :: p in l.pending && l.pending[p].lookup == i)
  {
    var gone := set p | p in l.pending :: l.pending[p].lookup;
    SetOnce(gone, i);
  }

  lemma TimeoutShows(l: Lookups, now: nat, i: nat, p: PeerId, deadline: nat, st: Status)
    requires Shows(l, i, p, deadline, st) && Apart(l)
    requires forall q | q in l.pending && l.pending[q].lookup == i :: q == p
    ensures Shows(OnTimeout(l, now), i, p, deadline, if st.Waiting? then Moves(st, p, deadline, Timeout(now)) else st)
  {
    forall a ensures OnTimeout(l, now).answers[Reply(i, a)]
                  == l.answers[Reply(i, a)] + Hit(st.Waiting? && deadline <= now && a == (if st.relayed then RelayOnly else Failed))
    {
      TimeoutCounts(l, now, i, a);
      if st.Waiting? && deadline <= now { assert p in Expired(l, now); }
    }
  }

  lemma ShutdownShows(l: Lookups, i: nat, p: PeerId, deadline: nat, st: Status)
    requires Shows(l, i, p, deadline, st)
    requires forall q | q in l.pending && l.pending[q].lookup == i :: q == p
    ensures Shows(OnShutdown(l), i, p, deadline, if st.Waiting? then Dropped else st)
  {
    ShutdownCounts(l, i);
  }

  lemma ResolveShows(l: Lookups, q: PeerId, a: Answer, i: nat, p: PeerId, deadline: nat, st: Status)
    requires Shows(l, i, p, deadline, st) && q in l.pending
    requires l.pending[q].lookup == i ==> q == p
    ensures Shows(Resolve(l, q, a), i, p, deadline, if st.Waiting? && q == p then Answered(a) else st)
  {
  }

  lemma RelayedShows(l: Lookups, q: PeerId, i: nat, p: PeerId, deadline: nat, st: Status)
    requires Shows(l, i, p, deadline, st) && q in l.pending
    ensures Shows(OnEstablished(l, q, true), i, p, deadline, if st.Waiting? && q == p then Waiting(true) else st)
  {
  }

  lemma ConnectShows(l: Lookups, id: nat, q: PeerId, dialed: bool, now: nat, i: nat, p: PeerId, deadline: nat, st: Status)
    requires Shows(l, i, p, deadline, st) && i < id
    requires forall r | r in l.pending && l.pending[r].lookup == i :: r == p
    ensures Shows(OnConnect(l, id, q, dialed, now), i, p, deadline,
                  if st.Waiting? && q == p && dialed then Superseded else st)
  {
  }

  /** One turn of the loop moves a lookup's entry as its own history says. */
  lemma StepShows(l: Lookups, id: nat, e: Event, i: nat, p: PeerId, deadline: nat, st: Status)
    requires Shows(l, i, p, deadline, st) && Apart(l) && i < id
    requires forall q | q in l.pending && l.pending[q].lookup == i :: q == p
    ensures Shows(LookupStep(l, false, id, e), i, p, deadline,
                  if st.Waiting? then Moves(st, p, deadline, e) else st)
  {
    if st.Waiting? { ShowsPending(l, i, p, deadline, st); }
    hide Shows, Resolve, OnConnect, OnTimeout, OnShutdown, Apart;
    match e
    case Timeout(now) => TimeoutShows(l, now, i, p, deadline, st);
    case Shutdown => ShutdownShows(l, i, p, deadline, st);
    case ConnectViaRelay(q, dialed, now) => ConnectShows(l, id, q, dialed, now, i, p, deadline, st);
    case Established(q, relayed) =>
      if q in l.pending {
        if relayed { RelayedShows(l, q, i, p, deadline, st); }
        else { ResolveShows(l, q, Direct, i, p, deadline, st); }
      }
    case DialError(who) =>
      if who.Some? && who.value in l.pending && !l.pending[who.value].relayed {
        ResolveShows(l, who.value, Failed, i, p, deadline, st);
      }
    case Dcutr(q, ok) =>
      if q in l.pending { ResolveShows(l, q, if ok then Direct else RelayOnly, i, p, deadline, st); }
    case _ =>
  }

  lemma ShowsPending(l: Lookups, i: nat, p: PeerId, deadline: nat, st: Status)
    requires Shows(l, i, p, deadline, st) && st.Waiting?
    ensures p in l.pending && l.pending[p].relayed == st.relayed && l.pending[p].lookup == i
  {
  }

  lemma OwnedLonger(l: Lookups, es: seq<Event>, e: Event)
    requires Owned(l, es)
    ensures Owned(l, es + [e])
  {
  }

  lemma ResolveOwned(l: Lookups, es: seq<Event>, p: PeerId, a: Answer)
    requires Owned(l, es) && p in l.pending
    ensures Owned(Resolve(l, p, a), es)
  {
  }

  lemma ConnectOwned(l: Lookups, es: seq<Event>, e: Event)
    requires Owned(l, es) && e.ConnectViaRelay?
    ensures Owned(OnConnect(l, |es|, e.peer, e.dialed, e.now), es + [e])
    ensures Owned(l.(dropped := l.dropped + multiset{|es|}), es + [e])
  {
    OwnedLonger(l, es, e);
  }

  lemma TimeoutOwned(l: Lookups, es: seq<Event>, now: nat)
    requires Owned(l, es)
    ensures Owned(OnTimeout(l, now), es)
  {
    OwnedApart(l, es);
    forall i, a | i >= |es| ensures OnTimeout(l, now).answers[Reply(i, a)] == 0 {
      TimeoutCounts(l, now, i, a);
    }
  }

  lemma ShutdownOwned(l: Lookups, es: seq<Event>)
    requires Owned(l, es)
    ensures Owned(OnShutdown(l), es)
  {
    forall i | i >= |es| ensures OnShutdown(l).dropped[i] == 0 { ShutdownCounts(l, i); }
  }

  lemma EstablishedOwned(l: Lookups, es: seq<Event>, p: PeerId, relayed: bool)
    requires Owned(l, es)
    ensures Owned(OnEstablished(l, p, relayed), es)
  {
    if p in l.pending && !relayed { ResolveOwned(l, es, p, Direct); }
  }

  lemma StepOwned(l: Lookups, es: seq<Event>, e: Event, stopped: bool)
    requires Owned(l, es)
    ensures Owned(LookupStep(l, stopped, |es|, e), es + [e])
  {
    hide Owned, Resolve, OnEstablished, OnConnect, OnTimeout, OnShutdown;
    if e.ConnectViaRelay? {
      ConnectOwned(l, es, e);
    }
    if !stopped {
      match e
      case Established(p, relayed) => EstablishedOwned(l, es, p, relayed);
      case DialError(who) =>
        if who.Some? && who.value in l.pending { ResolveOwned(l, es, who.value, Failed); }
      case Dcutr(p, ok) =>
        if p in l.pending { ResolveOwned(l, es, p, if ok then Direct else RelayOnly); }
      case Timeout(now) => TimeoutOwned(l, es, now);
      case Shutdown => ShutdownOwned(l, es);
      case _ =>
    }
    if !e.ConnectViaRelay? {
      OwnedLonger(LookupStep(l, stopped, |es|, e), es, e);
    }
  }

  lemma {:induction false} RunOwned(es: seq<Event>)
    ensures Owned(Run(es).lookups, es)
    decreases |es|
  {
    if es != [] {
      hide LookupStep, PoolStep, Owned;
      var k := |es| - 1;
      RunOwned(es[..k]);
      RunClock(es[..k]);
      StepOwned(Run(es[..k]).lookups, es[..k], es[k], Run(es[..k]).stopped);
      assert es == es[..k] + [es[k]];
    }
  }

  /** The loop's entry for a lookup that starts at this step. */
  lemma NewShows(l: Lookups, es: seq<Event>, e: Event, stopped: bool)
    requires Owned(l, es) && e.ConnectViaRelay?
    ensures Shows(LookupStep(l, stopped, |es|, e), |es|, e.peer, e.now + DCUTR_TIMEOUT,
                  if stopped then Dropped else if e.dialed then Waiting(false) else Answered(Failed))
  {
    var i := |es|;
    assert forall p | p in l.pending :: l.pending[p].lookup != i;
    assert forall a: Answer :: l.answers[Reply(i, a)] == 0;
  }

  lemma {:induction false} StoppedNobodyWaits(es: seq<Event>, i: nat)
    requires i < |es| && es[i].ConnectViaRelay? && Shutdown in es
    ensures !StatusOf(es, i).Waiting?
    decreases |es|
  {
    var k := |es| - 1;
    assert es == es[..k] + [es[k]];
    if i < k && Shutdown in es[..k] { StoppedNobodyWaits(es[..k], i); }
  }

  /** In every run, the shared tables treat each lookup exactly as its own event
      history says: still pending, answered once with that answer, superseded by
      a later lookup for the peer, or dropped when the loop ended. */
  lemma {:induction false} EachLookupOnItsOwn(es: seq<Event>, i: nat)
    requires i < |es| && es[i].ConnectViaRelay?
    ensures Shows(Run(es).lookups, i, es[i].peer, es[i].now + DCUTR_TIMEOUT, StatusOf(es, i))
    decreases |es|
  {
    hide LookupStep, PoolStep, Shows, Owned, Moves, Apart;
    var k := |es| - 1;
    var before := Run(es[..k]);
    RunClock(es[..k]);
    RunOwned(es[..k]);
    if i == k {
      NewShows(before.lookups, es[..k], es[k], before.stopped);
    } else {
      EachLookupOnItsOwn(es[..k], i);
      var st, p, d := StatusOf(es[..k], i), es[i].peer, es[i].now + DCUTR_TIMEOUT;
      if before.stopped {
        StoppedNobodyWaits(es[..k], i);
        IdleShows(before.lookups, k, es[k], i, p, d, st);
      } else {
        OwnedApart(before.lookups, es[..k]);
        OwnedPeers(before.lookups, es[..k], i);
        StepShows(before.lookups, k, es[k], i, p, d, st);
      }
    }
  }

  lemma OwnedPeers(l: Lookups, es: seq<Event>, i: nat)
    requires Owned(l, es) && i < |es| && es[i].ConnectViaRelay?
    ensures forall q | q in l.pending && l.pending[q].lookup == i :: q == es[i].peer
  {
  }

  lemma IdleShows(l: Lookups, id: nat, e: Event, i: nat, p: PeerId, deadline: nat, st: Status)
    requires Shows(l, i, p, deadline, st) && i < id
    ensures Shows(LookupStep(l, true, id, e), i, p, deadline, st)
  {
  }
}
