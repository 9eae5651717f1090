/** Messages to one peer: when they share a writer, that they are then done with in
    command order, and that each is reported with the outcome of the step that
    finished it. */
module SwarmOrder {
  import opened Prelude
  import opened SwarmLoop
  import opened SwarmRuns

  // ---------------------------------------------------------------------
  //  Which writer a message gets
  // ---------------------------------------------------------------------

  /** A lookup for the peer is waiting, judged from the events. */
  ghost predicate LookupWaits(es: seq<Event>, p: PeerId) {
    exists i | 0 <= i < |es| :: es[i].ConnectViaRelay? && es[i].peer == p && StatusOf(es, i).Waiting?
  }

  lemma PendingIffWaits(es: seq<Event>, p: PeerId)
    ensures p in Run(es).lookups.pending <==> LookupWaits(es, p)
  {
    hide Run;
    RunOwned(es);
    if p in Run(es).lookups.pending {
      EachLookupOnItsOwn(es, Run(es).lookups.pending[p].lookup);
    }
    if i :| 0 <= i < |es| && es[i].ConnectViaRelay? && es[i].peer == p && StatusOf(es, i).Waiting? {
      EachLookupOnItsOwn(es, i);
    }
  }

  /** Step `t` parts the peer from writer `w`: its last connection closes, a direct
      connection or a successful hole punch meets a waiting lookup, or the writer
      dies. */
  ghost predicate Parts(es: seq<Event>, t: nat, p: PeerId, w: nat)
    requires t < |es|
  {
    || es[t] == Closed(p, 0)
    || (es[t] == Established(p, false) && LookupWaits(es[..t], p))
    || (es[t] == Dcutr(p, true) && LookupWaits(es[..t], p))
    || es[t] == WriterDies(w)
  }

  /** The writer the message of step `i` is handed to. */
  function WriterOf(es: seq<Event>, i: nat): nat
    requires Accepted(es, i)
  {
    WriterFor(Run(es[..i]).pool, i, es[i].peer)
  }

  lemma AcceptedPrefix(es: seq<Event>, n: nat, i: nat)
    requires i < n <= |es|
    ensures Accepted(es[..n], i) <==> Accepted(es, i)
    ensures Accepted(es, i) ==> WriterOf(es[..n], i) == WriterOf(es, i)
  {
    hide Run, WriterFor;
    PrefixOfPrefix(es, n, i);
  }

  lemma PartsPrefix(es: seq<Event>, n: nat, t: nat, p: PeerId, w: nat)
    requires t < n <= |es|
    ensures Parts(es[..n], t, p, w) <==> Parts(es, t, p, w)
  {
    hide LookupWaits;
    PrefixOfPrefix(es, n, t);
  }

  lemma StepKeepsSender(o: Pool, l: Lookups, stopped: bool, id: nat, e: Event, p: PeerId, w: nat)
    requires p in o.senders && o.senders[p] == w && w !in o.dead
    requires e != Closed(p, 0) && e != WriterDies(w)
    requires p in l.pending ==> e != Established(p, false) && e != Dcutr(p, true)
    ensures
      var o' := PoolStep(o, l, stopped, id, e);
      p in o'.senders && o'.senders[p] == w && w !in o'.dead
  {
  }

  lemma SendGivesSender(o: Pool, l: Lookups, id: nat, e: Event)
    requires e.Send? && WriterFor(o, id, e.peer) !in o.dead
    ensures
      var o', w := PoolStep(o, l, false, id, e), WriterFor(o, id, e.peer);
      e.peer in o'.senders && o'.senders[e.peer] == w && w !in o'.dead && w in o'.writers
  {
  }

  /** A live writer stays the peer's while nothing parts them. */
  lemma {:induction false} SenderStays(es: seq<Event>, j: nat)
    requires Accepted(es, j)
    requires forall t | j < t < |es| :: !Parts(es, t, es[j].peer, WriterOf(es, j))
    ensures
      var o, p, w := Run(es).pool, es[j].peer, WriterOf(es, j);
      p in o.senders && o.senders[p] == w && w !in o.dead
    decreases |es|
  {
    hide LookupStep, PoolStep, Parts, WriterFor;
    var k := |es| - 1;
    var before := Run(es[..k]);
    RunClock(es[..k]);
    if j == k {
      WriterIsLive(es[..k], es[j].peer);
      SendGivesSender(before.pool, before.lookups, k, es[k]);
    } else {
      AcceptedPrefix(es, k, j);
      var p, w := es[j].peer, WriterOf(es, j);
      forall t | j < t < k ensures !Parts(es[..k], t, p, w) { PartsPrefix(es, k, t, p, w); }
      SenderStays(es[..k], j);
      NoParting(es, k, p, w);
      StepKeepsSender(before.pool, before.lookups, before.stopped, k, es[k], p, w);
    }
  }

  lemma NoParting(es: seq<Event>, t: nat, p: PeerId, w: nat)
    requires t < |es| && !Parts(es, t, p, w)
    ensures es[t] != Closed(p, 0) && es[t] != WriterDies(w)
    ensures p in Run(es[..t]).lookups.pending ==> es[t] != Established(p, false) && es[t] != Dcutr(p, true)
  {
    hide Run, LookupWaits;
    PendingIffWaits(es[..t], p);
  }

  lemma WriterIsOld(es: seq<Event>, j: nat)
    requires Accepted(es, j)
    ensures WriterOf(es, j) <= j
  {
    hide Run;
    RunWritersExist(es[..j]);
  }

  lemma StepGrows(o: Pool, l: Lookups, stopped: bool, id: nat, e: Event)
    ensures o.writers <= PoolStep(o, l, stopped, id, e).writers && o.dead <= PoolStep(o, l, stopped, id, e).dead
  {
  }

  lemma {:induction false} WritersGrow(es: seq<Event>, n: nat)
    requires n <= |es|
    ensures Run(es[..n]).pool.writers <= Run(es).pool.writers && Run(es[..n]).pool.dead <= Run(es).pool.dead
    decreases |es|
  {
    hide LookupStep, PoolStep;
    if n == |es| {
      assert es[..n] == es;
    } else {
      var k := |es| - 1;
      PrefixOfPrefix(es, k, n);
      WritersGrow(es[..k], n);
      var before := Run(es[..k]);
      StepGrows(before.pool, before.lookups, before.stopped, before.clock, es[k]);
    }
  }

  lemma WriterExists(es: seq<Event>, j: nat)
    requires Accepted(es, j)
    ensures WriterOf(es, j) in Run(es[..j + 1]).pool.writers
  {
    hide LookupStep, PoolStep, WriterFor;
    assert es[..j + 1][..j] == es[..j];
    var before := Run(es[..j]);
    RunClock(es[..j]);
    WriterIsLive(es[..j], es[j].peer);
    SendGivesSender(before.pool, before.lookups, j, es[j]);
  }

  /** A dead writer gets no further message. */
  lemma DeathParts(es: seq<Event>, j: nat, t: nat, k: nat)
    requires j < t < k < |es| && Accepted(es, j) && Accepted(es, k) && es[t] == WriterDies(WriterOf(es, j))
    ensures WriterOf(es, k) != WriterOf(es, j)
  {
    hide Run, WriterFor;
    var w := WriterOf(es, j);
    WriterExists(es, j);
    PrefixOfPrefix(es, t, j + 1);
    WritersGrow(es[..t], j + 1);
    DiesHere(es, t, w);
    PrefixOfPrefix(es, k, t + 1);
    WritersGrow(es[..k], t + 1);
    WriterIsLive(es[..k], es[k].peer);
  }

  lemma DiesHere(es: seq<Event>, t: nat, w: nat)
    requires t < |es| && es[t] == WriterDies(w) && w in Run(es[..t]).pool.writers
    ensures w in Run(es[..t + 1]).pool.dead
  {
    hide LookupStep, Select;
    assert es[..t + 1][..t] == es[..t];
  }

  /** A reset of the peer's sender gives the next message another writer. */
  lemma ResetParts(es: seq<Event>, j: nat, t: nat, k: nat)
    requires j < t < k < |es| && Accepted(es, j) && Accepted(es, k) && es[j].peer == es[k].peer
    requires Parts(es, t, es[j].peer, WriterOf(es, j)) && !es[t].WriterDies?
    ensures WriterOf(es, k) != WriterOf(es, j)
  {
    hide Run, WriterFor, LookupWaits;
    PendingIffWaits(es[..t], es[j].peer);
    RunClock(es[..t]);
    StoppedLater(es, t, k);
    SendUsesFreshWriter(es, t, k);
    WriterIsOld(es, j);
  }

  lemma StoppedLater(es: seq<Event>, t: nat, k: nat)
    requires t <= k <= |es| && Shutdown !in es[..k]
    ensures Shutdown !in es[..t]
  {
    assert es[..t] == es[..k][..t];
  }

  /** Two messages to one peer are handed to the same writer if and only if nothing
      in between parts the peer from it. */
  lemma SameWriterIff(es: seq<Event>, j: nat, k: nat)
    requires j < k && Accepted(es, j) && Accepted(es, k) && es[j].peer == es[k].peer
    ensures WriterOf(es, k) == WriterOf(es, j)
       <==> forall t | j < t < k :: !Parts(es, t, es[j].peer, WriterOf(es, j))
  {
    hide Run, Parts;
    var p, w := es[j].peer, WriterOf(es, j);
    if t :| j < t < k && Parts(es, t, p, w) {
      if es[t].WriterDies? {
        DyingIsDeath(es, t, p, w);
        DeathParts(es, j, t, k);
      } else {
        ResetParts(es, j, t, k);
      }
    } else {
      AcceptedPrefix(es, k, j);
      forall t | j < t < k ensures !Parts(es[..k], t, p, w) { PartsPrefix(es, k, t, p, w); }
      SenderStays(es[..k], j);
    }
  }

  lemma DyingIsDeath(es: seq<Event>, t: nat, p: PeerId, w: nat)
    requires t < |es| && Parts(es, t, p, w) && es[t].WriterDies?
    ensures es[t] == WriterDies(w)
  {
  }

  // ---------------------------------------------------------------------
  //  Order
  // ---------------------------------------------------------------------

  lemma {:induction false} HandedMeans(es: seq<Event>, a: Job)
    ensures a in Handed(es) <==> Accepted(es, a.id) && a.writer == WriterOf(es, a.id) && a.get == es[a.id].get
    decreases |es|
  {
    if es != [] {
      hide Run, WriterFor;
      var k := |es| - 1;
      HandedMeans(es[..k], a);
      if a.id < k { AcceptedPrefix(es, k, a.id); }
    }
  }

  lemma {:induction false} HandedInOrder(es: seq<Event>)
    ensures forall x, y | 0 <= x < y < |Handed(es)| :: Handed(es)[x].id < Handed(es)[y].id
    ensures forall a | a in Handed(es) :: a.id < |es|
    decreases |es|
  {
    if es != [] {
      hide Run, WriterFor;
      HandedInOrder(es[..|es| - 1]);
    }
  }

  ghost predicate IdsRise(js: seq<Job>) { forall x, y | 0 <= x < y < |js| :: js[x].id < js[y].id }

  lemma {:induction false} SelectRises(f: Job -> bool, js: seq<Job>)
    requires IdsRise(js)
    ensures IdsRise(Select(f, js))
    decreases |js|
  {
    if js != [] {
      var k := |js| - 1;
      SelectRises(f, js[..k]);
      var front := Select(f, js[..k]);
      forall x | 0 <= x < |front| ensures front[x].id < js[k].id {
        SelectIn(f, js[..k], front[x]);
      }
    }
  }

  /** The messages in the tables are the handed ones. */
  lemma JobIsHanded(es: seq<Event>, a: Job)
    requires a in Run(es).pool.backlog || a in Run(es).pool.processed
    ensures Accepted(es, a.id) && a.writer == WriterOf(es, a.id) && a.get == es[a.id].get
  {
    hide Run, Select, WriterFor, Handed;
    var o, w := Run(es).pool, a.writer;
    WritersKeepOrder(es, w);
    SelectIn(OfWriter(w), o.backlog, a);
    SelectIn(OfWriter(w), o.processed, a);
    SelectIn(OfWriter(w), Handed(es), a);
    HandedMeans(es, a);
  }

  lemma IdIsListed(js: seq<Job>, a: Job)
    requires a in js
    ensures multiset(JobIds(js))[a.id] >= 1
  {
    var i :| 0 <= i < |js| && js[i] == a;
    assert JobIds(js)[i] == a.id;
  }

  lemma ListedIsThere(js: seq<Job>, i: nat) returns (a: Job)
    requires multiset(JobIds(js))[i] >= 1
    ensures a in js && a.id == i
  {
    assert i in JobIds(js);
    var n :| 0 <= n < |js| && JobIds(js)[n] == i;
    a := js[n];
  }

  /** Of two messages with one writer, the later is never done with before the
      earlier. */
  lemma WriterInOrder(es: seq<Event>, j: nat, k: nat)
    requires j < k && Accepted(es, j) && Accepted(es, k) && WriterOf(es, j) == WriterOf(es, k)
    ensures ProcessedCount(Run(es).pool, k) >= 1 ==> ProcessedCount(Run(es).pool, j) >= 1
  {
    hide Run, Select, WriterFor, Handed, JobIds;
    var o, w := Run(es).pool, WriterOf(es, j);
    if ProcessedCount(o, k) >= 1 {
      var b := ListedIsThere(o.processed, k);
      JobIsHanded(es, b);
      var a := Job(j, w, es[j].get);
      HandedMeans(es, a);
      WritersKeepOrder(es, w);
      EarlierIsDone(es, a, b);
      IdIsListed(o.processed, a);
    }
  }

  lemma EarlierIsDone(es: seq<Event>, a: Job, b: Job)
    requires a in Handed(es) && b in Run(es).pool.processed && a.writer == b.writer && a.id < b.id
    requires InOrder(Run(es).pool, Handed(es), a.writer)
    ensures a in Run(es).pool.processed
  {
    hide Run, Select, Handed;
    var o, w := Run(es).pool, a.writer;
    var h, done := Select(OfWriter(w), Handed(es)), Select(OfWriter(w), o.processed);
    SelectIn(OfWriter(w), Handed(es), a);
    SelectIn(OfWriter(w), o.processed, b);
    SelectIn(OfWriter(w), o.processed, a);
    HandedInOrder(es);
    SelectRises(OfWriter(w), Handed(es));
    var x :| 0 <= x < |h| && h[x] == a;
    var y :| 0 <= y < |done| && done[y] == b;
    assert h[y] == b;
    assert x < y;
    assert done[x] == a;
  }

  /** Messages to one peer that nothing parted are done with in command order, at
      every moment of every run. */
  lemma PeerInOrder(es: seq<Event>, j: nat, k: nat)
    requires j < k && Accepted(es, j) && Accepted(es, k) && es[j].peer == es[k].peer
    requires forall t | j < t < k :: !Parts(es, t, es[j].peer, WriterOf(es, j))
    ensures ProcessedCount(Run(es).pool, k) >= 1 ==> ProcessedCount(Run(es).pool, j) >= 1
  {
    hide Run, Parts, WriterFor, ProcessedCount;
    SameWriterIff(es, j, k);
    WriterInOrder(es, j, k);
  }

  // ---------------------------------------------------------------------
  //  What is reported
  // ---------------------------------------------------------------------

  lemma {:induction false} FailuresAreOf(js: seq<Job>)
    ensures forall r | r in FailureReports(js) :: !r.ok && r.id in JobIds(js)
    decreases |js|
  {
    if js != [] {
      var k := |js| - 1;
      FailuresAreOf(js[..k]);
      assert JobIds(js) == JobIds(js[..k]) + [js[k].id];
    }
  }

  lemma {:induction false} SelectedIds(f: Job -> bool, js: seq<Job>)
    ensures forall i | i in JobIds(Select(f, js)) :: i in JobIds(js)
    decreases |js|
  {
    if js != [] {
      var k := |js| - 1;
      SelectedIds(f, js[..k]);
      assert JobIds(js) == JobIds(js[..k]) + [js[k].id];
      if f(js[k]) {
        assert JobIds(Select(f, js)) == JobIds(Select(f, js[..k])) + [js[k].id];
      } else {
        assert Select(f, js) == Select(f, js[..k]);
      }
    }
  }

  /** A new report is about a queued message and says how the step went. */
  lemma StepReports(o: Pool, l: Lookups, stopped: bool, id: nat, e: Event)
    ensures forall r | r in PoolStep(o, l, stopped, id, e).reports ::
              || r in o.reports
              || (r.id in JobIds(o.backlog) && (e.WriterTakes? || e.WriterDies?) && r.ok == (e.WriterTakes? && e.ok))
  {
    if e.WriterTakes? {
      var i := FirstJob(o.backlog, e.writer);
      if i < |o.backlog| { assert JobIds(o.backlog)[i] == o.backlog[i].id; }
    } else if e.WriterDies? && e.writer in o.writers {
      FailuresAreOf(Select(OfWriter(e.writer), o.backlog));
      SelectedIds(OfWriter(e.writer), o.backlog);
    }
  }

  /** Messages not done with have no report. */
  lemma {:induction false} UnfinishedUnreported(es: seq<Event>, i: nat)
    requires ProcessedCount(Run(es).pool, i) == 0
    ensures ReportCount(Run(es).pool, i) == 0 && forall r | r in Run(es).pool.reports :: r.id != i
    decreases |es|
  {
    hide LookupStep, PoolStep, ReportCount, ProcessedCount, JobPlaces;
    if es == [] {
      NoReportsYet(i);
    } else {
      var k := |es| - 1;
      var before := Run(es[..k]);
      DoneStaysDone(before.pool, before.lookups, before.stopped, before.clock, es[k], i);
      UnfinishedUnreported(es[..k], i);
      QuietStep(before.pool, before.lookups, before.stopped, before.clock, es[k], i);
    }
  }

  lemma NoReportsYet(i: nat)
    ensures ReportCount(Init.pool, i) == 0 && forall r | r in Init.pool.reports :: r.id != i
  {
  }

  lemma DoneStaysDone(o: Pool, l: Lookups, stopped: bool, id: nat, e: Event, i: nat)
    ensures ProcessedCount(PoolStep(o, l, stopped, id, e), i) >= ProcessedCount(o, i)
  {
    hide Select;
    if e.WriterTakes? {
      var n := FirstJob(o.backlog, e.writer);
      if n < |o.backlog| { JobIdsCat(o.processed, [o.backlog[n]]); }
    } else if e.WriterDies? && e.writer in o.writers {
      JobIdsCat(o.processed, Select(OfWriter(e.writer), o.backlog));
    }
  }

  /** A step that does not finish message `i` reports nothing about it. */
  lemma QuietStep(o: Pool, l: Lookups, stopped: bool, id: nat, e: Event, i: nat)
    requires ProcessedCount(PoolStep(o, l, stopped, id, e), i) == ProcessedCount(o, i)
    ensures ReportCount(PoolStep(o, l, stopped, id, e), i) == ReportCount(o, i)
    ensures forall r | r in PoolStep(o, l, stopped, id, e).reports && r.id == i :: r in o.reports
  {
    hide Select;
    var o' := PoolStep(o, l, stopped, id, e);
    if e.WriterTakes? {
      QuietTakes(o, e.writer, e.ok, i);
    } else if e.WriterDies? {
      QuietDies(o, e.writer, i);
    } else {
      assert o'.reports == o.reports;
    }
  }

  lemma QuietTakes(o: Pool, w: nat, ok: bool, i: nat)
    requires ProcessedCount(OnWriterTakes(o, w, ok), i) == ProcessedCount(o, i)
    ensures ReportCount(OnWriterTakes(o, w, ok), i) == ReportCount(o, i)
    ensures forall r | r in OnWriterTakes(o, w, ok).reports && r.id == i :: r in o.reports
  {
    var n := FirstJob(o.backlog, w);
    if w !in o.dead && n < |o.backlog| {
      var j := o.backlog[n];
      JobIdsCat(o.processed, [j]);
      assert JobIds([j]) == [j.id];
      assert j.id != i;
      ReportIdsCat(o.reports, ReportOf(j, ok));
      assert ReportIds([Report(j.id, ok)]) == [j.id];
    }
  }

  lemma QuietDies(o: Pool, w: nat, i: nat)
    requires ProcessedCount(OnWriterDies(o, w), i) == ProcessedCount(o, i)
    ensures ReportCount(OnWriterDies(o, w), i) == ReportCount(o, i)
    ensures forall r | r in OnWriterDies(o, w).reports && r.id == i :: r in o.reports
  {
    hide Select;
    if w in o.writers {
      var lost := Select(OfWriter(w), o.backlog);
      JobIdsCat(o.processed, lost);
      FailuresReported(lost);
      ReportIdsCat(o.reports, FailureReports(lost));
      FailuresAreOf(lost);
      assert multiset(JobIds(lost))[i] == 0;
      assert i !in JobIds(lost);
    }
  }

  /** Step `t` finishes message `i`. */
  ghost predicate FinishedAt(es: seq<Event>, i: nat, t: nat) {
    && t < |es| && ProcessedCount(Run(es[..t]).pool, i) == 0
    && ProcessedCount(Run(es[..t + 1]).pool, i) >= 1
  }

  /** The step that finishes a message is its writer's: a take, or the writer's end. */
  lemma FinisherIsWriter(o: Pool, l: Lookups, stopped: bool, id: nat, e: Event, i: nat) returns (a: Job)
    requires ProcessedCount(o, i) == 0 && ProcessedCount(PoolStep(o, l, stopped, id, e), i) >= 1
    ensures (e.WriterTakes? || e.WriterDies?) && a in o.backlog && a.id == i && a.writer == e.writer
    ensures a in PoolStep(o, l, stopped, id, e).processed
    ensures e.WriterTakes? ==>
              ReportCount(PoolStep(o, l, stopped, id, e), i) == ReportCount(o, i) + Hit(!(a.get && e.ok))
  {
    hide Select;
    if e.WriterTakes? {
      var n := FirstJob(o.backlog, e.writer);
      a := o.backlog[n];
      JobIdsCat(o.processed, [a]);
      assert JobIds([a]) == [a.id];
      ReportIdsCat(o.reports, ReportOf(a, e.ok));
      assert ReportIds([Report(a.id, e.ok)]) == [a.id];
    } else {
      var lost := Select(OfWriter(e.writer), o.backlog);
      JobIdsCat(o.processed, lost);
      a := ListedIsThere(lost, i);
      SelectIn(OfWriter(e.writer), o.backlog, a);
    }
  }

  lemma FinishHere(es: seq<Event>, i: nat)
    requires es != [] && FinishedAt(es, i, |es| - 1)
    ensures
      var k, o := |es| - 1, Run(es).pool;
      && Accepted(es, i) && (es[k].WriterTakes? || es[k].WriterDies?) && es[k].writer == WriterOf(es, i)
      && (forall r | r in o.reports && r.id == i :: r.ok == (es[k].WriterTakes? && es[k].ok))
      && ReportCount(o, i) == Hit(!(es[i].get && es[k].WriterTakes? && es[k].ok))
  {
    hide LookupStep, PoolStep, ReportCount, ProcessedCount, WriterFor, JobPlaces;
    var k := |es| - 1;
    assert es[..k + 1] == es;
    var before := Run(es[..k]);
    UnfinishedUnreported(es[..k], i);
    StepReports(before.pool, before.lookups, before.stopped, before.clock, es[k]);
    var a := FinisherIsWriter(before.pool, before.lookups, before.stopped, before.clock, es[k], i);
    JobIsHanded(es, a);
    if es[k].WriterDies? { OneFailure(es, i); }
  }

  lemma OneFailure(es: seq<Event>, i: nat)
    requires es != [] && FinishedAt(es, i, |es| - 1) && es[|es| - 1].WriterDies?
    requires ReportCount(Run(es[..|es| - 1]).pool, i) == 0
    ensures ReportCount(Run(es).pool, i) == 1
  {
    hide LookupStep, ReportCount, OnWriterDies;
    var k := |es| - 1;
    assert es[..k + 1] == es;
    DiesMoves(Run(es[..k]).pool, es[k].writer, i);
    EachMessageInOnePlace(es, i);
  }

  /** In every run, a message is finished by its own writer, and what is reported
      for it is how that step went: Ok exactly when the writer said so, a failure
      when it said so or ended; once, or not at all for a get request that was
      sent. */
  lemma {:induction false} FinishIsReported(es: seq<Event>, i: nat, t: nat)
    requires FinishedAt(es, i, t)
    ensures
      var o := Run(es).pool;
      && Accepted(es, i) && (es[t].WriterTakes? || es[t].WriterDies?) && es[t].writer == WriterOf(es, i)
      && (forall r | r in o.reports && r.id == i :: r.ok == (es[t].WriterTakes? && es[t].ok))
      && ReportCount(o, i) == Hit(!(es[i].get && es[t].WriterTakes? && es[t].ok))
    decreases |es|
  {
    hide LookupStep, PoolStep, ReportCount, ProcessedCount, WriterFor, JobPlaces;
    var k := |es| - 1;
    if t == k {
      FinishHere(es, i);
    } else {
      PrefixOfPrefix(es, k, t);
      PrefixOfPrefix(es, k, t + 1);
      FinishIsReported(es[..k], i, t);
      FinishedBefore(es, i);
      AcceptedPrefix(es, k, i);
      FinishedStays(es, i, t);
      var before := Run(es[..k]);
      QuietStep(before.pool, before.lookups, before.stopped, before.clock, es[k], i);
    }
  }

  lemma FinishedBefore(es: seq<Event>, i: nat)
    requires es != [] && Accepted(es[..|es| - 1], i)
    ensures i < |es| - 1
  {
  }

  lemma {:induction false} CountGrows(es: seq<Event>, n: nat, i: nat)
    requires n <= |es|
    ensures ProcessedCount(Run(es[..n]).pool, i) <= ProcessedCount(Run(es).pool, i)
    decreases |es|
  {
    hide LookupStep, PoolStep, ProcessedCount;
    if n == |es| {
      assert es[..n] == es;
    } else {
      var k := |es| - 1;
      PrefixOfPrefix(es, k, n);
      CountGrows(es[..k], n, i);
      var before := Run(es[..k]);
      DoneStaysDone(before.pool, before.lookups, before.stopped, before.clock, es[k], i);
    }
  }

  lemma FinishedStays(es: seq<Event>, i: nat, t: nat)
    requires FinishedAt(es, i, t) && t < |es| - 1
    ensures ProcessedCount(Run(es[..|es| - 1]).pool, i) == ProcessedCount(Run(es).pool, i)
  {
    hide Run;
    var k := |es| - 1;
    PrefixOfPrefix(es, k, t + 1);
    CountGrows(es[..k], t + 1, i);
    CountGrows(es, k, i);
    EachMessageInOnePlace(es, i);
  }
}
