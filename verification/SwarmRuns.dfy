/** What the command and event loop guarantees over whole runs. */
module SwarmRuns {
  import opened Prelude
  import opened SwarmLoop

  // ---------------------------------------------------------------------
  //  Lookups get the answer their events justify
  // ---------------------------------------------------------------------

  /** A relayed connection to the peer came up after step `i` and before `k`. */
  ghost predicate RelayedBetween(es: seq<Event>, i: nat, k: nat, p: PeerId) {
    exists j | i < j < k && j < |es| :: es[j] == Established(p, true)
  }

  lemma {:induction false} WaitingKnowsRelay(es: seq<Event>, i: nat)
    requires i < |es| && es[i].ConnectViaRelay? && StatusOf(es, i).Waiting?
    ensures StatusOf(es, i).relayed <==> RelayedBetween(es, i, |es|, es[i].peer)
    decreases |es|
  {
    var k := |es| - 1;
    if i < k {
      WaitingKnowsRelay(es[..k], i);
      var p := es[i].peer;
      assert RelayedBetween(es, i, |es|, p) <==> RelayedBetween(es[..k], i, k, p) || es[k] == Established(p, true) by {
        if RelayedBetween(es, i, |es|, p) && es[k] != Established(p, true) {
          var j :| i < j < |es| && es[j] == Established(p, true);
          assert es[..k][j] == es[j];
        }
        if RelayedBetween(es[..k], i, k, p) {
          var j :| i < j < k && es[..k][j] == Established(p, true);
          assert es[j] == Established(p, true);
        }
      }
    }
  }

  /** The event that decided a lookup, seen while the lookup was pending. */
  ghost predicate Decides(es: seq<Event>, i: nat, k: nat, a: Answer)
    requires i < |es| && es[i].ConnectViaRelay?
  {
    var p := es[i].peer;
    && i < k < |es| && StatusOf(es[..k], i).Waiting?
    && match a
       case Direct => es[k] == Established(p, false) || es[k] == Dcutr(p, true)
       case RelayOnly =>
         || es[k] == Dcutr(p, false)
         || (es[k].Timeout? && es[i].now + DCUTR_TIMEOUT <= es[k].now && RelayedBetween(es, i, k, p))
       case Failed =>
         && (es[k] == DialError(Some(p)) || (es[k].Timeout? && es[i].now + DCUTR_TIMEOUT <= es[k].now))
         && !RelayedBetween(es, i, k, p)
  }

  lemma RelayedPrefix(es: seq<Event>, i: nat, k: nat, p: PeerId)
    requires k <= |es|
    ensures RelayedBetween(es[..k], i, k, p) <==> RelayedBetween(es, i, k, p)
  {
    if RelayedBetween(es, i, k, p) {
      var j :| i < j < k && es[j] == Established(p, true);
      assert es[..k][j] == es[j];
    }
  }

  lemma PrefixOfPrefix(es: seq<Event>, k: nat, m: nat)
    requires m <= k <= |es|
    ensures es[..k][..m] == es[..m]
  {
  }

  lemma {:induction false} AnswerIsJustified(es: seq<Event>, i: nat) returns (k: nat)
    requires i < |es| && es[i].ConnectViaRelay? && es[i].dialed
    requires StatusOf(es, i).Answered?
    ensures Decides(es, i, k, StatusOf(es, i).answer)
    decreases |es|
  {
    var n := |es| - 1;
    var st := StatusOf(es[..n], i);
    var p := es[i].peer;
    if st.Waiting? {
      k := n;
      WaitingKnowsRelay(es[..n], i);
      RelayedPrefix(es, i, n, p);
    } else {
      k := AnswerIsJustified(es[..n], i);
      PrefixOfPrefix(es, n, k);
      RelayedPrefix(es, i, n, p);
      assert es[..n][k] == es[k];
      RelayedPrefix(es, i, k, p);
      RelayedPrefix(es[..n], i, k, p);
    }
  }

  /** In every run, whatever a caller of a dialed lookup is told was decided by an
      event seen while its lookup was pending: a direct connection or a DCUtR
      success for Direct; a DCUtR failure, or the deadline after a relayed
      connection, for RelayOnly; a dial error, or the deadline, with no relayed
      connection seen, for Failed.  And it is told exactly once. */
  lemma RepliesAreJustified(es: seq<Event>, i: nat, a: Answer)
    requires i < |es| && es[i].ConnectViaRelay?
    ensures Run(es).lookups.answers[Reply(i, a)] <= 1
    ensures Run(es).lookups.answers[Reply(i, a)] == 1 && es[i].dialed ==> exists k :: Decides(es, i, k, a)
    ensures Run(es).lookups.answers[Reply(i, a)] == 1 && !es[i].dialed ==> a == Failed
  {
    hide Run, Decides;
    EachLookupOnItsOwn(es, i);
    if StatusOf(es, i) == Answered(a) {
      if es[i].dialed {
        var k := AnswerIsJustified(es, i);
      } else {
        NotDialedFails(es, i);
      }
    }
  }

  lemma {:induction false} NotDialedFails(es: seq<Event>, i: nat)
    requires i < |es| && es[i].ConnectViaRelay? && !es[i].dialed
    ensures StatusOf(es, i) == Answered(Failed) || StatusOf(es, i) == Dropped
    decreases |es|
  {
    if i < |es| - 1 { NotDialedFails(es[..|es| - 1], i); }
  }

  // ---------------------------------------------------------------------
  //  Deadlines
  // ---------------------------------------------------------------------

  /** No lookup survives the first timeout at or after its start plus ten seconds. */
  lemma {:induction false} NoLookupOutlives(es: seq<Event>, i: nat, k: nat)
    requires i < k < |es| && es[i].ConnectViaRelay? && es[k].Timeout?
    requires es[i].now + 10_000 <= es[k].now
    ensures !StatusOf(es, i).Waiting?
    decreases |es|
  {
    if k < |es| - 1 { NoLookupOutlives(es[..|es| - 1], i, k); }
  }

  /** The sleep target: no later than any pending deadline, and one of them when
      there is one. */
  ghost predicate SleepTarget(l: Lookups, now: nat, t: nat) {
    && (forall p | p in l.pending :: t <= l.pending[p].deadline)
    && (l.pending != map[] ==> exists p | p in l.pending :: l.pending[p].deadline == t)
    && (l.pending == map[] ==> t == now + 86_400_000)
  }

  /** When the sleep ends with lookups pending, the firing resolves at least one,
      and afterwards no deadline is due. */
  lemma FiringShrinks(l: Lookups, now0: nat, t: nat, now: nat)
    requires SleepTarget(l, now0, t) && t <= now
    ensures l.pending != map[] ==> OnTimeout(l, now).pending.Keys < l.pending.Keys
    ensures forall p | p in OnTimeout(l, now).pending :: now < OnTimeout(l, now).pending[p].deadline
  {
    if l.pending != map[] {
      var p :| p in l.pending && l.pending[p].deadline == t;
      assert p in Expired(l, now);
    }
  }

  // ---------------------------------------------------------------------
  //  Writers
  // ---------------------------------------------------------------------

  /** Writers exist once a step has created them, and only those die. */
  ghost predicate WritersExist(o: Pool, clock: nat) {
    && o.dead <= o.writers && (forall w | w in o.writers :: w < clock)
    && (forall p | p in o.senders :: o.senders[p] in o.writers)
    && (forall j | j in o.backlog :: j.writer in o.writers)
  }

  lemma StepWritersExist(o: Pool, l: Lookups, stopped: bool, id: nat, e: Event)
    requires WritersExist(o, id)
    ensures WritersExist(PoolStep(o, l, stopped, id, e), id + 1)
  {
    if e.WriterTakes? {
      var i := FirstJob(o.backlog, e.writer);
      if i < |o.backlog| { RemoveAtKeepsTheRest(o.backlog, i); }
    } else if e.WriterDies? && e.writer in o.writers {
      forall j | j in Select(NotOfWriter(e.writer), o.backlog) ensures j in o.backlog {
        SelectIn(NotOfWriter(e.writer), o.backlog, j);
      }
    }
  }

  lemma {:induction false} RunWritersExist(es: seq<Event>)
    ensures WritersExist(Run(es).pool, |es|)
    decreases |es|
  {
    hide LookupStep, PoolStep, WritersExist;
    if es == [] {
      NoWritersYet();
    } else {
      var k := |es| - 1;
      RunWritersExist(es[..k]);
      RunClock(es[..k]);
      StepWritersExist(Run(es[..k]).pool, Run(es[..k]).lookups, Run(es[..k]).stopped, k, es[k]);
    }
  }

  lemma NoWritersYet()
    ensures WritersExist(Init.pool, 0)
  {
  }

  /** `get_or_create` never returns a dead writer. */
  lemma WriterIsLive(es: seq<Event>, p: PeerId)
    ensures WriterFor(Run(es).pool, |es|, p) !in Run(es).pool.dead
  {
    hide Run;
    RunWritersExist(es);
  }

  /** At step `j` the loop dropped its sender for the peer. */
  ghost predicate ResetAt(es: seq<Event>, j: nat, p: PeerId)
    requires j < |es|
  {
    !Run(es[..j]).stopped && Resets(Run(es[..j]).lookups, es[j], p)
  }

  lemma ResetForgets(o: Pool, l: Lookups, id: nat, e: Event, p: PeerId)
    requires Resets(l, e, p)
    ensures p !in PoolStep(o, l, false, id, e).senders
  {
  }

  lemma PoolStepSenders(o: Pool, l: Lookups, stopped: bool, id: nat, e: Event, p: PeerId)
    ensures
      var o' := PoolStep(o, l, stopped, id, e);
      p in o'.senders ==> o'.senders[p] == id || (p in o.senders && o'.senders[p] == o.senders[p])
  {
  }

  lemma {:induction false} SendersAreFresh(es: seq<Event>, j: nat, p: PeerId)
    requires j < |es| && ResetAt(es, j, p)
    ensures p in Run(es).pool.senders ==> Run(es).pool.senders[p] > j
    decreases |es|
  {
    hide LookupStep, PoolStep, Resets;
    var k := |es| - 1;
    var before := Run(es[..k]);
    RunClock(es[..k]);
    if j == k {
      ResetForgets(before.pool, before.lookups, k, es[k], p);
    } else {
      PrefixOfPrefix(es, k, j);
      SendersAreFresh(es[..k], j, p);
      PoolStepSenders(before.pool, before.lookups, before.stopped, k, es[k], p);
    }
  }

  /** Every message handed over after a reset goes to a writer created after it. */
  lemma SendUsesFreshWriter(es: seq<Event>, j: nat, k: nat)
    requires j < k < |es| && es[k].Send? && ResetAt(es, j, es[k].peer)
    ensures WriterFor(Run(es[..k]).pool, k, es[k].peer) > j
  {
    hide Run, Resets;
    PrefixOfPrefix(es, k, j);
    assert es[..k][j] == es[j];
    SendersAreFresh(es[..k], j, es[k].peer);
  }

  /** A lookup that turns Direct at step `k` makes that step a reset, so later
      messages to the peer use a writer opened after the direct connection. */
  lemma DirectIsReset(es: seq<Event>, i: nat, k: nat)
    requires i < k < |es| && es[i].ConnectViaRelay?
    requires StatusOf(es[..k], i).Waiting? && StatusOf(es[..k + 1], i) == Answered(Direct)
    ensures ResetAt(es, k, es[i].peer)
  {
    hide Run;
    assert es[..k + 1][..k] == es[..k];
    EachLookupOnItsOwn(es[..k], i);
    RunClock(es[..k]);
    if Run(es[..k]).stopped { StoppedNobodyWaits(es[..k], i); }
  }

  // ---- Order and completion -----------------------------------------------

  predicate Accepted(es: seq<Event>, i: nat) {
    i < |es| && es[i].Send? && Shutdown !in es[..i]
  }

  /** All messages handed to writers, in order of the commands. */
  function Handed(es: seq<Event>): seq<Job> {
    if es == [] then [] else
      var k := |es| - 1;
      Handed(es[..k])
      + if Accepted(es, k) then [Job(k, WriterFor(Run(es[..k]).pool, k, es[k].peer), es[k].get)] else []
  }

  /** The writer's messages: those it is done with, then those still queued. */
  ghost predicate InOrder(o: Pool, handed: seq<Job>, w: nat) {
    Select(OfWriter(w), handed) == Select(OfWriter(w), o.processed) + Select(OfWriter(w), o.backlog)
  }

  lemma SelectAppend(w: nat, js: seq<Job>, j: Job)
    ensures Select(OfWriter(w), js + [j]) == Select(OfWriter(w), js) + if j.writer == w then [j] else []
  {
    SelectCat(OfWriter(w), js, [j]);
    SelectOne(OfWriter(w), j);
  }

  lemma SelectOthers(w: nat, v: nat, js: seq<Job>)
    ensures Select(OfWriter(w), Select(NotOfWriter(v), js)) == if w == v then [] else Select(OfWriter(w), js)
    ensures Select(OfWriter(w), Select(OfWriter(v), js)) == if w == v then Select(OfWriter(w), js) else []
  {
    if w == v {
      SelectApart(OfWriter(w), NotOfWriter(v), js);
      SelectWithin(OfWriter(w), OfWriter(v), js);
    } else {
      SelectWithin(OfWriter(w), NotOfWriter(v), js);
      SelectApart(OfWriter(w), OfWriter(v), js);
    }
  }

  lemma TakesInOrder(o: Pool, handed: seq<Job>, w: nat, v: nat, ok: bool)
    requires InOrder(o, handed, w)
    ensures InOrder(OnWriterTakes(o, v, ok), handed, w)
  {
    hide Select;
    var i := FirstJob(o.backlog, v);
    if v !in o.dead && i < |o.backlog| {
      SelectAppend(w, o.processed, o.backlog[i]);
      if w == v {
        SelectTake(OfWriter(w), o.backlog, i);
        var a, x, b := Select(OfWriter(w), o.processed), [o.backlog[i]], Select(OfWriter(w), RemoveAt(o.backlog, i));
        assert a + (x + b) == (a + x) + b;
      } else {
        SelectSkip(OfWriter(w), o.backlog, i);
      }
    }
  }

  lemma DiesInOrder(o: Pool, handed: seq<Job>, w: nat, v: nat)
    requires InOrder(o, handed, w)
    ensures InOrder(OnWriterDies(o, v), handed, w)
  {
    hide Select;
    if v in o.writers {
      SelectOthers(w, v, o.backlog);
      SelectCat(OfWriter(w), o.processed, Select(OfWriter(v), o.backlog));
    }
  }

  lemma SendInOrder(o: Pool, handed: seq<Job>, w: nat, id: nat, p: PeerId, get: bool)
    requires InOrder(o, handed, w)
    ensures InOrder(OnSend(o, id, p, get), handed + [Job(id, WriterFor(o, id, p), get)], w)
  {
    hide Select;
    var j := Job(id, WriterFor(o, id, p), get);
    SelectAppend(w, handed, j);
    SelectAppend(w, o.backlog, j);
    var x := if j.writer == w then [j] else [];
    var a, b := Select(OfWriter(w), o.processed), Select(OfWriter(w), o.backlog);
    assert (a + b) + x == a + (b + x);
  }

  lemma PoolStepInOrder(o: Pool, l: Lookups, stopped: bool, id: nat, e: Event, handed: seq<Job>, w: nat)
    requires InOrder(o, handed, w)
    ensures InOrder(PoolStep(o, l, stopped, id, e),
                    handed + if e.Send? && !stopped then [Job(id, WriterFor(o, id, e.peer), e.get)] else [], w)
  {
    hide InOrder, OnSend, OnWriterTakes, OnWriterDies, WriterFor, Resets;
    assert handed + [] == handed;
    if e.WriterTakes? {
      TakesInOrder(o, handed, w, e.writer, e.ok);
    } else if e.WriterDies? {
      DiesInOrder(o, handed, w, e.writer);
    } else if e.Send? && !stopped {
      SendInOrder(o, handed, w, id, e.peer, e.get);
    } else if e.Closed? || e.Established? || e.Dcutr? {
      ForgetInOrder(o, handed, w, e.peer);
    }
  }

  lemma ForgetInOrder(o: Pool, handed: seq<Job>, w: nat, p: PeerId)
    requires InOrder(o, handed, w)
    ensures InOrder(ForgetSender(o, p), handed, w)
  {
  }

  /** In every run, each writer finishes its messages in the order the commands
      were processed, even when its sender has left the pool. */
  lemma {:induction false} WritersKeepOrder(es: seq<Event>, w: nat)
    ensures InOrder(Run(es).pool, Handed(es), w)
    decreases |es|
  {
    if es != [] {
      hide LookupStep, PoolStep, InOrder, WriterFor;
      var k := |es| - 1;
      WritersKeepOrder(es[..k], w);
      RunClock(es[..k]);
      var before := Run(es[..k]);
      PoolStepInOrder(before.pool, before.lookups, before.stopped, k, es[k], Handed(es[..k]), w);
    }
  }

  function JobIds(js: seq<Job>): seq<nat> { seq(|js|, i requires 0 <= i < |js| => js[i].id) }

  function ReportIds(rs: seq<Report>): seq<nat> { seq(|rs|, i requires 0 <= i < |rs| => rs[i].id) }

  lemma JobIdsCat(a: seq<Job>, b: seq<Job>)
    ensures multiset(JobIds(a + b)) == multiset(JobIds(a)) + multiset(JobIds(b))
  {
    assert JobIds(a + b) == JobIds(a) + JobIds(b);
  }

  lemma ReportIdsCat(a: seq<Report>, b: seq<Report>)
    ensures multiset(ReportIds(a + b)) == multiset(ReportIds(a)) + multiset(ReportIds(b))
  {
    assert ReportIds(a + b) == ReportIds(a) + ReportIds(b);
  }

  lemma JobIdsRemove(js: seq<Job>, i: nat)
    requires i < |js|
    ensures multiset(JobIds(js)) == multiset(JobIds(RemoveAt(js, i))) + multiset{js[i].id}
  {
    assert JobIds(RemoveAt(js, i)) == RemoveAt(JobIds(js), i);
    RemoveAtKeepsTheRest(JobIds(js), i);
  }

  lemma {:induction false} JobIdsSplit(js: seq<Job>, w: nat)
    ensures multiset(JobIds(js))
         == multiset(JobIds(Select(OfWriter(w), js))) + multiset(JobIds(Select(NotOfWriter(w), js)))
    decreases |js|
  {
    if js != [] {
      var k := |js| - 1;
      JobIdsSplit(js[..k], w);
      JobIdsCat(js[..k], [js[k]]);
      assert js == js[..k] + [js[k]];
      if js[k].writer == w {
        JobIdsCat(Select(OfWriter(w), js[..k]), [js[k]]);
        assert Select(NotOfWriter(w), js) == Select(NotOfWriter(w), js[..k]);
      } else {
        JobIdsCat(Select(NotOfWriter(w), js[..k]), [js[k]]);
        assert Select(OfWriter(w), js) == Select(OfWriter(w), js[..k]);
      }
    }
  }

  /** Where a message is: queued at its writer, or done with. */
  ghost function JobPlaces(o: Pool, i: nat): nat {
    multiset(JobIds(o.backlog))[i] + multiset(JobIds(o.processed))[i]
  }

  ghost function ReportCount(o: Pool, i: nat): nat { multiset(ReportIds(o.reports))[i] }

  ghost function ProcessedCount(o: Pool, i: nat): nat { multiset(JobIds(o.processed))[i] }

  /** The queued messages numbered `i` are no get requests. */
  ghost predicate NoGet(o: Pool, i: nat) { forall j | j in o.backlog && j.id == i :: !j.get }

  lemma {:induction false} FailuresReported(js: seq<Job>)
    ensures multiset(ReportIds(FailureReports(js))) == multiset(JobIds(js))
    decreases |js|
  {
    if js != [] {
      var k := |js| - 1;
      FailuresReported(js[..k]);
      JobIdsCat(js[..k], [js[k]]);
      assert js == js[..k] + [js[k]];
      ReportIdsCat(FailureReports(js[..k]), ReportOf(js[k], false));
      assert ReportIds([Report(js[k].id, false)]) == [js[k].id] && JobIds([js[k]]) == [js[k].id];
    }
  }

  lemma TakesMoves(o: Pool, w: nat, ok: bool, i: nat)
    ensures JobPlaces(OnWriterTakes(o, w, ok), i) == JobPlaces(o, i)
    ensures
      var o' := OnWriterTakes(o, w, ok);
      NoGet(o, i) ==> ReportCount(o', i) - ReportCount(o, i) == ProcessedCount(o', i) - ProcessedCount(o, i)
  {
    var k := FirstJob(o.backlog, w);
    if w !in o.dead && k < |o.backlog| {
      var j := o.backlog[k];
      JobIdsRemove(o.backlog, k);
      JobIdsCat(o.processed, [j]);
      assert JobIds([j]) == [j.id];
      ReportIdsCat(o.reports, ReportOf(j, ok));
      assert ReportIds([Report(j.id, ok)]) == [j.id];
      assert j in o.backlog;
    }
  }

  lemma DiesMoves(o: Pool, w: nat, i: nat)
    ensures JobPlaces(OnWriterDies(o, w), i) == JobPlaces(o, i)
    ensures
      var o' := OnWriterDies(o, w);
      ReportCount(o', i) - ReportCount(o, i) == ProcessedCount(o', i) - ProcessedCount(o, i)
  {
    if w in o.writers {
      var lost := Select(OfWriter(w), o.backlog);
      JobIdsSplit(o.backlog, w);
      JobIdsCat(o.processed, lost);
      FailuresReported(lost);
      ReportIdsCat(o.reports, FailureReports(lost));
    }
  }

  lemma SendMoves(o: Pool, id: nat, p: PeerId, get: bool, i: nat)
    ensures
      var o' := OnSend(o, id, p, get);
      && JobPlaces(o', i) == JobPlaces(o, i) + Hit(i == id)
      && ReportCount(o', i) == ReportCount(o, i) && ProcessedCount(o', i) == ProcessedCount(o, i)
  {
    var j := Job(id, WriterFor(o, id, p), get);
    JobIdsCat(o.backlog, [j]);
    assert JobIds([j]) == [id];
  }

  /** How one step moves message `i`. */
  lemma PoolStepMoves(o: Pool, l: Lookups, stopped: bool, id: nat, e: Event, i: nat)
    ensures
      var o' := PoolStep(o, l, stopped, id, e);
      && JobPlaces(o', i) == JobPlaces(o, i) + Hit(e.Send? && !stopped && i == id)
      && (NoGet(o, i) ==>
            ReportCount(o', i) - ReportCount(o, i) == ProcessedCount(o', i) - ProcessedCount(o, i))
  {
    hide JobPlaces, ReportCount, ProcessedCount, OnSend, OnWriterTakes, OnWriterDies, Resets;
    if e.WriterTakes? {
      TakesMoves(o, e.writer, e.ok, i);
    } else if e.WriterDies? {
      DiesMoves(o, e.writer, i);
    } else if e.Send? && !stopped {
      SendMoves(o, id, e.peer, e.get, i);
    } else if e.Closed? || e.Established? || e.Dcutr? {
      ForgetMoves(o, e.peer, i);
    }
  }

  lemma ForgetMoves(o: Pool, p: PeerId, i: nat)
    ensures
      var o' := ForgetSender(o, p);
      JobPlaces(o', i) == JobPlaces(o, i) && ReportCount(o', i) == ReportCount(o, i) && ProcessedCount(o', i) == ProcessedCount(o, i)
  {
  }

  /** Every message an accepted command sent is in exactly one place, once:
      queued at its writer or done with. */
  lemma {:induction false} EachMessageInOnePlace(es: seq<Event>, i: nat)
    ensures JobPlaces(Run(es).pool, i) == Hit(Accepted(es, i))
    decreases |es|
  {
    if es != [] {
      hide JobPlaces, PoolStep, LookupStep;
      var k := |es| - 1;
      EachMessageInOnePlace(es[..k], i);
      RunClock(es[..k]);
      var before := Run(es[..k]);
      PoolStepMoves(before.pool, before.lookups, before.stopped, k, es[k], i);
      if i < k { PrefixOfPrefix(es, k, i); }
    }
  }

  ghost predicate JobsTrue(o: Pool, es: seq<Event>) {
    forall j | j in o.backlog :: j.id < |es| && es[j.id].Send? && es[j.id].get == j.get
  }

  lemma StepJobsTrue(o: Pool, l: Lookups, stopped: bool, es: seq<Event>, e: Event)
    requires JobsTrue(o, es)
    ensures JobsTrue(PoolStep(o, l, stopped, |es|, e), es + [e])
  {
    var o' := PoolStep(o, l, stopped, |es|, e);
    forall j | j in o'.backlog ensures j in o.backlog || (e.Send? && j.id == |es| && j.get == e.get) {
      if e.WriterTakes? {
        var k := FirstJob(o.backlog, e.writer);
        if k < |o.backlog| { RemoveAtKeepsTheRest(o.backlog, k); }
      } else if e.WriterDies? {
        SelectIn(NotOfWriter(e.writer), o.backlog, j);
      }
    }
  }

  lemma {:induction false} RunJobsTrue(es: seq<Event>)
    ensures JobsTrue(Run(es).pool, es)
    decreases |es|
  {
    if es != [] {
      hide PoolStep, LookupStep, JobsTrue;
      var k := |es| - 1;
      RunJobsTrue(es[..k]);
      RunClock(es[..k]);
      var before := Run(es[..k]);
      StepJobsTrue(before.pool, before.lookups, before.stopped, es[..k], es[k]);
      assert es == es[..k] + [es[k]];
    } else {
      InitJobsTrue();
    }
  }

  lemma InitJobsTrue()
    ensures JobsTrue(Init.pool, [])
  {
  }

  /** In every run, each send or put command the loop accepted is queued at its
      writer with no completion item, or done with exactly one: whatever the
      writer's outcome, and even if its sender left the pool or its writer died. */
  lemma {:induction false} ExactlyOneCompletion(es: seq<Event>, i: nat)
    requires i < |es| ==> !es[i].Send? || !es[i].get
    ensures ReportCount(Run(es).pool, i) == ProcessedCount(Run(es).pool, i)
    ensures ProcessedCount(Run(es).pool, i) <= 1
    decreases |es|
  {
    EachMessageInOnePlace(es, i);
    if es != [] {
      hide PoolStep, LookupStep, ReportCount;
      var k := |es| - 1;
      ExactlyOneCompletion(es[..k], i);
      RunJobsTrue(es[..k]);
      var before := Run(es[..k]);
      assert NoGet(before.pool, i) by {
        if i < k { assert es[..k][i] == es[i]; }
      }
      PoolStepMoves(before.pool, before.lookups, before.stopped, before.clock, es[k], i);
    }
  }
}
