/** The loop as it runs: tables updated in place, one method per arm of the
    select, the timeout arm's two loops, and the steps of the writer tasks.  A
    ghost history ties the tables to the runs of the loop. */
module Swarm {
  import opened Prelude
  import opened SwarmLoop
  import opened SwarmRuns

  class EventLoop {
    var steps: nat
    var stopped: bool
    var pending: map<PeerId, Pending>
    var answers: multiset<Reply>
    var superseded: multiset<nat>
    var dropped: multiset<nat>
    var senders: map<PeerId, nat>
    var writers: set<nat>
    var dead: set<nat>
    var backlog: seq<Job>
    var processed: seq<Job>
    var reports: seq<Report>
    ghost var history: seq<Event>

    ghost function Table(): Lookups
      reads this`pending, this`answers, this`superseded, this`dropped
    {
      Lookups(pending, answers, superseded, dropped)
    }

    ghost function Writers(): Pool
      reads this`senders, this`writers, this`dead, this`backlog, this`processed, this`reports
    {
      Pool(senders, writers, dead, backlog, processed, reports)
    }

    ghost function Model(): State
      reads this
    {
      State(steps, stopped, Table(), Writers())
    }

    /** The tables are what the turns so far make of them. */
    ghost predicate Valid()
      reads this
    {
      Model() == Run(history)
    }

    constructor ()
      ensures Valid() && history == []
    {
      steps, stopped := 0, false;
      pending, answers, superseded, dropped := map[], multiset{}, multiset{}, multiset{};
      senders, writers, dead, backlog, processed, reports := map[], {}, {}, [], [], [];
      history := [];
    }

    /** The tables have made step `e`. */
    ghost method Record(e: Event)
      requires Model() == Step(Run(history), e)
      modifies this`history
      ensures Valid() && history == old(history) + [e]
    {
      hide Run, Step;
      RunOneMore(history, e);
      history := history + [e];
    }

    method Answer(p: PeerId, a: Answer)
      requires p in pending
      modifies this`pending, this`answers
      ensures Table() == Resolve(old(Table()), p, a)
    {
      var lookup := pending[p].lookup;
      pending := pending - {p};
      answers := answers + multiset{Reply(lookup, a)};
    }

    method ConnectionEstablished(p: PeerId, relayed: bool)
      requires Valid() && !stopped
      modifies this
      ensures Valid() && history == old(history) + [Established(p, relayed)]
      ensures senders == if p in old(pending) && !relayed then old(senders) - {p} else old(senders)
    {
      hide Run, Resolve, LookupStep, PoolStep;
      EstablishedEffect(Table(), Writers(), steps, p, relayed);
      if p in pending {
        if relayed {
          pending := pending[p := pending[p].(relayed := true)];
        } else {
          Answer(p, Direct);
          senders := senders - {p};
        }
      }
      steps := steps + 1;
      Record(Established(p, relayed));
    }

    method ConnectionClosed(p: PeerId, remaining: nat)
      requires Valid() && !stopped
      modifies this
      ensures Valid() && history == old(history) + [Closed(p, remaining)]
      ensures senders == (if remaining == 0 then old(senders) - {p} else old(senders)) && pending == old(pending)
    {
      hide Run;
      if remaining == 0 {
        senders := senders - {p};
      }
      steps := steps + 1;
      Record(Closed(p, remaining));
    }

    method OutgoingConnectionError(who: Option<PeerId>)
      requires Valid() && !stopped
      modifies this
      ensures Valid() && history == old(history) + [DialError(who)]
    {
      hide Run, Resolve;
      if who.Some? && who.value in pending && !pending[who.value].relayed {
        Answer(who.value, Failed);
      }
      steps := steps + 1;
      Record(DialError(who));
    }

    method DcutrEvent(p: PeerId, ok: bool)
      requires Valid() && !stopped
      modifies this
      ensures Valid() && history == old(history) + [Dcutr(p, ok)]
      ensures senders == if p in old(pending) && ok then old(senders) - {p} else old(senders)
    {
      hide Run, Resolve;
      if p in pending {
        if ok {
          senders := senders - {p};
          Answer(p, Direct);
        } else {
          Answer(p, RelayOnly);
        }
      }
      steps := steps + 1;
      Record(Dcutr(p, ok));
    }

    method ConnectThroughRelay(p: PeerId, dialed: bool, now: nat)
      requires Valid() && !stopped
      modifies this
      ensures Valid() && history == old(history) + [ConnectViaRelay(p, dialed, now)]
    {
      hide Run, PoolStep;
      PoolRests(Writers(), Table(), steps, ConnectViaRelay(p, dialed, now));
      if dialed {
        if p in pending {
          superseded := superseded + multiset{pending[p].lookup};
        }
        pending := pending[p := Pending(steps, false, now + DCUTR_TIMEOUT)];
      } else {
        answers := answers + multiset{Reply(steps, Failed)};
      }
      steps := steps + 1;
      Record(ConnectViaRelay(p, dialed, now));
    }

    method GetOrCreate(p: PeerId) returns (w: nat)
      requires Valid()
      modifies this`senders, this`writers
      ensures w == WriterFor(old(Writers()), steps, p) && w !in dead
      ensures p in old(senders) && old(senders)[p] !in dead ==> w == old(senders)[p]
      ensures p !in old(senders) || old(senders)[p] in dead ==> w == steps && w !in old(writers)
      ensures senders == old(senders)[p := w] && writers == old(writers) + {w}
    {
      hide Run;
      RunClock(history);
      WriterIsLive(history, p);
      RunWritersExist(history);
      if p in senders && senders[p] !in dead {
        w := senders[p];
        assert senders[p := w] == senders && writers + {w} == writers;
      } else {
        w := steps;
        senders := senders[p := w];
        writers := writers + {w};
      }
    }

    method SendCommand(p: PeerId, get: bool)
      requires Valid() && !stopped
      modifies this
      ensures Valid() && history == old(history) + [Send(p, get)]
    {
      hide Run;
      var w := GetOrCreate(p);
      backlog := backlog + [Job(steps, w, get)];
      steps := steps + 1;
      Record(Send(p, get));
    }

    /** A writer task is done with its oldest message and reports the result. */
    method WriterDone(w: nat, ok: bool)
      requires Valid()
      modifies this
      ensures Valid() && history == old(history) + [WriterTakes(w, ok)]
    {
      hide Run, LookupStep;
      LookupsRest(Table(), stopped, steps, WriterTakes(w, ok));
      var i := 0;
      while i < |backlog| && backlog[i].writer != w
        invariant i <= |backlog| && forall k | 0 <= k < i :: backlog[k].writer != w
      {
        i := i + 1;
      }
      assert i == FirstJob(backlog, w);
      if w !in dead && i < |backlog| {
        var j := backlog[i];
        backlog := RemoveAt(backlog, i);
        processed := processed + [j];
        reports := reports + ReportOf(j, ok);
      }
      steps := steps + 1;
      Record(WriterTakes(w, ok));
    }

    /** A writer task ends: its queued messages fail, oldest first. */
    method WriterEnds(w: nat)
      requires Valid()
      modifies this
      ensures Valid() && history == old(history) + [WriterDies(w)]
    {
      hide Run, LookupStep, Select;
      LookupsRest(Table(), stopped, steps, WriterDies(w));
      if w in writers {
        var kept, lost, failed := SplitJobs(backlog, w);
        dead := dead + {w};
        backlog := kept;
        processed := processed + lost;
        reports := reports + failed;
      }
      steps := steps + 1;
      Record(WriterDies(w));
    }

    /** The sleep target computed at the top of the loop. */
    method NextDeadline(now: nat) returns (t: nat)
      ensures SleepTarget(Table(), now, t)
    {
      if pending == map[] {
        return now + 86_400_000;
      }
      var left := pending.Keys;
      var first :| first in left;
      t := pending[first].deadline;
      left := left - {first};
      while left != {}
        invariant left <= pending.Keys
        invariant forall p | p in pending && p !in left :: t <= pending[p].deadline
        invariant exists p | p in pending :: pending[p].deadline == t
        decreases left
      {
        var p :| p in left;
        if pending[p].deadline < t {
          t := pending[p].deadline;
        }
        left := left - {p};
      }
    }

    /** Answers every peer of a set, in any order. */
    method AnswerAll(gone: set<PeerId>)
      requires Apart(Table()) && gone <= pending.Keys
      modifies this`pending, this`answers
      ensures Table() == ResolvedAll(old(Table()), gone)
    {
      hide Resolve, ResolvedAll, Apart;
      ghost var l := Table();
      var left := gone;
      NoneResolved(l, gone);
      while left != {}
        invariant left <= gone && Table() == ResolvedAll(l, gone - left)
        decreases left
      {
        var p :| p in left;
        ResolvedMore(l, gone - left, p);
        assert gone - (left - {p}) == (gone - left) + {p};
        Answer(p, if pending[p].relayed then RelayOnly else Failed);
        left := left - {p};
      }
      assert gone - left == gone;
    }

    /** The timeout arm: collects the expired peers, then answers each. */
    method TimeoutFired(now: nat)
      requires Valid() && !stopped
      modifies this
      ensures Valid() && history == old(history) + [Timeout(now)]
    {
      hide Run, ResolvedAll, OnTimeout, PoolStep, Owned, Apart;
      RunOwned(history);
      OwnedApart(Table(), history);
      TimeoutResolvesAll(Table(), now);
      PoolRests(Writers(), Table(), steps, Timeout(now));
      var gone := set p | p in pending && pending[p].deadline <= now;
      AnswerAll(gone);
      steps := steps + 1;
      Record(Timeout(now));
    }

    method Stop()
      requires Valid() && !stopped
      modifies this
      ensures Valid() && history == old(history) + [Shutdown]
    {
      hide Run, PoolStep, LookupStep;
      PoolRests(Writers(), Table(), steps, Shutdown);
      StopsLookups(Table(), steps);
      dropped := dropped + multiset(set p | p in pending :: pending[p].lookup);
      pending := map[];
      stopped := true;
      steps := steps + 1;
      Record(Shutdown);
    }
  }

  /** The messages of other writers, those of writer `w`, and their failure reports. */
  method SplitJobs(js: seq<Job>, w: nat) returns (kept: seq<Job>, lost: seq<Job>, failed: seq<Report>)
    ensures kept == Select(NotOfWriter(w), js) && lost == Select(OfWriter(w), js) && failed == FailureReports(lost)
  {
    kept, lost, failed := [], [], [];
    var i := 0;
    while i < |js|
      invariant 0 <= i <= |js|
      invariant kept == Select(NotOfWriter(w), js[..i]) && lost == Select(OfWriter(w), js[..i])
      invariant failed == FailureReports(lost)
    {
      assert js[..i + 1][..i] == js[..i];
      if js[i].writer == w {
        assert (lost + [js[i]])[..|lost|] == lost;
        lost, failed := lost + [js[i]], failed + ReportOf(js[i], false);
      } else {
        kept := kept + [js[i]];
      }
      i := i + 1;
    }
    assert js[..|js|] == js;
  }

  // ---------------------------------------------------------------------
  //  What the runs guarantee, on the object
  // ---------------------------------------------------------------------

  /** A lookup in the object's table was started for its peer, is still waiting by
      its own history, and has been answered, superseded or dropped by nobody. */
  lemma PendingIsWaiting(q: EventLoop, p: PeerId)
    requires q.Valid() && p in q.pending
    ensures
      var i, es := q.pending[p].lookup, q.history;
      && i < |es| && es[i].ConnectViaRelay? && es[i].peer == p
      && StatusOf(es, i) == Waiting(q.pending[p].relayed)
      && q.pending[p].deadline == es[i].now + DCUTR_TIMEOUT
      && (forall a: Answer :: q.answers[Reply(i, a)] == 0) && q.superseded[i] == 0 && q.dropped[i] == 0
  {
    hide Run;
    RunOwned(q.history);
    EachLookupOnItsOwn(q.history, q.pending[p].lookup);
  }

  /** Each message the object accepted is queued once or done with once, and in
      command order at its writer. */
  lemma MessagesAreKept(q: EventLoop, i: nat, w: nat)
    requires q.Valid()
    ensures JobPlaces(q.Writers(), i) == Hit(Accepted(q.history, i))
    ensures InOrder(q.Writers(), Handed(q.history), w)
  {
    hide Run, JobPlaces, InOrder, Handed;
    EachMessageInOnePlace(q.history, i);
    WritersKeepOrder(q.history, w);
  }

  // ---- Helpers of the timeout arm -----------------------------------------

  /** All lookups of a set of peers answered as timed out. */
  ghost function ResolvedAll(l: Lookups, done: set<PeerId>): Lookups
    requires done <= l.pending.Keys
  {
    l.(pending := l.pending - done,
       answers := l.answers + multiset(set p | p in done :: TimeoutReply(l.pending[p])))
  }

  lemma NoneResolved(l: Lookups, gone: set<PeerId>)
    requires gone <= l.pending.Keys
    ensures gone - gone == {} && ResolvedAll(l, {}) == l
  {
    assert l.pending - {} == l.pending;
  }

  lemma TimeoutResolvesAll(l: Lookups, now: nat)
    ensures Expired(l, now) <= l.pending.Keys && OnTimeout(l, now) == ResolvedAll(l, Expired(l, now))
  {
  }

  lemma ResolvedMore(l: Lookups, done: set<PeerId>, p: PeerId)
    requires Apart(l) && done <= l.pending.Keys && p in l.pending && p !in done
    ensures
      var l' := ResolvedAll(l, done);
      && p in l'.pending && l'.pending[p] == l.pending[p]
      && Resolve(l', p, if l.pending[p].relayed then RelayOnly else Failed) == ResolvedAll(l, done + {p})
  {
    OneMoreReply(l, done, p);
    assert (l.pending - done) - {p} == l.pending - (done + {p});
  }

  lemma PoolRests(o: Pool, l: Lookups, id: nat, e: Event)
    requires e.ConnectViaRelay? || e.DialError? || e.Timeout? || e.Shutdown?
    ensures PoolStep(o, l, false, id, e) == o
  {
  }

  lemma StopsLookups(l: Lookups, id: nat)
    ensures LookupStep(l, false, id, Shutdown) == OnShutdown(l)
  {
  }

  lemma EstablishedEffect(l: Lookups, o: Pool, id: nat, p: PeerId, relayed: bool)
    ensures LookupStep(l, false, id, Established(p, relayed)) == OnEstablished(l, p, relayed)
    ensures PoolStep(o, l, false, id, Established(p, relayed))
         == if p in l.pending && !relayed then ForgetSender(o, p) else o
  {
  }

  lemma LookupsRest(l: Lookups, stopped: bool, id: nat, e: Event)
    requires e.WriterTakes? || e.WriterDies?
    ensures LookupStep(l, stopped, id, e) == l
  {
  }

  lemma OneMoreReply(l: Lookups, done: set<PeerId>, p: PeerId)
    requires Apart(l) && done <= l.pending.Keys && p in l.pending && p !in done
    ensures multiset(set q | q in done + {p} :: TimeoutReply(l.pending[q]))
         == multiset(set q | q in done :: TimeoutReply(l.pending[q])) + multiset{TimeoutReply(l.pending[p])}
  {
    var some := set q | q in done :: TimeoutReply(l.pending[q]);
    var more := set q | q in done + {p} :: TimeoutReply(l.pending[q]);
    var r := TimeoutReply(l.pending[p]);
    assert r !in some;
    assert more == some + {r} by {
      forall x | x in some + {r} ensures x in more {
        if x == r { assert p in done + {p}; }
        else { var q :| q in done && x == TimeoutReply(l.pending[q]); assert q in done + {p}; }
      }
    }
  }
}
