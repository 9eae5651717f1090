/** Which get a response completes, over whole runs, and a get from its issue to
    its completion. */
module GetRuns {
  import opened Prelude
  import opened Codec
  import opened Rma
  import opened Gets

  // ---------------------------------------------------------------------
  //  A response completes the get it answers, and when
  // ---------------------------------------------------------------------

  /** A get that may still be answered: pending, cancelled or failed, but not
      answered yet, or answered and possibly answered again. */
  ghost predicate Open(es: seq<Event>, once: bool, i: nat) {
    i < |es| && es[i].Issue? && !(once && AnsweredBefore(es, i, |es|))
  }

  /** What a caller can check before issuing a get: the operation is not pending
      and the place belongs to no get that may still be answered. */
  ghost predicate MayIssue(es: seq<Event>, once: bool, op: nat, key: Key) {
    && (forall e | e in Run(es).pending :: e.op != op)
    && (forall i | 0 <= i < |es| && es[i].Issue? && es[i].key == key :: !Open(es, once, i))
  }

  ghost predicate Disciplined(es: seq<Event>, once: bool) {
    forall t | 0 <= t < |es| && es[t].Issue? :: MayIssue(es[..t], once, es[t].op, es[t].key)
  }

  /** The response of step `t`, if it completes a get, completes the one it answers. */
  ghost predicate DirectedAt(es: seq<Event>, t: nat)
    requires t < |es| && es[t].Respond?
  {
    var before := Run(es[..t]);
    var i := FirstWith(before, es[t].key);
    i < |before.pending| ==> before.pending[i].issue == es[t].answers
  }

  ghost predicate Directed(es: seq<Event>) {
    forall t | 0 <= t < |es| && es[t].Respond? :: DirectedAt(es, t)
  }

  lemma PrefixOfPrefix(es: seq<Event>, n: nat, t: nat)
    requires t <= n <= |es|
    ensures es[..n][..t] == es[..t]
  {
  }

  lemma DisciplinedPrefix(es: seq<Event>, once: bool, n: nat)
    requires Disciplined(es, once) && n <= |es|
    ensures Disciplined(es[..n], once)
  {
    hide MayIssue;
    forall t | 0 <= t < n && es[..n][t].Issue? ensures MayIssue(es[..n][..t], once, es[..n][t].op, es[..n][t].key) {
      PrefixOfPrefix(es, n, t);
    }
  }

  /** Of two gets into one place the earlier is no longer open. */
  lemma OneOpenPerPlace(es: seq<Event>, once: bool, i: nat, j: nat)
    requires Disciplined(es, once) && i < j < |es|
    requires es[i].Issue? && es[j].Issue? && es[i].key == es[j].key
    ensures !Open(es, once, i)
  {
    hide Run;
    assert MayIssue(es[..j], once, es[j].op, es[j].key);
    assert es[..j][i] == es[i];
    assert AnsweredBefore(es[..j], i, j);
    AnsweredPrefix(es, i, j, j);
  }

  /** What the pending list says about one of its entries. */
  ghost predicate TrueEntry(es: seq<Event>, once: bool, t: Table, e: Entry) {
    && e.issue < |es| && es[e.issue].Issue? && es[e.issue].op == e.op
    && HasKey(t, e.op, es[e.issue].key) && Open(es, once, e.issue)
  }

  ghost predicate InIssueOrder(es: seq<Entry>) {
    forall a, b | 0 <= a < b < |es| :: es[a].issue < es[b].issue
  }

  /** The pending list holds open gets, each once, under their own places. */
  ghost predicate Sound(es: seq<Event>, once: bool, t: Table) {
    (forall e | e in t.pending :: TrueEntry(es, once, t, e)) && InIssueOrder(t.pending)
  }

  lemma OpenLater(es: seq<Event>, once: bool, e: Event, i: nat)
    requires Open(es, once, i) && (e.Respond? ==> e.answers != i)
    ensures Open(es + [e], once, i)
  {
    var fs := es + [e];
    forall u | 0 <= u < |fs| && fs[u].Respond? ensures once ==> fs[u].answers != i {
      assert u < |es| ==> es[u] == fs[u];
    }
  }

  lemma OpenAtIssue(es: seq<Event>, once: bool, e: Event)
    requires Genuine(es, once) && e.Issue?
    ensures Open(es + [e], once, |es|)
  {
    var fs := es + [e];
    forall u | 0 <= u < |fs| && fs[u].Respond? ensures fs[u].answers != |es| {
      assert es[u] == fs[u];
      assert AnswersGet(es, once, u);
    }
  }

  /** An entry whose place is not overwritten stays true when its get is not answered. */
  lemma EntryStays(es: seq<Event>, once: bool, t: Table, t': Table, e: Event, x: Entry)
    requires TrueEntry(es, once, t, x) && (e.Respond? ==> e.answers != x.issue)
    requires HasKey(t, x.op, es[x.issue].key) ==> HasKey(t', x.op, es[x.issue].key)
    ensures TrueEntry(es + [e], once, t', x)
  {
    OpenLater(es, once, e, x.issue);
    assert (es + [e])[x.issue] == es[x.issue];
  }

  lemma IssueSound(es: seq<Event>, once: bool, e: Event)
    requires Genuine(es, once) && e.Issue? && MayIssue(es, once, e.op, e.key)
    requires Sound(es, once, Run(es)) && Run(es).clock == |es|
    ensures Sound(es + [e], once, Step(Run(es), e))
  {
    hide Run, Open, TrueEntry;
    var t, t' := Run(es), Step(Run(es), e);
    forall x | x in t'.pending ensures TrueEntry(es + [e], once, t', x) {
      if x in t.pending {
        EntryStays(es, once, t, t', e, x);
      } else {
        NewEntryTrue(es, once, t', e);
      }
    }
    EntriesBefore(es, once, t);
  }

  lemma NewEntryTrue(es: seq<Event>, once: bool, t: Table, e: Event)
    requires Genuine(es, once) && e.Issue? && HasKey(t, e.op, e.key)
    ensures TrueEntry(es + [e], once, t, Entry(e.op, |es|))
  {
    OpenAtIssue(es, once, e);
  }

  lemma EntriesBefore(es: seq<Event>, once: bool, t: Table)
    requires Sound(es, once, t)
    ensures forall i | 0 <= i < |t.pending| :: t.pending[i].issue < |es|
  {
    forall i | 0 <= i < |t.pending| ensures t.pending[i].issue < |es| {
      assert t.pending[i] in t.pending;
    }
  }

  /** Entries other than the i-th stay true when the i-th leaves. */
  lemma RemoveSound(es: seq<Event>, once: bool, t: Table, t': Table, e: Event, i: nat)
    requires Sound(es, once, t) && i < |t.pending| && t'.keys == t.keys
    requires t'.pending == RemoveAt(t.pending, i)
    requires e.Respond? ==> e.answers == t.pending[i].issue
    ensures Sound(es + [e], once, t')
  {
    hide TrueEntry;
    forall x | x in t'.pending ensures TrueEntry(es + [e], once, t', x) {
      var j :| 0 <= j < |t.pending| && j != i && t.pending[j] == x;
      assert x.issue != t.pending[i].issue;
      assert x in t.pending;
      EntryStays(es, once, t, t', e, x);
    }
  }

  lemma KeepSound(es: seq<Event>, once: bool, t: Table, t': Table, e: Event)
    requires Sound(es, once, t) && t'.keys == t.keys && t'.pending == t.pending
    requires forall x | x in t.pending :: e.Respond? ==> e.answers != x.issue
    ensures Sound(es + [e], once, t')
  {
    hide TrueEntry;
    forall x | x in t'.pending ensures TrueEntry(es + [e], once, t', x) {
      EntryStays(es, once, t, t', e, x);
    }
  }

  /** The first entry with the response's place is the get it answers. */
  lemma RespondFinds(es: seq<Event>, once: bool, t: Table, e: Event)
    requires Disciplined(es, once) && Sound(es, once, t) && e.Respond?
    requires Open(es, once, e.answers) && es[e.answers].key == e.key
    ensures
      var i := FirstWith(t, e.key);
      if i < |t.pending| then t.pending[i].issue == e.answers
      else forall x | x in t.pending :: x.issue != e.answers
  {
    hide Run;
    var i := FirstWith(t, e.key);
    if i < |t.pending| {
      var x := t.pending[i];
      assert x in t.pending && TrueEntry(es, once, t, x);
      if x.issue < e.answers {
        OneOpenPerPlace(es, once, x.issue, e.answers);
      } else if e.answers < x.issue {
        OneOpenPerPlace(es, once, e.answers, x.issue);
      }
    } else {
      forall x | x in t.pending ensures x.issue != e.answers {
        assert TrueEntry(es, once, t, x);
        var j :| 0 <= j < |t.pending| && t.pending[j] == x;
      }
    }
  }

  lemma FirstIgnoresClock(t: Table, key: Key, clock: nat)
    ensures FirstWith(t.(clock := clock), key) == FirstWith(t, key)
  {
    var i, j := FirstWith(t.(clock := clock), key), FirstWith(t, key);
    assert forall op :: HasKey(t.(clock := clock), op, key) == HasKey(t, op, key);
  }

  lemma RespondSound(es: seq<Event>, once: bool, e: Event)
    requires Disciplined(es, once) && Sound(es, once, Run(es)) && e.Respond?
    requires Open(es, once, e.answers) && es[e.answers].key == e.key
    ensures Sound(es + [e], once, Step(Run(es), e))
  {
    hide Run, Sound, Disciplined, Open;
    var t, t' := Run(es), Step(Run(es), e);
    RespondFinds(es, once, t, e);
    FirstIgnoresClock(t, e.key, t.clock + 1);
    var i := FirstWith(t, e.key);
    if i < |t.pending| {
      RemoveSound(es, once, t, t', e, i);
    } else {
      KeepSound(es, once, t, t', e);
    }
  }

  lemma OtherSound(es: seq<Event>, once: bool, e: Event)
    requires Sound(es, once, Run(es)) && (e.Cancel? || e.RequestFailed?)
    ensures Sound(es + [e], once, Step(Run(es), e))
  {
    hide Run, Sound;
    var t, t' := Run(es), Step(Run(es), e);
    if e.Cancel? && FirstOp(t.pending, e.op) < |t.pending| {
      RemoveSound(es, once, t, t', e, FirstOp(t.pending, e.op));
    } else {
      KeepSound(es, once, t, t', e);
    }
  }

  lemma AnsweredIsOpen(es: seq<Event>, once: bool)
    requires es != [] && Genuine(es, once) && es[|es| - 1].Respond?
    ensures
      var k := |es| - 1;
      Open(es[..k], once, es[k].answers) && es[..k][es[k].answers].key == es[k].key
  {
    var k := |es| - 1;
    assert AnswersGet(es, once, k);
    AnsweredPrefix(es, es[k].answers, k, k);
  }

  /** Under the discipline the pending list is sound after every genuine run. */
  lemma {:induction false} RunSound(es: seq<Event>, once: bool)
    requires Genuine(es, once) && Disciplined(es, once)
    ensures Sound(es, once, Run(es))
    decreases |es|
  {
    if es != [] {
      hide Sound, Step, MayIssue, Genuine, Open;
      var k := |es| - 1;
      GenuinePrefix(es, once, k);
      DisciplinedPrefix(es, once, k);
      RunSound(es[..k], once);
      RunClock(es[..k]);
      assert es == es[..k] + [es[k]];
      if es[k].Issue? {
        IssueSound(es[..k], once, es[k]);
      } else if es[k].Respond? {
        AnsweredIsOpen(es, once);
        RespondSound(es[..k], once, es[k]);
      } else {
        OtherSound(es[..k], once, es[k]);
      }
    }
  }

  /** In every disciplined run, every response that completes a get completes the
      one it answers. */
  lemma DisciplinedIsDirected(es: seq<Event>, once: bool)
    requires Genuine(es, once) && Disciplined(es, once)
    ensures Directed(es)
  {
    hide Run, Sound, Genuine, Disciplined, Open;
    forall t | 0 <= t < |es| && es[t].Respond? ensures DirectedAt(es, t) {
      GenuinePrefix(es, once, t);
      DisciplinedPrefix(es, once, t);
      RunSound(es[..t], once);
      GenuinePrefix(es, once, t + 1);
      assert es[..t + 1][..t] == es[..t] && es[..t + 1][t] == es[t];
      AnsweredIsOpen(es[..t + 1], once);
      RespondFinds(es[..t], once, Run(es[..t]), es[t]);
    }
  }

  // ---- The discipline is needed -----------------------------------------

  ghost predicate IssuesNothing(es: seq<Event>) { forall e | e in es :: !e.Issue? }

  /** The response `e`, right after `es`, completes another get than it answers. */
  lemma Misdirects(es: seq<Event>, e: Event)
    requires e.Respond?
    requires
      var t := Run(es);
      var i := FirstWith(t, e.key);
      i < |t.pending| && t.pending[i].issue != e.answers
    ensures !Directed(es + [e])
  {
    hide Run;
    assert (es + [e])[..|es|] == es;
    assert !DirectedAt(es + [e], |es|);
  }

  lemma {:induction false} EntriesAreOld(es: seq<Event>)
    ensures forall e | e in Run(es).pending :: e.issue < |es|
    decreases |es|
  {
    if es != [] {
      RunClock(es[..|es| - 1]);
      EntriesAreOld(es[..|es| - 1]);
    }
  }

  lemma RespondIsGenuine(es: seq<Event>, once: bool, i: nat)
    requires Genuine(es, once) && Open(es, once, i)
    ensures Genuine(es + [Respond(es[i].key, i)], once)
  {
    var e := Respond(es[i].key, i);
    assert (es + [e])[..|es|] == es;
    AnsweredPrefix(es + [e], i, |es|, |es|);
    GenuineMore(es, once, e);
  }

  /** A get issued against the discipline can be misdirected by the next response. */
  lemma BadIssueMisdirects(es: seq<Event>, once: bool, op: nat, key: Key) returns (e: Event)
    requires Genuine(es, once) && !MayIssue(es, once, op, key)
    ensures e.Respond? && Genuine(es + [Issue(op, key)] + [e], once) && !Directed(es + [Issue(op, key)] + [e])
  {
    var x := Issue(op, key);
    var fs := es + [x];
    GenuineMore(es, once, x);
    OpenAtIssue(es, once, x);
    RunOneMore(es, x);
    RunClock(es);
    EntriesAreOld(es);
    var t := Run(fs);
    var i, n := FirstWith(t, key), |Run(es).pending|;
    hide Run, Genuine;
    assert t.pending == Run(es).pending + [Entry(op, |es|)] && HasKey(t, op, key);
    assert t.pending[n].op == op;
    assert i <= n;
    if i < n {
      e := Respond(key, |es|);
      assert t.pending[i] in Run(es).pending;
      assert fs[|es|].key == key;
      RespondIsGenuine(fs, once, |es|);
    } else {
      var j := OtherOpen(es, once, op, key, t);
      e := Respond(key, j);
      OpenLater(es, once, x, j);
      assert fs[j] == es[j];
      RespondIsGenuine(fs, once, j);
    }
    Misdirects(fs, e);
  }

  /** When no pending get has the place, another open get does. */
  lemma OtherOpen(es: seq<Event>, once: bool, op: nat, key: Key, t: Table) returns (j: nat)
    requires !MayIssue(es, once, op, key) && t.pending == Run(es).pending + [Entry(op, |es|)]
    requires HasKey(t, op, key) && FirstWith(t, key) == |Run(es).pending|
    ensures Open(es, once, j) && es[j].key == key
  {
    hide Run, Open;
    var ps := Run(es).pending;
    forall e | e in ps ensures e.op != op {
      var i :| 0 <= i < |ps| && ps[i] == e;
      assert t.pending[i] == e;
    }
    j :| 0 <= j < |es| && es[j].Issue? && es[j].key == key && Open(es, once, j);
  }

  lemma IssuingNothingStaysDisciplined(es: seq<Event>, once: bool, more: seq<Event>)
    requires Disciplined(es, once) && IssuesNothing(more)
    ensures Disciplined(es + more, once)
  {
    hide MayIssue;
    var fs := es + more;
    assert forall t | |es| <= t < |fs| :: fs[t] == more[t - |es|];
    forall t | 0 <= t < |fs| && fs[t].Issue? ensures MayIssue(fs[..t], once, fs[t].op, fs[t].key) {
      assert t < |es|;
      assert fs[..t] == es[..t];
    }
  }

  lemma IssueStaysDisciplined(es: seq<Event>, once: bool, op: nat, key: Key)
    requires Disciplined(es, once) && MayIssue(es, once, op, key)
    ensures Disciplined(es + [Issue(op, key)], once)
  {
    hide MayIssue;
    var fs := es + [Issue(op, key)];
    forall t | 0 <= t < |fs| && fs[t].Issue? ensures MayIssue(fs[..t], once, fs[t].op, fs[t].key) {
      assert fs[..t] == es[..t];
      assert es[..|es|] == es;
    }
  }

  /** After a disciplined run, issuing a get is safe in every continuation that
      issues no further ones, if and only if its operation is not pending and its
      place belongs to no get that may still be answered. */
  lemma IssueIsSafeIff(es: seq<Event>, once: bool, op: nat, key: Key)
    requires Genuine(es, once) && Disciplined(es, once)
    ensures MayIssue(es, once, op, key)
       <==> forall more | IssuesNothing(more) && Genuine(es + [Issue(op, key)] + more, once) ::
              Directed(es + [Issue(op, key)] + more)
  {
    hide MayIssue, Genuine, Disciplined, Directed;
    var fs := es + [Issue(op, key)];
    if MayIssue(es, once, op, key) {
      IssueStaysDisciplined(es, once, op, key);
      forall more | IssuesNothing(more) && Genuine(fs + more, once) ensures Directed(fs + more) {
        IssuingNothingStaysDisciplined(fs, once, more);
        DisciplinedIsDirected(fs + more, once);
      }
    } else {
      var e := BadIssueMisdirects(es, once, op, key);
      assert IssuesNothing([e]) && !Directed(fs + [e]);
    }
  }

  lemma {:induction false} FirstBreach(es: seq<Event>, once: bool) returns (t: nat)
    requires !Disciplined(es, once)
    ensures t < |es| && es[t].Issue? && Disciplined(es[..t], once) && !MayIssue(es[..t], once, es[t].op, es[t].key)
    decreases |es|
  {
    hide MayIssue;
    var k := |es| - 1;
    if Disciplined(es[..k], once) {
      t := k;
      if !es[k].Issue? || MayIssue(es[..k], once, es[k].op, es[k].key) {
        forall u | 0 <= u < |es| && es[u].Issue? ensures MayIssue(es[..u], once, es[u].op, es[u].key) {
          if u < k { PrefixOfPrefix(es, k, u); assert es[..k][u] == es[u]; }
        }
      }
    } else {
      t := FirstBreach(es[..k], once);
      PrefixOfPrefix(es, k, t);
    }
  }

  /** Over whole runs: at every point, every response that completes a get in any
      continuation that issues no further ones completes the get it answers, if
      and only if every get was issued on an idle operation into a place of no
      get that may still be answered. */
  lemma DirectedIff(es: seq<Event>, once: bool)
    requires Genuine(es, once)
    ensures Disciplined(es, once)
       <==> forall n, more | 0 <= n <= |es| && IssuesNothing(more) && Genuine(es[..n] + more, once) ::
              Directed(es[..n] + more)
  {
    hide MayIssue, Genuine, Disciplined, Directed;
    if Disciplined(es, once) {
      forall n, more | 0 <= n <= |es| && IssuesNothing(more) && Genuine(es[..n] + more, once)
        ensures Directed(es[..n] + more)
      {
        DisciplinedPrefix(es, once, n);
        IssuingNothingStaysDisciplined(es[..n], once, more);
        DisciplinedIsDirected(es[..n] + more, once);
      }
    } else {
      var t := FirstBreach(es, once);
      GenuinePrefix(es, once, t);
      var e := BadIssueMisdirects(es[..t], once, es[t].op, es[t].key);
      assert es[..t] + [Issue(es[t].op, es[t].key)] == es[..t + 1];
      assert IssuesNothing([e]) && !Directed(es[..t + 1] + [e]);
    }
  }

  /** Two gets into one local place, say from two remote peers: the response to
      the second completes the first. */
  lemma SharedPlaceCompletesFirst(a: nat, b: nat, key: Key)
    requires a != b
    ensures
      var es := [Issue(a, key), Issue(b, key), Respond(key, 1)];
      Genuine(es, true) && Run(es).done == [Done(a, Success)] && Run(es).pending == [Entry(b, 1)]
  {
    var es := [Issue(a, key), Issue(b, key), Respond(key, 1)];
    RunOf3(es[0], es[1], es[2]);
    assert Step(Step(Empty, es[0]), es[1]).pending == [Entry(a, 0), Entry(b, 1)];
    assert AnswersGet(es, true, 2);
  }

  /** A get cancelled before its response comes: the response completes the next
      get into the place, and that get's own response is dropped. */
  lemma LateAnswerCompletesNext(a: nat, b: nat, key: Key)
    requires a != b
    ensures
      var es := [Issue(a, key), Cancel(a), Issue(b, key)];
      && Genuine(es + [Respond(key, 0)] + [Respond(key, 2)], true)
      && OnlyOne(Run(es), 0, key)
      && Run(es + [Respond(key, 0)]).done == [Done(a, Canceled), Done(b, Success)]
      && Run(es + [Respond(key, 0)] + [Respond(key, 2)]).done == [Done(a, Canceled), Done(b, Success)]
  {
    var es := [Issue(a, key), Cancel(a), Issue(b, key)];
    RunOf3(es[0], es[1], es[2]);
    assert Step(Empty, es[0]).pending == [Entry(a, 0)];
    assert Run(es).pending == [Entry(b, 2)] && Run(es).done == [Done(a, Canceled)];
    RunOneMore(es, Respond(key, 0));
    RunOneMore(es + [Respond(key, 0)], Respond(key, 2));
    LateAnswerIsGenuine(a, b, key);
  }

  lemma LateAnswerIsGenuine(a: nat, b: nat, key: Key)
    ensures Genuine([Issue(a, key), Cancel(a), Issue(b, key)] + [Respond(key, 0)] + [Respond(key, 2)], true)
  {
    var es := [Issue(a, key), Cancel(a), Issue(b, key)] + [Respond(key, 0)] + [Respond(key, 2)];
    assert es == [Issue(a, key), Cancel(a), Issue(b, key), Respond(key, 0), Respond(key, 2)];
    assert AnswersGet(es, true, 3) && AnswersGet(es, true, 4);
  }

  // ---------------------------------------------------------------------
  //  A get from end to end
  // ---------------------------------------------------------------------

  /** No other pending get writes to the same local place. */
  ghost predicate OnlyOne(t: Table, i: nat, key: Key) {
    && i < |t.pending| && HasKey(t, t.pending[i].op, key)
    && forall j | 0 <= j < |t.pending| && j != i :: !HasKey(t, t.pending[j].op, key)
  }

  /** From issue to response, a pending get is the only one for its place. */
  lemma PendingIsOnlyOne(es: seq<Event>, once: bool, i: nat)
    requires Genuine(es, once) && Disciplined(es, once) && i < |Run(es).pending|
    ensures
      var e := Run(es).pending[i];
      e.issue < |es| && es[e.issue].Issue? && es[e.issue].op == e.op && OnlyOne(Run(es), i, es[e.issue].key)
  {
    hide Run, Disciplined, Genuine;
    RunSound(es, once);
    var t := Run(es);
    var e := t.pending[i];
    assert e in t.pending && TrueEntry(es, once, t, e);
    forall j | 0 <= j < |t.pending| && j != i ensures !HasKey(t, t.pending[j].op, es[e.issue].key) {
      var x := t.pending[j];
      assert x in t.pending && TrueEntry(es, once, t, x);
      if j < i { NotBothOpen(es, once, x.issue, e.issue); } else { NotBothOpen(es, once, e.issue, x.issue); }
    }
  }

  lemma NotBothOpen(es: seq<Event>, once: bool, i: nat, j: nat)
    requires Disciplined(es, once) && i < j && Open(es, once, i) && Open(es, once, j)
    ensures es[i].key != es[j].key
  {
    if es[i].key == es[j].key { OneOpenPerPlace(es, once, i, j); }
  }

  /** Neither answered nor cancelled since it was issued. */
  ghost predicate Untouched(es: seq<Event>, j: nat)
    requires j < |es| && es[j].Issue?
  {
    forall t | j < t < |es| :: !(es[t].Respond? && es[t].answers == j) && es[t] != Cancel(es[j].op)
  }

  ghost predicate PendingAt(t: Table, i: nat, j: nat) { i < |t.pending| && t.pending[i].issue == j }

  lemma FinishedOther(t: Table, k: nat, ret: Ret, i: nat, j: nat) returns (i': nat)
    requires k < |t.pending| && PendingAt(t, i, j) && k != i
    ensures PendingAt(Finish(t, k, ret), i', j)
  {
    i' := if k < i then i - 1 else i;
  }

  /** A step that neither completes nor cancels the get leaves it pending. */
  lemma PendingStays(t: Table, e: Event, i: nat, j: nat) returns (i': nat)
    requires PendingAt(t, i, j) && e != Cancel(t.pending[i].op)
    requires e.Respond? && FirstWith(t, e.key) < |t.pending| ==> t.pending[FirstWith(t, e.key)].issue != j
    ensures PendingAt(Step(t, e), i', j)
  {
    hide Finish;
    var t1 := t.(clock := t.clock + 1);
    i' := i;
    if e.Respond? {
      FirstIgnoresClock(t, e.key, t.clock + 1);
      var k := FirstWith(t1, e.key);
      if k < |t.pending| { i' := FinishedOther(t1, k, Success, i, j); }
    } else if e.Cancel? {
      var k := FirstOp(t.pending, e.op);
      if k < |t.pending| { i' := FinishedOther(t1, k, Canceled, i, j); }
    }
  }

  lemma IssuedIsPending(t: Table, e: Event)
    requires e.Issue?
    ensures PendingAt(Step(t, e), |t.pending|, t.clock)
  {
  }

  /** A get that was neither answered nor cancelled is still pending. */
  lemma {:induction false} UntouchedIsPending(es: seq<Event>, once: bool, j: nat) returns (i: nat)
    requires Genuine(es, once) && Disciplined(es, once)
    requires j < |es| && es[j].Issue? && Untouched(es, j)
    ensures PendingAt(Run(es), i, j)
    decreases |es|
  {
    hide Step, Disciplined, Genuine, OnlyOne;
    var k := |es| - 1;
    RunClock(es[..k]);
    var t := Run(es[..k]);
    if j == k {
      i := |t.pending|;
      IssuedIsPending(t, es[k]);
    } else {
      GenuinePrefix(es, once, k);
      DisciplinedPrefix(es, once, k);
      assert forall u | 0 <= u < k :: es[..k][u] == es[u];
      var i0 := UntouchedIsPending(es[..k], once, j);
      PendingIsOnlyOne(es[..k], once, i0);
      DisciplinedIsDirected(es, once);
      if es[k].Respond? { assert DirectedAt(es, k); }
      i := PendingStays(t, es[k], i0, j);
    }
  }

  datatype Node = Node(self: PeerId, mem: Memory, gets: Table)

  function GetRequest(self: PeerId, handle: nat, offset: nat, len: nat, key: Key): Msg {
    Msg(Header(RmaGetReq, 0, 0, self, handle, offset, len, key.handle, key.offset), [])
  }

  /** `handle_rma_get_response`; `answers` is the get the response answers. */
  function OnResponse(n: Node, resp: Msg, answers: nat): (n': Node)
    requires Backed(n.mem)
    ensures Backed(n'.mem)
  {
    var key := Key(resp.header.localHandleId, resp.header.localOffset);
    var n' := n.(gets := Step(n.gets, Respond(key, answers)));
    if FirstWith(n.gets, key) == |n.gets.pending| then n'
    else n'.(mem := ApplyPut(n.mem, key.handle, key.offset, resp.payload))
  }

  /** The response survives the wire: its length fits the size field. */
  lemma ResponseSurvives(remote: Node, req: Msg, data: seq<Byte>, rest: seq<Byte>, isPeer: PeerId -> bool)
    requires Sendable(req, isPeer) && isPeer(remote.self) && |remote.self| < U16 && |data| < U32
    ensures
      var resp := ResponseTo(remote.self, req.header, data);
      Decode(Encode(resp) + rest, isPeer) == Got(resp, rest)
  {
    hide Encode, Decode;
    DecodeEncode(ResponseTo(remote.self, req.header, data), rest, isPeer);
  }

  /** A response completes its get and lands in its place, clamped, and nowhere else. */
  lemma ResponseLands(local: Node, i: nat, resp: Msg, answers: nat)
    requires Backed(local.mem) && resp.header.localHandleId in local.mem.handles
    requires OnlyOne(local.gets, i, Key(resp.header.localHandleId, resp.header.localOffset))
    ensures
      var b, off := local.mem.handles[resp.header.localHandleId], resp.header.localOffset;
      var dst, after := local.mem.bufs[b], OnResponse(local, resp, answers);
      && after.gets.done == local.gets.done + [Done(local.gets.pending[i].op, Success)]
      && after.gets.pending == RemoveAt(local.gets.pending, i)
      && after.mem.handles == local.mem.handles && after.mem.bufs.Keys == local.mem.bufs.Keys
      && (forall c | c in local.mem.bufs && c != b :: after.mem.bufs[c] == local.mem.bufs[c])
      && |after.mem.bufs[b]| == |dst|
      && forall k | 0 <= k < |dst| ::
           after.mem.bufs[b][k] == if off <= k < off + |resp.payload| then resp.payload[k - off] else dst[k]
  {
    hide PutInto;
    var key := Key(resp.header.localHandleId, resp.header.localOffset);
    FirstIgnoresClock(local.gets, key, local.gets.clock + 1);
    assert FirstWith(local.gets, key) == i;
  }

  /** A get, from issue to completion: in every disciplined run in which it was
      neither answered nor cancelled yet, the remote side's answer, as it comes
      off the wire, completes the operation that issued it and replaces exactly
      n = min(length, what the remote buffer has past its offset, what the local
      buffer has past its offset) bytes with the remote ones; nothing else
      changes. */
  lemma GetEndToEnd(es: seq<Event>, once: bool, j: nat, local: Node, remote: Node, handle: nat, offset: nat, len: nat,
                    rest: seq<Byte>, isPeer: PeerId -> bool)
    requires Genuine(es, once) && Disciplined(es, once) && local.gets == Run(es)
    requires j < |es| && es[j].Issue? && Untouched(es, j)
    requires Backed(local.mem) && Backed(remote.mem)
    requires es[j].key.handle in local.mem.handles && handle in remote.mem.handles
    requires Sendable(GetRequest(local.self, handle, offset, len, es[j].key), isPeer)
    requires isPeer(remote.self) && |remote.self| < U16
    requires Fits(len, |remote.mem.bufs[remote.mem.handles[handle]]|, offset) < U32
    ensures
      var key := es[j].key;
      var req := GetRequest(local.self, handle, offset, len, key);
      var src, b := remote.mem.bufs[remote.mem.handles[handle]], local.mem.handles[key.handle];
      var dst := local.mem.bufs[b];
      var n := Min(Fits(len, |src|, offset), Monus(|dst|, key.offset));
      && ReplyTo(remote.mem, remote.self, req) == [ResponseTo(remote.self, req.header, GetFrom(src, offset, len))]
      && var resp := Decode(Encode(ReplyTo(remote.mem, remote.self, req)[0]) + rest, isPeer);
      && resp.Got? && resp.rest == rest
      && var after := OnResponse(local, resp.msg, j);
      && after.gets == Run(es + [Respond(key, j)])
      && after.gets.done == local.gets.done + [Done(es[j].op, Success)]
      && after.mem.handles == local.mem.handles && after.mem.bufs.Keys == local.mem.bufs.Keys
      && (forall c | c in local.mem.bufs && c != b :: after.mem.bufs[c] == local.mem.bufs[c])
      && |after.mem.bufs[b]| == |dst|
      && forall k | 0 <= k < |dst| ::
           after.mem.bufs[b][k] == if key.offset <= k < key.offset + n then src[offset + (k - key.offset)] else dst[k]
  {
    hide Encode, Decode, Sendable, GetFrom, Run, Disciplined, Genuine, Untouched, Step, ApplyPut;
    var key := es[j].key;
    var req := GetRequest(local.self, handle, offset, len, key);
    var src := remote.mem.bufs[remote.mem.handles[handle]];
    var data := GetFrom(src, offset, len);
    ResponseSurvives(remote, req, data, rest, isPeer);
    var i := UntouchedIsPending(es, once, j);
    PendingIsOnlyOne(es, once, i);
    ResponseLands(local, i, ResponseTo(remote.self, req.header, data), j);
    RunOneMore(es, Respond(key, j));
  }
}
