/** Gets and their responses.  A get is remembered by its operation only; a
    response finds it again by the local handle and offset it carries, read from
    the operation's fields at that moment. */
module Gets {
  import opened Prelude

  /** The local place a get writes to. */
  datatype Key = Key(handle: nat, offset: nat)

  /** A pending get; `issue` is the step that issued it, which the code does not
      know. */
  datatype Entry = Entry(op: nat, issue: nat)

  datatype Done = Done(op: nat, ret: Ret)

  /** Pending operations, the operations' fields, and the completions so far. */
  datatype Table = Table(clock: nat, pending: seq<Entry>, keys: map<nat, Key>, done: seq<Done>)

  const Empty := Table(0, [], map[], [])

  predicate HasKey(t: Table, op: nat, key: Key) { op in t.keys && t.keys[op] == key }

  function FirstWith(t: Table, key: Key): (i: nat)
    ensures i <= |t.pending|
    ensures i < |t.pending| ==> HasKey(t, t.pending[i].op, key)
    ensures forall j | 0 <= j < i :: !HasKey(t, t.pending[j].op, key)
    decreases |t.pending|
  {
    if t.pending == [] || HasKey(t, t.pending[0].op, key) then 0
    else
      var rest := t.(pending := t.pending[1..]);
      assert forall j | 0 < j < |t.pending| :: t.pending[j] == rest.pending[j - 1];
      1 + FirstWith(rest, key)
  }

  function FirstOp(es: seq<Entry>, op: nat): (i: nat)
    ensures i <= |es|
    ensures i < |es| ==> es[i].op == op
    ensures forall j | 0 <= j < i :: es[j].op != op
  {
    if es == [] || es[0].op == op then 0 else 1 + FirstOp(es[1..], op)
  }

  /** `answers` is the step that issued the get a response answers; the code sees
      only the place. */
  datatype Event =
    | Issue(op: nat, key: Key)
    | Respond(key: Key, answers: nat)
    | RequestFailed(op: nat)
    | Cancel(op: nat)

  /** The entry leaves the pending list and completes. */
  function Finish(t: Table, i: nat, ret: Ret): Table
    requires i < |t.pending|
  {
    t.(pending := RemoveAt(t.pending, i), done := t.done + [Done(t.pending[i].op, ret)])
  }

  function OnRespond(t: Table, key: Key): Table {
    var i := FirstWith(t, key);
    if i == |t.pending| then t else Finish(t, i, Success)
  }

  function OnCancel(t: Table, op: nat): Table {
    var i := FirstOp(t.pending, op);
    if i == |t.pending| then t else Finish(t, i, Canceled)
  }

  function Step(t: Table, e: Event): Table {
    var t' := t.(clock := t.clock + 1);
    match e
    case Issue(op, key) => t'.(pending := t.pending + [Entry(op, t.clock)], keys := t.keys[op := key])
    case Respond(key, _) => OnRespond(t', key)
    case RequestFailed(op) => t'.(done := t.done + [Done(op, ProtocolError)])
    case Cancel(op) => OnCancel(t', op)
  }

  function Run(es: seq<Event>): Table {
    if es == [] then Empty else
      var k := |es| - 1;
      Step(Run(es[..k]), es[k])
  }

  lemma {:induction false} RunClock(es: seq<Event>)
    ensures Run(es).clock == |es|
    decreases |es|
  {
    if es != [] { RunClock(es[..|es| - 1]); }
  }

  lemma RunOneMore(es: seq<Event>, e: Event)
    ensures Run(es + [e]) == Step(Run(es), e)
  {
    assert (es + [e])[..|es|] == es;
  }

  // ---------------------------------------------------------------------
  //  How often a get completes
  // ---------------------------------------------------------------------

  function Issues(es: seq<Event>, op: nat): nat {
    if es == [] then 0 else
      var k := |es| - 1;
      Issues(es[..k], op) + Hit(es[k].Issue? && es[k].op == op)
  }

  function Failures(es: seq<Event>, op: nat): nat {
    if es == [] then 0 else
      var k := |es| - 1;
      Failures(es[..k], op) + Hit(es[k] == RequestFailed(op))
  }

  function DoneOps(ds: seq<Done>): seq<nat> { seq(|ds|, i requires 0 <= i < |ds| => ds[i].op) }

  function OpsOf(es: seq<Entry>): (ops: seq<nat>)
    ensures |ops| == |es| && forall i | 0 <= i < |es| :: ops[i] == es[i].op
  {
    seq(|es|, i requires 0 <= i < |es| => es[i].op)
  }

  function Completions(t: Table, op: nat): nat { multiset(DoneOps(t.done))[op] }

  function StillPending(t: Table, op: nat): nat { multiset(OpsOf(t.pending))[op] }

  lemma DoneMore(ds: seq<Done>, d: Done, op: nat)
    ensures multiset(DoneOps(ds + [d]))[op] == multiset(DoneOps(ds))[op] + Hit(d.op == op)
  {
    assert DoneOps(ds + [d]) == DoneOps(ds) + [d.op];
  }

  lemma PendingMore(es: seq<Entry>, e: Entry, op: nat)
    ensures multiset(OpsOf(es + [e]))[op] == multiset(OpsOf(es))[op] + Hit(e.op == op)
  {
    assert OpsOf(es + [e]) == OpsOf(es) + [e.op];
  }

  lemma PendingLess(es: seq<Entry>, i: nat, op: nat)
    requires i < |es|
    ensures multiset(OpsOf(es))[op] == multiset(OpsOf(RemoveAt(es, i)))[op] + Hit(es[i].op == op)
  {
    assert OpsOf(RemoveAt(es, i)) == RemoveAt(OpsOf(es), i);
    RemoveAtKeepsTheRest(OpsOf(es), i);
  }

  lemma FinishCounts(t: Table, i: nat, ret: Ret, op: nat)
    requires i < |t.pending|
    ensures Completions(Finish(t, i, ret), op) == Completions(t, op) + Hit(t.pending[i].op == op)
    ensures StillPending(Finish(t, i, ret), op) + Hit(t.pending[i].op == op) == StillPending(t, op)
  {
    hide DoneOps, OpsOf, RemoveAt;
    PendingLess(t.pending, i, op);
    DoneMore(t.done, Done(t.pending[i].op, ret), op);
  }

  lemma StepCounts(t: Table, e: Event, op: nat)
    ensures Completions(Step(t, e), op) + StillPending(Step(t, e), op)
         == Completions(t, op) + StillPending(t, op)
            + Hit(e.Issue? && e.op == op) + Hit(e == RequestFailed(op))
  {
    hide DoneOps, OpsOf, Finish;
    var t' := t.(clock := t.clock + 1);
    match e
    case Issue(o, _) => PendingMore(t.pending, Entry(o, t.clock), op);
    case Respond(key, _) =>
      if FirstWith(t', key) < |t.pending| { FinishCounts(t', FirstWith(t', key), Success, op); }
    case RequestFailed(o) => DoneMore(t.done, Done(o, ProtocolError), op);
    case Cancel(o) =>
      if FirstOp(t.pending, o) < |t.pending| { FinishCounts(t', FirstOp(t.pending, o), Canceled, op); }
  }

  /** In every run, an operation's completions are its issues and its failed
      requests, less the issues still pending: a failed request completes the
      operation without taking it off the pending list. */
  lemma {:induction false} CompletionsCounted(es: seq<Event>, op: nat)
    ensures Completions(Run(es), op) + StillPending(Run(es), op) == Issues(es, op) + Failures(es, op)
    decreases |es|
  {
    if es != [] {
      hide Step, Completions, StillPending;
      var k := |es| - 1;
      CompletionsCounted(es[..k], op);
      StepCounts(Run(es[..k]), es[k], op);
    } else {
      EmptyCounts(op);
    }
  }

  lemma EmptyCounts(op: nat)
    ensures Completions(Empty, op) == 0 && StillPending(Empty, op) == 0
  {
  }

  // ---------------------------------------------------------------------
  //  Responses answer gets
  // ---------------------------------------------------------------------

  ghost predicate AnsweredBefore(es: seq<Event>, i: nat, t: nat) {
    exists u | 0 <= u < t && u < |es| :: es[u].Respond? && es[u].answers == i
  }

  /** The response of step `t` answers an earlier get and carries its place; with
      `once`, a get is answered at most once. */
  ghost predicate AnswersGet(es: seq<Event>, once: bool, t: nat)
    requires t < |es| && es[t].Respond?
  {
    var i := es[t].answers;
    && i < t && es[i].Issue? && es[i].key == es[t].key
    && (once ==> !AnsweredBefore(es, i, t))
  }

  /** Every response answers a get.  `once` holds when neither requests nor
      responses are duplicated on their way. */
  ghost predicate Genuine(es: seq<Event>, once: bool) {
    forall t | 0 <= t < |es| && es[t].Respond? :: AnswersGet(es, once, t)
  }

  lemma GenuinePrefix(es: seq<Event>, once: bool, n: nat)
    requires Genuine(es, once) && n <= |es|
    ensures Genuine(es[..n], once)
  {
    var fs := es[..n];
    forall t | 0 <= t < |fs| && fs[t].Respond? ensures AnswersGet(fs, once, t) {
      assert AnswersGet(es, once, t);
      AnsweredPrefix(es, es[t].answers, n, t);
    }
  }

  lemma AnsweredPrefix(es: seq<Event>, i: nat, n: nat, t: nat)
    requires t <= n <= |es|
    ensures AnsweredBefore(es[..n], i, t) <==> AnsweredBefore(es, i, t)
  {
    if AnsweredBefore(es, i, t) {
      var u :| 0 <= u < t && u < |es| && es[u].Respond? && es[u].answers == i;
      assert es[..n][u] == es[u];
    }
  }

  /** A step that is no response, or one that answers, keeps a run genuine. */
  lemma GenuineMore(es: seq<Event>, once: bool, e: Event)
    requires Genuine(es, once) && (e.Respond? ==> AnswersGet(es + [e], once, |es|))
    ensures Genuine(es + [e], once)
  {
    var fs := es + [e];
    assert fs[..|es|] == es;
    forall t | 0 <= t < |fs| && fs[t].Respond? ensures AnswersGet(fs, once, t) {
      if t < |es| {
        assert AnswersGet(es, once, t);
        AnsweredPrefix(fs, fs[t].answers, |es|, t);
      }
    }
  }

  // ---------------------------------------------------------------------
  //  At most one completion, and when
  // ---------------------------------------------------------------------

  ghost predicate AtMostOnce(es: seq<Event>, op: nat) { Completions(Run(es), op) <= Issues(es, op) }

  lemma {:induction false} FailuresSeen(es: seq<Event>, op: nat)
    ensures Failures(es, op) == 0 <==> RequestFailed(op) !in es
    decreases |es|
  {
    if es != [] {
      var k := |es| - 1;
      FailuresSeen(es[..k], op);
      assert es == es[..k] + [es[k]];
    }
  }

  lemma CancelOne(es: seq<Event>, op: nat)
    requires StillPending(Run(es), op) > 0
    ensures StillPending(Run(es + [Cancel(op)]), op) == StillPending(Run(es), op) - 1
    ensures Issues(es + [Cancel(op)], op) == Issues(es, op)
  {
    hide Run, StillPending, Finish;
    var t := Run(es);
    RunOneMore(es, Cancel(op));
    assert (es + [Cancel(op)])[..|es|] == es;
    SomePending(t, op);
    FinishCounts(t.(clock := t.clock + 1), FirstOp(t.pending, op), Canceled, op);
    SamePending(t, t.(clock := t.clock + 1), op);
  }

  lemma SamePending(t: Table, t': Table, op: nat)
    requires t'.pending == t.pending
    ensures StillPending(t', op) == StillPending(t, op)
  {
  }

  lemma SomePending(t: Table, op: nat)
    requires StillPending(t, op) > 0
    ensures FirstOp(t.pending, op) < |t.pending|
  {
    assert op in OpsOf(t.pending);
    var i :| 0 <= i < |t.pending| && OpsOf(t.pending)[i] == op;
  }

  /** Cancelling an operation often enough completes all its pending gets. */
  lemma {:induction false} CancelAll(es: seq<Event>, once: bool, op: nat) returns (more: seq<Event>)
    requires Genuine(es, once)
    ensures Genuine(es + more, once) && (forall e | e in more :: e == Cancel(op))
    ensures StillPending(Run(es + more), op) == 0 && Issues(es + more, op) == Issues(es, op)
    decreases StillPending(Run(es), op)
  {
    hide Run, Issues, StillPending, Genuine;
    if StillPending(Run(es), op) == 0 {
      more := [];
      assert es + more == es;
    } else {
      CancelOne(es, op);
      GenuineMore(es, once, Cancel(op));
      var rest := CancelAll(es + [Cancel(op)], once, op);
      more := [Cancel(op)] + rest;
      assert es + more == es + [Cancel(op)] + rest;
    }
  }

  /** An operation completes no more often than it is issued, however the run goes
      on without further failed requests, if and only if none of its requests has
      been reported as failed so far. */
  lemma AtMostOnceIff(es: seq<Event>, once: bool, op: nat)
    requires Genuine(es, once)
    ensures RequestFailed(op) !in es
       <==> forall more | RequestFailed(op) !in more && Genuine(es + more, once) :: AtMostOnce(es + more, op)
  {
    hide Run, Issues, Failures, Completions, Genuine, StillPending;
    if RequestFailed(op) !in es {
      forall more | RequestFailed(op) !in more && Genuine(es + more, once) ensures AtMostOnce(es + more, op) {
        FailuresSeen(es + more, op);
        CompletionsCounted(es + more, op);
      }
    } else {
      var more := CancelAll(es, once, op);
      FailuresSeen(es + more, op);
      CompletionsCounted(es + more, op);
      assert !AtMostOnce(es + more, op);
    }
  }

  lemma RunOf3(a: Event, b: Event, c: Event)
    ensures Run([a, b, c]) == Step(Step(Step(Empty, a), b), c)
  {
    hide Step;
    assert [a][..0] == [] && [a, b][..1] == [a] && [a, b, c][..2] == [a, b];
    assert Run([]) == Empty;
    assert Run([a]) == Step(Empty, a);
    assert Run([a, b]) == Step(Run([a]), b);
  }

  /** A request reported as failed although it arrived: the response completes
      the operation a second time. */
  lemma FailedRequestCompletesTwice(op: nat, key: Key)
    ensures
      var es := [Issue(op, key), RequestFailed(op), Respond(key, 0)];
      && Genuine(es, true) && Issues(es, op) == 1
      && Run(es).done == [Done(op, ProtocolError), Done(op, Success)]
  {
    hide Run, Issues;
    var e0, e1, e2 := Issue(op, key), RequestFailed(op), Respond(key, 0);
    RunOf3(e0, e1, e2);
    IssuesOf3(e0, e1, e2, op);
    assert Step(Step(Empty, e0), e1).pending == [Entry(op, 0)];
    assert AnswersGet([e0, e1, e2], true, 2);
  }

  lemma IssuesOf3(a: Event, b: Event, c: Event, op: nat)
    requires a.Issue? && a.op == op && !b.Issue? && !c.Issue?
    ensures Issues([a, b, c], op) == 1
  {
    assert [a][..0] == [] && [a, b][..1] == [a] && [a, b, c][..2] == [a, b];
    assert Issues([a], op) == 1;
    assert Issues([a, b], op) == 1;
  }
}
