/** The hand-shake between the completion channel and the eventfd, at the grain
    of single operations: any number of producers push and then signal, any
    number of pollers drain the fd and then empty the channel under its lock. */
module EventFd {
  import opened Prelude

  /** An eventfd counter stops counting here; a further signal is refused. */
  const MAX_COUNT := 0xffff_ffff_ffff_fffe

  datatype State = State(
    channel: seq<nat>,
    fd: nat,
    pushing: set<nat>,
    polling: set<nat>,
    holder: Option<nat>,
    sent: seq<nat>,
    received: seq<nat>)

  const Init := State([], 0, {}, {}, None, [], [])

  datatype Event =
    | Push(thread: nat, item: nat)
    | Signal(thread: nat)
    | Drain(thread: nat)
    | Lock(thread: nat)
    | TryRecv(thread: nat)

  /** What a thread's position in its code lets it do next. */
  predicate Enabled(s: State, e: Event) {
    match e
    case Push(t, _) => t !in s.pushing
    case Signal(t) => t in s.pushing
    case Drain(t) => t !in s.polling
    case Lock(t) => t in s.polling && s.holder.None?
    case TryRecv(t) => s.holder == Some(t)
  }

  function Do(s: State, e: Event): State {
    match e
    case Push(t, x) => s.(channel := s.channel + [x], sent := s.sent + [x], pushing := s.pushing + {t})
    case Signal(t) => s.(fd := if s.fd < MAX_COUNT then s.fd + 1 else s.fd, pushing := s.pushing - {t})
    case Drain(t) => s.(fd := 0, polling := s.polling + {t})
    case Lock(t) => s.(holder := Some(t))
    case TryRecv(t) =>
      if s.channel == [] then s.(holder := None, polling := s.polling - {t})
      else s.(channel := s.channel[1..], received := s.received + [s.channel[0]])
  }

  /** Any interleaving; a step its thread is not ready for does not happen. */
  function Run(es: seq<Event>): State {
    if es == [] then Init else
      var k := |es| - 1;
      var s := Run(es[..k]);
      if Enabled(s, es[k]) then Do(s, es[k]) else s
  }

  predicate Readable(s: State) { s.fd > 0 }

  /** No wake-up is lost, the lock is held by a poller, and items come out once
      each in the order they went in. */
  ghost predicate Inv(s: State) {
    && (s.channel != [] ==> Readable(s) || s.pushing != {} || s.polling != {})
    && (s.holder.Some? ==> s.holder.value in s.polling)
    && s.sent == s.received + s.channel
  }

  lemma StepKeeps(s: State, e: Event)
    requires Inv(s) && Enabled(s, e)
    ensures Inv(Do(s, e))
  {
    match e
    case Push(t, x) =>
      assert t in Do(s, e).pushing;
      assert s.received + s.channel + [x] == s.received + (s.channel + [x]);
    case Signal(t) =>
    case Drain(t) => assert t in Do(s, e).polling;
    case Lock(t) =>
    case TryRecv(t) =>
      if s.channel != [] {
        assert t in Do(s, e).polling;
        assert s.channel == [s.channel[0]] + s.channel[1..];
      }
  }

  /** In every reachable state a waiting completion means that the fd is readable,
      or a producer is about to signal, or a poller that drained the fd has yet to
      see the channel empty; and every completion sent is received once, in order,
      or still waits. */
  lemma {:induction false} NoLostWakeup(es: seq<Event>)
    ensures Inv(Run(es))
    decreases |es|
  {
    if es != [] {
      var k := |es| - 1;
      NoLostWakeup(es[..k]);
      if Enabled(Run(es[..k]), es[k]) { StepKeeps(Run(es[..k]), es[k]); }
    }
  }

  /** When every thread is between operations, a waiting completion makes the fd
      readable, so a thread blocked on it wakes. */
  lemma QuietMeansReadable(es: seq<Event>)
    requires Run(es).pushing == {} && Run(es).polling == {}
    ensures Run(es).channel != [] ==> Readable(Run(es))
  {
    NoLostWakeup(es);
  }

  /** A poller that runs undisturbed takes everything there is. */
  function PollAlone(t: nat, n: nat): (es: seq<Event>)
    ensures |es| == n + 3
  {
    [Drain(t), Lock(t)] + seq(n + 1, _ => TryRecv(t))
  }

  function DoAll(s: State, es: seq<Event>): State
    decreases |es|
  {
    if es == [] then s else DoAll(if Enabled(s, es[0]) then Do(s, es[0]) else s, es[1..])
  }

  lemma {:induction false} ReceivesAll(s: State, t: nat, n: nat)
    requires s.holder == Some(t) && n == |s.channel|
    ensures
      DoAll(s, seq(n + 1, _ => TryRecv(t)))
        == s.(channel := [], received := s.received + s.channel, holder := None, polling := s.polling - {t})
    decreases n
  {
    var es := seq(n + 1, _ => TryRecv(t));
    assert es[1..] == seq(n, _ => TryRecv(t));
    if n == 0 {
      assert s.received + s.channel == s.received;
      assert DoAll(Do(s, es[0]), []) == Do(s, es[0]);
    } else {
      var s' := Do(s, TryRecv(t));
      ReceivesAll(s', t, n - 1);
      assert s.received + [s.channel[0]] + s.channel[1..] == s.received + s.channel;
    }
  }

  lemma PollTakesAll(s: State, t: nat)
    requires t !in s.polling && s.holder.None?
    ensures
      var s' := DoAll(s, PollAlone(t, |s.channel|));
      && s'.channel == [] && s'.received == s.received + s.channel
      && s'.polling == s.polling && s'.holder.None? && s'.fd == 0
  {
    var n := |s.channel|;
    var es := PollAlone(t, n);
    var s1 := Do(s, Drain(t));
    var s2 := Do(s1, Lock(t));
    var rest := seq(n + 1, _ => TryRecv(t));
    assert es[1..] == [Lock(t)] + rest && es[1..][1..] == rest;
    assert DoAll(s, es) == DoAll(s1, es[1..]) == DoAll(s2, rest);
    ReceivesAll(s2, t, n);
    assert s.polling + {t} - {t} == s.polling;
  }
}
