/** What a lane's pairing means, without reference to queues or stashes, and
    the proof that the lane computes the one pairing with that meaning. */
module LaneSpec {
  import opened Lane

  /** What happened on a lane: postings and arrivals with their instants, and
      which postings were withdrawn when. */
  datatype History = History(posted: seq<Recv>, arrived: seq<Arrival>, withdrawn: seq<Withdrawal>)

  function HistoryOf(l: Lane): History { History(l.posted, l.arrived, l.withdrawn) }

  ghost predicate Exclusive(ps: seq<Pair>) {
    forall i, j | 0 <= i < j < |ps| ::
      ps[i].recv != ps[j].recv && ps[i].msg != ps[j].msg && Time(ps[i]) < Time(ps[j])
  }

  ghost predicate OnHistory(h: History, ps: seq<Pair>) {
    && (forall p | p in ps :: p.recv in h.posted && p.msg in h.arrived && Matches(p.recv, p.msg))
    && (forall w, p | w in h.withdrawn && p in ps :: w.recv != p.recv)
  }

  /** A receive and a message that match and both stay unpaired: the receive
      was withdrawn before the message came. */
  ghost predicate Eager(h: History, ps: seq<Pair>) {
    forall r, m | r in h.posted && m in h.arrived && Matches(r, m) ::
      RecvTakenBefore(ps, |ps|, r) || MsgTakenBefore(ps, |ps|, m) || WithdrawnBefore(h.withdrawn, r, m.id)
  }

  ghost predicate NoOvertaking(h: History, ps: seq<Pair>) {
    forall j | 0 <= j < |ps| :: FairAt(h.posted, h.arrived, h.withdrawn, ps, j)
  }

  ghost predicate Legal(h: History, ps: seq<Pair>) {
    OnHistory(h, ps) && Exclusive(ps) && Eager(h, ps) && NoOvertaking(h, ps)
  }

  /** Postings and arrivals carry distinct instants. */
  ghost predicate Timed(h: History) {
    && RecvsOrdered(h.posted) && MsgsOrdered(h.arrived)
    && forall r, m | r in h.posted && m in h.arrived :: r.id != m.id
  }

  // ---------------------------------------------------------------------
  //  The lane's pairing is legal
  // ---------------------------------------------------------------------

  lemma RecvOnce(rs: seq<Recv>, r: Recv)
    requires RecvsOrdered(rs)
    ensures multiset(rs)[r] <= 1
    decreases |rs|
  {
    if rs != [] {
      var k := |rs| - 1;
      assert rs == rs[..k] + [rs[k]];
      RecvOnce(rs[..k], r);
    }
  }

  lemma MsgOnce(ms: seq<Arrival>, m: Arrival)
    requires MsgsOrdered(ms)
    ensures multiset(ms)[m] <= 1
    decreases |ms|
  {
    if ms != [] {
      var k := |ms| - 1;
      assert ms == ms[..k] + [ms[k]];
      MsgOnce(ms[..k], m);
    }
  }

  lemma TwiceCounts<T>(s: seq<T>, i: nat, j: nat)
    requires i < j < |s| && s[i] == s[j]
    ensures multiset(s)[s[i]] >= 2
  {
    assert s == s[..j] + s[j..];
    assert s[i] in s[..j] && s[j] in s[j..];
  }

  lemma PairedOnce(l: Lane, i: nat, j: nat)
    requires Conserved(l) && RecvsOrdered(l.posted) && MsgsOrdered(l.arrived)
    requires i < j < |l.pairs|
    ensures l.pairs[i].recv != l.pairs[j].recv && l.pairs[i].msg != l.pairs[j].msg
  {
    var rs, ms := Recvs(l.pairs), Msgs(l.pairs);
    if rs[i] == rs[j] {
      TwiceCounts(rs, i, j);
      RecvOnce(l.posted, rs[i]);
    }
    if ms[i] == ms[j] {
      TwiceCounts(ms, i, j);
      MsgOnce(l.arrived, ms[i]);
    }
  }

  lemma WithdrawnUnpaired(l: Lane, w: Withdrawal, p: Pair)
    requires Conserved(l) && RecvsOrdered(l.posted)
    requires w in l.withdrawn && p in l.pairs
    ensures w.recv != p.recv
  {
    if w.recv == p.recv {
      var i :| 0 <= i < |l.pairs| && l.pairs[i] == p;
      var j :| 0 <= j < |l.withdrawn| && l.withdrawn[j] == w;
      assert Recvs(l.pairs)[i] == p.recv && Gone(l.withdrawn)[j] == p.recv;
      assert p.recv in multiset(Recvs(l.pairs)) && p.recv in multiset(Gone(l.withdrawn));
      RecvOnce(l.posted, p.recv);
    }
  }

  lemma PairsOnHistory(l: Lane, now: nat)
    requires Inv(l, now)
    ensures OnHistory(HistoryOf(l), l.pairs)
  {
    Places(l);
    forall p | p in l.pairs
      ensures p.recv in l.posted && p.msg in l.arrived && Matches(p.recv, p.msg)
    {
      var i :| 0 <= i < |l.pairs| && l.pairs[i] == p;
      assert p.recv == Recvs(l.pairs)[i] && p.msg == Msgs(l.pairs)[i];
    }
    forall w, p | w in l.withdrawn && p in l.pairs ensures w.recv != p.recv {
      WithdrawnUnpaired(l, w, p);
    }
  }

  lemma LaneIsEager(l: Lane, now: nat)
    requires Inv(l, now)
    ensures Eager(HistoryOf(l), l.pairs)
  {
    forall r, m | r in l.posted && m in l.arrived && Matches(r, m)
      ensures RecvTakenBefore(l.pairs, |l.pairs|, r) || MsgTakenBefore(l.pairs, |l.pairs|, m)
           || WithdrawnBefore(l.withdrawn, r, m.id)
    {
      if m !in l.stash {
        PastMsg(l, m);
      } else {
        PastRecv(l, r, now);
      }
    }
  }

  /** Every lane reached by posts, arrivals and cancellations pairs legally. */
  lemma LaneIsLegal(l: Lane, now: nat)
    requires Inv(l, now)
    ensures Legal(HistoryOf(l), l.pairs) && Timed(HistoryOf(l))
  {
    PairsOnHistory(l, now);
    LaneIsEager(l, now);
    forall i, j | 0 <= i < j < |l.pairs|
      ensures l.pairs[i].recv != l.pairs[j].recv && l.pairs[i].msg != l.pairs[j].msg
    {
      PairedOnce(l, i, j);
    }
  }

  // ---------------------------------------------------------------------
  //  There is only one legal pairing
  // ---------------------------------------------------------------------

  ghost predicate SharePrefix(h: History, ps: seq<Pair>, qs: seq<Pair>, i: nat) {
    && Timed(h) && Legal(h, ps) && Legal(h, qs)
    && i < |ps| && i <= |qs| && ps[..i] == qs[..i]
    && (i < |qs| ==> Time(ps[i]) <= Time(qs[i]))
  }

  /** Beyond the shared prefix, nothing in `qs` happens before `ps[i]`, and the
      parties of `ps[i]` are still free. */
  lemma Later(h: History, ps: seq<Pair>, qs: seq<Pair>, i: nat, k: nat)
    requires SharePrefix(h, ps, qs, i) && k < |qs|
    requires qs[k].recv == ps[i].recv || qs[k].msg == ps[i].msg
    ensures i <= k && Time(ps[i]) <= Time(qs[k])
  {
    hide OnHistory, Eager, NoOvertaking, Timed;
    assert forall e | 0 <= e < i :: ps[e] == ps[..i][e] == qs[..i][e] == qs[e];
  }

  /** A party of `qs[k]`, `k >= i`, was not taken within the shared prefix. */
  lemma Fresh(h: History, ps: seq<Pair>, qs: seq<Pair>, i: nat, k: nat)
    requires SharePrefix(h, ps, qs, i) && i <= k < |qs|
    ensures !RecvTakenBefore(ps, i, qs[k].recv) && !MsgTakenBefore(ps, i, qs[k].msg)
  {
    forall e | 0 <= e < i ensures ps[e].recv != qs[k].recv && ps[e].msg != qs[k].msg {
      assert ps[e] == ps[..i][e] == qs[..i][e] == qs[e];
    }
  }

  /** If `qs` gives the receive of `ps[i]` a message, it is the same message,
      unless the message was given away earlier. */
  lemma SameMessage(h: History, ps: seq<Pair>, qs: seq<Pair>, i: nat, k: nat)
    requires SharePrefix(h, ps, qs, i) && k < |qs| && qs[k].recv == ps[i].recv
    ensures qs[k].msg == ps[i].msg || MsgTakenBefore(qs, k, ps[i].msg)
  {
    var r, m, m2 := ps[i].recv, ps[i].msg, qs[k].msg;
    Later(h, ps, qs, i, k);
    Fresh(h, ps, qs, i, k);
    assert FairAt(h.posted, h.arrived, h.withdrawn, qs, k);
    assert FairAt(h.posted, h.arrived, h.withdrawn, ps, i);
    assert ps[i] in ps && qs[k] in qs;
    assert !(m2.id < m.id);
    if m2.id == m.id {
      SameInstant(h.arrived, m, m2);
    }
  }

  lemma SameInstant(ms: seq<Arrival>, m: Arrival, n: Arrival)
    requires MsgsOrdered(ms) && m in ms && n in ms && m.id == n.id
    ensures m == n
  {
    var a :| 0 <= a < |ms| && ms[a] == m;
    var b :| 0 <= b < |ms| && ms[b] == n;
  }

  lemma SameRecvInstant(rs: seq<Recv>, r: Recv, s: Recv)
    requires RecvsOrdered(rs) && r in rs && s in rs && r.id == s.id
    ensures r == s
  {
    var a :| 0 <= a < |rs| && rs[a] == r;
    var b :| 0 <= b < |rs| && rs[b] == s;
  }

  /** If `qs` gives the message of `ps[i]` to a receive, it is the same receive,
      unless that receive was served earlier. */
  lemma SameReceive(h: History, ps: seq<Pair>, qs: seq<Pair>, i: nat, k: nat)
    requires SharePrefix(h, ps, qs, i) && k < |qs| && qs[k].msg == ps[i].msg
    ensures qs[k].recv == ps[i].recv || RecvTakenBefore(qs, k, ps[i].recv)
  {
    var r, m, r2 := ps[i].recv, ps[i].msg, qs[k].recv;
    Later(h, ps, qs, i, k);
    Fresh(h, ps, qs, i, k);
    assert FairAt(h.posted, h.arrived, h.withdrawn, qs, k);
    assert FairAt(h.posted, h.arrived, h.withdrawn, ps, i);
    assert ps[i] in ps && qs[k] in qs;
    assert !(r2.id < r.id);
    if r2.id == r.id {
      SameRecvInstant(h.posted, r, r2);
    }
  }

  /** The next pairing of `ps` occurs in `qs`. */
  lemma NextOccurs(h: History, ps: seq<Pair>, qs: seq<Pair>, i: nat) returns (k: nat)
    requires SharePrefix(h, ps, qs, i)
    ensures k < |qs| && qs[k] == ps[i]
  {
    var r, m := ps[i].recv, ps[i].msg;
    assert ps[i] in ps;
    assert !WithdrawnBefore(h.withdrawn, r, m.id);
    if b :| 0 <= b < |qs| && qs[b].msg == m {
      k := b;
      SameReceive(h, ps, qs, i, b);
      if qs[b].recv != r {
        var a :| 0 <= a < b && qs[a].recv == r;
        SameMessage(h, ps, qs, i, a);
      }
    } else {
      k :| k < |qs| && qs[k].recv == r;
      SameMessage(h, ps, qs, i, k);
    }
  }

  lemma Advance(h: History, ps: seq<Pair>, qs: seq<Pair>, i: nat)
    requires SharePrefix(h, ps, qs, i)
    ensures i < |qs| && ps[i] == qs[i]
  {
    var k := NextOccurs(h, ps, qs, i);
    Later(h, ps, qs, i, k);
  }

  /** Two legal pairings of one history agree from any shared prefix on. */
  lemma {:induction false} AgreeFrom(h: History, ps: seq<Pair>, qs: seq<Pair>, i: nat)
    requires Timed(h) && Legal(h, ps) && Legal(h, qs)
    requires i <= |ps| && i <= |qs| && ps[..i] == qs[..i]
    ensures ps == qs
    decreases |ps| - i
  {
    if i == |ps| {
      if i < |qs| { Advance(h, qs, ps, i); }
      assert ps == ps[..i] && qs == qs[..i];
    } else {
      if i < |qs| && Time(qs[i]) < Time(ps[i]) {
        Advance(h, qs, ps, i);
      } else {
        Advance(h, ps, qs, i);
      }
      assert ps[..i + 1] == ps[..i] + [ps[i]] && qs[..i + 1] == qs[..i] + [qs[i]];
      AgreeFrom(h, ps, qs, i + 1);
    }
  }

  /** The pairing of a reachable lane is the only one that matches filters,
      pairs nothing twice, leaves nothing pairable waiting and lets nobody
      overtake. */
  lemma OnlyLegalPairing(l: Lane, now: nat, ps: seq<Pair>)
    requires Inv(l, now)
    ensures Legal(HistoryOf(l), ps) <==> ps == l.pairs
  {
    LaneIsLegal(l, now);
    if Legal(HistoryOf(l), ps) {
      AgreeFrom(HistoryOf(l), ps, l.pairs, 0);
    }
  }
}
