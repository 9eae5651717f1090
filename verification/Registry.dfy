/** The registry of local memory handles over every sequence of creations,
    deserializations and frees. */
module Registry {
  import opened Prelude
  import opened Codec
  import opened Rma

  /** A handle in the user's hands; `owner` is absent for a local one. */
  datatype Handle = Handle(id: nat, owner: Option<PeerId>)

  /** Registered ids with the step that registered them, and the unfreed handles
      by the step that produced them. */
  datatype State = State(clock: nat, next: nat, entries: map<nat, nat>, live: map<nat, Handle>)

  const Init := State(0, 1, map[], map[])

  datatype Event = Create | Deserialize(id: nat, owner: PeerId) | Free(handle: nat)

  function Step(s: State, e: Event): State {
    var s' := s.(clock := s.clock + 1);
    match e
    case Create =>
      s'.(next := (s.next + 1) % U64,
          entries := s.entries[s.next := s.clock],
          live := s.live[s.clock := Handle(s.next, None)])
    case Deserialize(id, owner) => s'.(live := s.live[s.clock := Handle(id, Some(owner))])
    case Free(h) =>
      if h !in s.live then s'
      else if s.live[h].owner.Some? then s'.(live := s.live - {h})
      else s'.(live := s.live - {h}, entries := s.entries - {s.live[h].id})
  }

  function Run(es: seq<Event>): State {
    if es == [] then Init else
      var k := |es| - 1;
      Step(Run(es[..k]), es[k])
  }

  predicate LocalAt(s: State, h: nat, id: nat) { h in s.live && s.live[h] == Handle(id, None) }

  /** The registry holds exactly the unfreed local handles, each under its own id. */
  ghost predicate Agrees(s: State) {
    && (forall id | id in s.entries :: LocalAt(s, s.entries[id], id))
    && (forall h | h in s.live && s.live[h].owner.None? ::
          s.live[h].id in s.entries && s.entries[s.live[h].id] == h)
    && (forall h | h in s.live :: h < s.clock)
  }

  /** Creating a handle keeps the agreement exactly when the next id is free. */
  lemma CreateAgreesIff(s: State)
    requires Agrees(s)
    ensures Agrees(Step(s, Create)) <==> s.next !in s.entries
  {
    var s' := Step(s, Create);
    if s.next in s.entries {
      var h := s.entries[s.next];
      assert LocalAt(s, h, s.next);
      assert s'.live[h] == s.live[h] && s'.entries[s.next] == s.clock != h;
    }
  }

  lemma FreeAgrees(s: State, h: nat)
    requires Agrees(s)
    ensures Agrees(Step(s, Free(h)))
    ensures h in s.live && s.live[h].owner.Some? ==> Step(s, Free(h)).entries == s.entries
  {
    var s' := Step(s, Free(h));
    forall id | id in s'.entries ensures LocalAt(s', s'.entries[id], id) {
      assert LocalAt(s, s.entries[id], id);
    }
  }

  lemma DeserializeAgrees(s: State, id: nat, owner: PeerId)
    requires Agrees(s)
    ensures Agrees(Step(s, Deserialize(id, owner)))
    ensures Step(s, Deserialize(id, owner)).entries == s.entries
  {
    var s' := Step(s, Deserialize(id, owner));
    forall i | i in s'.entries ensures LocalAt(s', s'.entries[i], i) {
      assert LocalAt(s, s.entries[i], i);
    }
  }

  lemma StepAgreesIff(s: State, e: Event)
    requires Agrees(s)
    ensures Agrees(Step(s, e)) <==> (e.Create? ==> s.next !in s.entries)
  {
    hide Agrees, Step;
    match e
    case Create => CreateAgreesIff(s);
    case Deserialize(id, owner) => DeserializeAgrees(s, id, owner);
    case Free(h) => FreeAgrees(s, h);
  }

  /** Every creation of the run meets an id that is not in use. */
  ghost predicate UnusedIds(es: seq<Event>) {
    forall k | 0 <= k < |es| && es[k].Create? :: Run(es[..k]).next !in Run(es[..k]).entries
  }

  lemma UnusedPrefix(es: seq<Event>)
    requires es != []
    ensures
      var k := |es| - 1;
      UnusedIds(es) <==> UnusedIds(es[..k]) && (es[k].Create? ==> Run(es[..k]).next !in Run(es[..k]).entries)
  {
    hide Run;
    var k := |es| - 1;
    assert forall i | 0 <= i < k :: es[..k][i] == es[i] && es[..k][..i] == es[..i];
  }

  /** In every run, the registry agrees with the unfreed local handles all along if
      and only if each creation met an unused id. */
  lemma {:induction false} RegistryAgreesIff(es: seq<Event>)
    ensures UnusedIds(es) <==> forall n | 0 <= n <= |es| :: Agrees(Run(es[..n]))
    decreases |es|
  {
    hide Agrees, Step, UnusedIds;
    if es == [] {
      InitAgrees();
      assert es[..0] == [];
    } else {
      var k := |es| - 1;
      RegistryAgreesIff(es[..k]);
      UnusedPrefix(es);
      assert es[..|es|] == es && es[..k][..k] == es[..k];
      assert forall n | 0 <= n <= k :: es[..k][..n] == es[..n];
      if Agrees(Run(es[..k])) { StepAgreesIff(Run(es[..k]), es[k]); }
    }
  }

  lemma InitAgrees()
    ensures Agrees(Init) && UnusedIds([])
  {
  }

  function Creations(es: seq<Event>): nat {
    if es == [] then 0 else Creations(es[..|es| - 1]) + Hit(es[|es| - 1].Create?)
  }

  /** How many creations come before the one that gets this id: ids start at 1
      and 0 is handed out last. */
  function Rank(id: nat): int { if id == 0 then U64 - 1 else id - 1 }

  lemma {:induction false} IdsInTurn(es: seq<Event>)
    requires Creations(es) <= U64
    ensures Run(es).next == (Creations(es) + 1) % U64
    ensures forall id | id in Run(es).entries :: Rank(id) < Creations(es)
    decreases |es|
  {
    if es != [] { IdsInTurn(es[..|es| - 1]); }
  }

  lemma {:induction false} FewCreationsMeetUnusedIds(es: seq<Event>)
    requires Creations(es) <= U64
    ensures UnusedIds(es)
    decreases |es|
  {
    if es != [] {
      hide Run, UnusedIds;
      var k := |es| - 1;
      FewCreationsMeetUnusedIds(es[..k]);
      UnusedPrefix(es);
      IdsInTurn(es[..k]);
    } else {
      InitAgrees();
    }
  }

  /** With at most 2^64 creations, and any number of other steps, the registry
      holds exactly the unfreed local handles. */
  lemma RegistryAgrees(es: seq<Event>)
    requires Creations(es) <= U64
    ensures Agrees(Run(es))
  {
    hide Run, Agrees, UnusedIds;
    FewCreationsMeetUnusedIds(es);
    RegistryAgreesIff(es);
    assert es[..|es|] == es;
  }

  // ---------------------------------------------------------------------
  //  Past the wrap-around
  // ---------------------------------------------------------------------

  /** One handle that stays, then `n` handles created and freed at once. */
  function Cycle(n: nat): seq<Event> {
    if n == 0 then [Create] else Cycle(n - 1) + [Create] + [Free(2 * n - 1)]
  }

  lemma RunOneMore(es: seq<Event>, e: Event)
    ensures Run(es + [e]) == Step(Run(es), e)
  {
    assert (es + [e])[..|es|] == es;
  }

  function AfterCycle(n: nat): State { State(2 * n + 1, (n + 2) % U64, map[1 := 0], map[0 := Handle(1, None)]) }

  lemma {:induction false} CycleRuns(n: nat)
    requires n < U64
    ensures Run(Cycle(n)) == AfterCycle(n)
  {
    hide Run, Step;
    if n == 0 {
      FirstCreate();
    } else {
      CycleRuns(n - 1);
      RunOneMore(Cycle(n - 1), Create);
      RunOneMore(Cycle(n - 1) + [Create], Free(2 * n - 1));
      OneCycle(n);
    }
  }

  lemma FirstCreate()
    ensures Run([Create]) == AfterCycle(0)
  {
    assert [Create][..0] == [];
    assert Run([]) == Init;
    assert map[][1 := 0] == map[1 := 0];
  }

  lemma OneCycle(n: nat)
    requires 0 < n < U64
    ensures Step(Step(AfterCycle(n - 1), Create), Free(2 * n - 1)) == AfterCycle(n)
  {
    var s := Step(AfterCycle(n - 1), Create);
    var t := Step(s, Free(2 * n - 1));
    var id := (n + 1) % U64;
    NotYetWrapped(n);
    assert s.live[2 * n - 1] == Handle(id, None);
    assert t.entries == map[1 := 0];
    assert t.live == map[0 := Handle(1, None)];
  }

  lemma NotYetWrapped(n: nat)
    requires 0 < n < U64
    ensures (n + 1) % U64 != 1
  {
    if n + 1 == U64 { assert (n + 1) % U64 == 0; }
  }

  /** A handle that outlives 2^64 - 1 others loses its entry: the next creation
      takes its id while it is still in use. */
  lemma WrappedIdIsTaken()
    ensures
      var before := Cycle(U64 - 1);
      var s, s' := Run(before), Run(before + [Create]);
      && Agrees(s) && LocalAt(s, 0, 1) && s.entries[1] == 0
      && LocalAt(s', 0, 1) && s'.entries[1] != 0 && !Agrees(s')
  {
    hide Run, Cycle;
    var before := Cycle(U64 - 1);
    CycleRuns(U64 - 1);
    RunOneMore(before, Create);
    var s := AfterCycle(U64 - 1);
    assert s.next == (U64 + 1) % U64 == 1;
    CreateAgreesIff(s);
  }

  /** A put naming an id that no live local handle has changes no memory. */
  lemma FreedIdIsInert(es: seq<Event>, m: Memory, id: nat, off: nat, data: seq<Byte>)
    requires UnusedIds(es) && Backed(m) && m.handles.Keys == Run(es).entries.Keys
    requires forall h | h in Run(es).live :: Run(es).live[h] != Handle(id, None)
    ensures ApplyPut(m, id, off, data) == m
  {
    hide Run;
    RegistryAgreesIff(es);
    assert es[..|es|] == es;
    var s := Run(es);
    assert Agrees(s);
    assert id in s.entries ==> LocalAt(s, s.entries[id], id);
    assert id !in m.handles.Keys;
  }
}
