/** The memory side of the plugin as it runs: buffers are arrays written in
    place, possibly one array under several handles.  Ghost histories tie the
    tables to the runs of the registry and of the pending gets. */
module RmaNode {
  import opened Prelude
  import opened Buffers
  import opened Codec
  import opened Rma
  import opened Gets
  import opened GetRuns
  import Registry
  import S = Serialize

  class Node {
    var nextId: nat
    var handles: map<nat, array<Byte>>
    var pending: seq<nat>
    var keys: map<nat, Key>
    var done: seq<Done>
    ghost var calls: seq<Registry.Event>
    ghost var events: seq<Gets.Event>

    ghost function Handles(): Registry.State reads this`calls { Registry.Run(calls) }

    ghost function Table(): Table reads this`events { Gets.Run(events) }

    /** The tables are what the calls and events so far make of them. */
    ghost predicate Valid()
      reads this
    {
      && nextId == Handles().next < U64 && handles.Keys == Handles().entries.Keys
      && pending == OpsOf(Table().pending) && keys == Table().keys && done == Table().done
    }

    constructor ()
      ensures Valid() && calls == [] && events == [] && handles == map[]
    {
      nextId, handles, pending, keys, done, calls, events := 1, map[], [], map[], [], [], [];
    }

    method MemHandleCreate(buf: array<Byte>, flags: nat) returns (h: S.MemHandle)
      requires Valid()
      modifies this`nextId, this`handles, this`calls
      ensures Valid() && calls == old(calls) + [Registry.Create]
      ensures h == S.MemHandle(old(nextId), buf.Length, flags, None) && handles == old(handles)[h.id := buf]
    {
      hide Registry.Run, Gets.Run;
      h := S.MemHandle(nextId, buf.Length, flags, None);
      nextId := (nextId + 1) % U64;
      handles := handles[h.id := buf];
      Registry.RunOneMore(calls, Registry.Create);
      calls := calls + [Registry.Create];
    }

    /** A handle received from another process: nothing is registered for it. */
    method MemHandleDeserialize(data: seq<Byte>, isPeer: PeerId -> bool) returns (r: S.Parsed<S.MemHandle>)
      requires Valid()
      modifies this`calls
      ensures Valid() && r == S.ParseHandle(data, isPeer)
      ensures r.Ok? ==>
                && r.value.owner.Some?
                && calls == old(calls) + [Registry.Deserialize(r.value.id, r.value.owner.value)]
                && Handles().entries == old(Handles()).entries
                && Handles().live == old(Handles()).live[old(Handles()).clock := Registry.Handle(r.value.id, r.value.owner)]
      ensures !r.Ok? ==> calls == old(calls)
    {
      hide Registry.Run, Gets.Run, FromBE;
      r := S.ParseHandle(data, isPeer);
      if r.Ok? {
        ghost var e := Registry.Deserialize(r.value.id, r.value.owner.value);
        Registry.RunOneMore(calls, e);
        calls := calls + [e];
      }
    }

    /** `step` is the call that produced the handle; a handle is freed once. */
    method MemHandleFree(h: S.MemHandle, ghost step: nat)
      requires Valid() && step in Handles().live && Handles().live[step] == Registry.Handle(h.id, h.owner)
      modifies this`handles, this`calls
      ensures Valid() && calls == old(calls) + [Registry.Free(step)]
      ensures handles == if h.owner.None? then old(handles) - {h.id} else old(handles)
    {
      hide Registry.Run, Gets.Run;
      if h.owner.None? {
        handles := handles - {h.id};
      }
      Registry.RunOneMore(calls, Registry.Free(step));
      calls := calls + [Registry.Free(step)];
    }

    /** Writes into one registered buffer, clamped to it; every handle on the same
        array sees the change and no other buffer changes. */
    method PutAt(id: nat, offset: nat, payload: seq<Byte>)
      modifies handles.Values
      ensures forall h | h in handles ::
                handles[h][..] == if id in handles && handles[h] == handles[id]
                                  then PutInto(old(handles[h][..]), offset, payload)
                                  else old(handles[h][..])
    {
      if id in handles {
        var buf := handles[id];
        assert buf in handles.Values;
        var n := Fits(|payload|, buf.Length, offset);
        if n > 0 {
          CopyAt(buf, offset, payload, n);
        }
      }
    }

    method HandleRmaPut(h: Header, payload: seq<Byte>)
      modifies handles.Values
      ensures forall g | g in handles ::
                handles[g][..] == if h.handleId in handles && handles[g] == handles[h.handleId]
                                  then PutInto(old(handles[g][..]), h.offset, payload)
                                  else old(handles[g][..])
    {
      PutAt(h.handleId, h.offset, payload);
    }

    /** Reads byte by byte into a fresh response buffer. */
    method HandleRmaGetRequest(self: PeerId, h: Header) returns (r: Option<Msg>)
      ensures r.None? <==> h.handleId !in handles
      ensures h.handleId in handles ==>
                r == Some(ResponseTo(self, h, GetFrom(handles[h.handleId][..], h.offset, h.rmaLength)))
    {
      if h.handleId !in handles {
        return None;
      }
      var buf := handles[h.handleId];
      var n := Fits(h.rmaLength, buf.Length, h.offset);
      var data: seq<Byte> := [];
      var i := 0;
      while i < n
        invariant 0 <= i <= n && |data| == i
        invariant forall k | 0 <= k < i :: data[k] == buf[h.offset + k]
      {
        data := data + [buf[h.offset + i]];
        i := i + 1;
      }
      assert data == GetFrom(buf[..], h.offset, h.rmaLength);
      r := Some(ResponseTo(self, h, data));
    }

    method Get(op: nat, local: S.MemHandle, localOffset: nat)
      requires Valid()
      modifies this`pending, this`keys, this`events
      ensures Valid() && events == old(events) + [Issue(op, Key(local.id, localOffset))]
    {
      hide Registry.Run, Gets.Run;
      ghost var e := Issue(op, Key(local.id, localOffset));
      OpsOfMore(Table().pending, Entry(op, Table().clock));
      keys := keys[op := Key(local.id, localOffset)];
      pending := pending + [op];
      RunOneMore(events, e);
      events := events + [e];
    }

    method FindGet(key: Key) returns (i: nat)
      requires Valid()
      ensures i == FirstWith(Table(), key)
    {
      hide Registry.Run, Gets.Run;
      i := 0;
      while i < |pending|
        invariant i <= |pending|
        invariant forall j | 0 <= j < i :: !HasKey(Table(), Table().pending[j].op, key)
      {
        if pending[i] in keys && keys[pending[i]] == key {
          return;
        }
        i := i + 1;
      }
    }

    /** The i-th pending operation completes. */
    method Complete(i: nat, ret: Ret, ghost e: Gets.Event)
      requires Valid() && i < |pending| && Step(Table(), e) == Finish(Table().(clock := Table().clock + 1), i, ret)
      modifies this`pending, this`done, this`events
      ensures Valid() && events == old(events) + [e]
    {
      hide Registry.Run, Gets.Run, Step;
      OpsOfLess(Table().pending, i);
      done := done + [Done(pending[i], ret)];
      pending := RemoveAt(pending, i);
      RunOneMore(events, e);
      events := events + [e];
    }

    /** `answers` is the get the response answers, which the code does not know. */
    method HandleRmaGetResponse(h: Header, payload: seq<Byte>, ghost answers: nat)
      requires Valid()
      modifies this`pending, this`done, this`events, handles.Values
      ensures Valid() && events == old(events) + [Respond(Key(h.localHandleId, h.localOffset), answers)]
      ensures
        var key := Key(h.localHandleId, h.localOffset);
        var found := FirstWith(old(Table()), key) < |old(pending)|;
        forall g | g in handles ::
          handles[g][..] == if found && key.handle in handles && handles[g] == handles[key.handle]
                            then PutInto(old(handles[g][..]), key.offset, payload)
                            else old(handles[g][..])
    {
      hide Registry.Run, Gets.Run, Finish, PutInto;
      var key := Key(h.localHandleId, h.localOffset);
      ghost var e := Respond(key, answers);
      FirstIgnoresClock(Table(), key, Table().clock + 1);
      var i := FindGet(key);
      if i < |pending| {
        Complete(i, Success, e);
        PutAt(key.handle, key.offset, payload);
      } else {
        RunOneMore(events, e);
        events := events + [e];
      }
    }

    /** A get request could not be sent. */
    method GetRequestFailed(op: nat)
      requires Valid()
      modifies this`done, this`events
      ensures Valid() && events == old(events) + [RequestFailed(op)]
    {
      hide Registry.Run, Gets.Run;
      done := done + [Done(op, ProtocolError)];
      RunOneMore(events, RequestFailed(op));
      events := events + [RequestFailed(op)];
    }

    /** The last part of `cancel`: a pending get. */
    method CancelGet(op: nat)
      requires Valid()
      modifies this`pending, this`done, this`events
      ensures Valid() && events == old(events) + [Gets.Cancel(op)]
    {
      hide Registry.Run, Gets.Run, Finish;
      ghost var e := Gets.Cancel(op);
      var i := 0;
      while i < |pending|
        invariant i <= |pending| && Valid() && events == old(events)
        invariant forall j | 0 <= j < i :: Table().pending[j].op != op
      {
        if pending[i] == op {
          Complete(i, Canceled, e);
          return;
        }
        i := i + 1;
      }
      RunOneMore(events, e);
      events := events + [e];
    }
  }

  lemma OpsOfMore(es: seq<Entry>, e: Entry)
    ensures OpsOf(es + [e]) == OpsOf(es) + [e.op]
  {
  }

  lemma OpsOfLess(es: seq<Entry>, i: nat)
    requires i < |es|
    ensures OpsOf(RemoveAt(es, i)) == RemoveAt(OpsOf(es), i)
  {
  }

  // ---------------------------------------------------------------------
  //  What the runs guarantee, on the objects
  // ---------------------------------------------------------------------

  /** While creations meet unused ids, the registered ids are those of the unfreed
      local handles: an id freed or never created is inert, and one in use is not
      lost. */
  lemma RegisteredIsLive(n: Node, id: nat)
    requires n.Valid() && Registry.UnusedIds(n.calls)
    ensures id in n.handles <==> exists step :: Registry.LocalAt(n.Handles(), step, id)
  {
    hide Registry.Run, Registry.UnusedIds, Gets.Run;
    Registry.RegistryAgreesIff(n.calls);
    assert n.calls[..|n.calls|] == n.calls;
    var s := n.Handles();
    assert Registry.Agrees(s);
    assert id in n.handles <==> id in s.entries;
    if id in s.entries { assert Registry.LocalAt(s, s.entries[id], id); }
  }

  /** While gets keep to the discipline, no two pending operations write to the
      same place. */
  lemma PendingPlacesDiffer(n: Node, once: bool, i: nat, j: nat)
    requires n.Valid() && Genuine(n.events, once) && Disciplined(n.events, once)
    requires i < |n.pending| && j < |n.pending| && i != j
    ensures n.pending[i] in n.keys && n.pending[j] in n.keys && n.keys[n.pending[i]] != n.keys[n.pending[j]]
  {
    hide Registry.Run, Gets.Run, Genuine, Disciplined;
    PendingIsOnlyOne(n.events, once, i);
    PendingIsOnlyOne(n.events, once, j);
  }
}
