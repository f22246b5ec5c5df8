/** Revoke and the expiry sweep when other calls come between their steps. */
module Disturbed {
  import opened Bytes
  import opened Engine
  import opened History
  import opened Interleaving
  import opened Linearization
  import opened LeaseIndex

  // The lease mutex is given back after the expired leases are listed, after each key set is read, and
  // before each callback; whatever was read is not looked at again.

  // ----- The thread that revokes, and everybody else -----

  /** What the thread has yet to do: revoke the leases `todo`, and before them delete `keys` and erase `id`. */
  datatype Sweeper = Idle(todo: seq<int>) | Revoking(id: int, keys: seq<Bytes>, todo: seq<int>)

  datatype Turn =
    | Other(op: Op)             // any call of another thread, or a step of another Revoke
    | Read(order: seq<Bytes>)   // the next lease's key set is read, or the lease is found gone
    | Callback                  // the next key is deleted
    | Erase                     // the lease is erased

  datatype Disturbance = Disturbance(state: State, sweeper: Sweeper)

  ghost predicate CanTake(d: Disturbance, m: Turn)
  {
    match m
    case Other(_) => true
    case Read(order) =>
      && d.sweeper.Idle? && d.sweeper.todo != []
      && var id := d.sweeper.todo[0];
         id in d.state.leases ==> Enumerates(order, d.state.leases[id].keys)
    case Callback => d.sweeper.Revoking? && d.sweeper.keys != []
    case Erase => d.sweeper.Revoking? && d.sweeper.keys == []
  }

  /** The delete-key callback. */
  function DeleteOne(key: Bytes): Op
  {
    Delete(key, [], false, [])
  }

  /** What a move does to the store and the lease table, as calls. */
  ghost function CallsOf(d: Disturbance, m: Turn): seq<Op>
    requires CanTake(d, m)
  {
    match m
    case Other(op) => [op]
    case Read(_) => []
    case Callback => [DeleteOne(d.sweeper.keys[0])]
    case Erase => [DropLease(d.sweeper.id)]
  }

  ghost function Taken(d: Disturbance, m: Turn): Disturbance
    requires CanTake(d, m)
  {
    var w := d.sweeper;
    match m
    case Other(op) => Disturbance(Step(d.state, op), w)
    case Read(order) =>
      d.(sweeper := if w.todo[0] in d.state.leases then Revoking(w.todo[0], order, w.todo[1..]) else Idle(w.todo[1..]))
    case Callback => Disturbance(Step(d.state, DeleteOne(w.keys[0])), Revoking(w.id, w.keys[1..], w.todo))
    case Erase => Disturbance(Step(d.state, DropLease(w.id)), Idle(w.todo))
  }

  ghost predicate CanTakeAll(d: Disturbance, turns: seq<Turn>)
    decreases |turns|, 0
  {
    turns == []
    || (CanTakeAll(d, turns[..|turns| - 1])
        && CanTake(TakenAll(d, turns[..|turns| - 1]), turns[|turns| - 1]))
  }

  ghost function TakenAll(d: Disturbance, turns: seq<Turn>): Disturbance
    requires CanTakeAll(d, turns)
    decreases |turns|, 1
  {
    if turns == [] then d else Taken(TakenAll(d, turns[..|turns| - 1]), turns[|turns| - 1])
  }

  ghost function AllCalls(d: Disturbance, turns: seq<Turn>): seq<Op>
    requires CanTakeAll(d, turns)
  {
    if turns == [] then []
    else
      AllCalls(d, turns[..|turns| - 1])
      + CallsOf(TakenAll(d, turns[..|turns| - 1]), turns[|turns| - 1])
  }

  lemma {:induction false} MovesAreCalls(d: Disturbance, turns: seq<Turn>)
    requires CanTakeAll(d, turns)
    ensures TakenAll(d, turns).state == Run(d.state, AllCalls(d, turns))
  {
    hide Step;
    if turns != [] {
      var init, last := turns[..|turns| - 1], turns[|turns| - 1];
      MovesAreCalls(d, init);
      var calls := CallsOf(TakenAll(d, init), last);
      if last.Read? {
        assert AllCalls(d, turns) == AllCalls(d, init);
      } else {
        assert calls == [calls[0]];
        RunSnoc(d.state, AllCalls(d, init), calls[0]);
      }
    }
  }

  // ----- A sweep takes what it listed -----

  lemma StepLeaseKeys(s: State, op: Op, id: int)
    requires id < s.nextLeaseId
    ensures id in Step(s, op).leases <==> id in s.leases && op != DropLease(id)
    ensures id < Step(s, op).nextLeaseId
  {
    if op.Txn? {
      ApplyOpsFrame(Bumped(s), s.revision + 1, AsOps(s, op));
    }
  }

  predicate Ahead(w: Sweeper, id: int)
  {
    id in w.todo || (w.Revoking? && w.id == id)
  }

  /** Along the sweep a lease is gone exactly if another thread erased it or its turn is past. */
  ghost predicate OnCourse(d: Disturbance, ids: seq<int>, dropped: bool, id: int)
  {
    && id < d.state.nextLeaseId
    && (forall x :: Ahead(d.sweeper, x) ==> x in ids)
    && (id in d.state.leases ==> !dropped && (id in ids ==> Ahead(d.sweeper, id)))
    && (id !in d.state.leases ==> dropped || id in ids)
  }

  lemma {:induction false} StaysOnCourse(s: State, ids: seq<int>, turns: seq<Turn>, id: int)
    requires CanTakeAll(Disturbance(s, Idle(ids)), turns) && id in s.leases && id < s.nextLeaseId
    ensures OnCourse(TakenAll(Disturbance(s, Idle(ids)), turns), ids, Other(DropLease(id)) in turns, id)
  {
    hide Step;
    var d := Disturbance(s, Idle(ids));
    if turns != [] {
      var init, last := turns[..|turns| - 1], turns[|turns| - 1];
      StaysOnCourse(s, ids, init, id);
      assert turns == init + [last];
      var before := TakenAll(d, init);
      match last
      case Other(op) => StepLeaseKeys(before.state, op, id);
      case Read(_) =>
        assert forall x :: x in before.sweeper.todo <==> x == before.sweeper.todo[0] || x in before.sweeper.todo[1..];
      case Callback => StepLeaseKeys(before.state, DeleteOne(before.sweeper.keys[0]), id);
      case Erase => StepLeaseKeys(before.state, DropLease(before.sweeper.id), id);
    }
  }

  /** Whatever calls come between its steps, in whatever order leases and keys come: of the leases live when
      it listed the expired ones, a sweep takes exactly those that had expired then. Renewals since do not
      count; the others are gone only if another thread erased them. */
  lemma SweepTakesTheListed(s: State, now: int, ids: seq<int>, turns: seq<Turn>, id: int)
    requires Indexed(false, s) && Enumerates(ids, Expired(s, now)) && id in s.leases
    requires CanTakeAll(Disturbance(s, Idle(ids)), turns)
    requires TakenAll(Disturbance(s, Idle(ids)), turns).sweeper == Idle([])
    ensures id in TakenAll(Disturbance(s, Idle(ids)), turns).state.leases
            <==> s.leases[id].expireTime > now && Other(DropLease(id)) !in turns
  {
    hide Indexed;
    SoundIsIndexed(s);
    StaysOnCourse(s, ids, turns, id);
    assert id in ids <==> id in Expired(s, now);
  }

  /** So for every expired lease a KeepAlive that comes after the listing is in vain, however far it pushes
      the expiry. */
  lemma LateRenewalIsIgnored(s: State, now: int, ids: seq<int>, later: int, turns: seq<Turn>, id: int)
    requires Indexed(false, s) && Enumerates(ids, Expired(s, now)) && id in Expired(s, now)
    requires var d := Disturbance(s, Idle(ids));
             && CanTakeAll(d, [Other(KeepAlive(id, later))] + turns)
             && TakenAll(d, [Other(KeepAlive(id, later))] + turns).sweeper == Idle([])
    ensures var renewed := Step(s, KeepAlive(id, later));
            id in renewed.leases && renewed.leases[id].expireTime == later + s.leases[id].ttl
    ensures id !in TakenAll(Disturbance(s, Idle(ids)), [Other(KeepAlive(id, later))] + turns).state.leases
  {
    hide Indexed;
    SweepTakesTheListed(s, now, ids, [Other(KeepAlive(id, later))] + turns, id);
  }

  // ----- The keys of a lease the sweep spares -----

  /** No other thread writes or clears the key. */
  ghost predicate OthersSpare(d: Disturbance, turns: seq<Turn>, key: Bytes)
    requires CanTakeAll(d, turns)
  {
    turns == []
    || (OthersSpare(d, turns[..|turns| - 1], key)
        && (turns[|turns| - 1].Other? ==>
              !Touched(Entries(TakenAll(d, turns[..|turns| - 1]).state, turns[|turns| - 1].op), key)))
  }

  /** The lease is live and not to be revoked, its key's record is as in `s` and not to be deleted. */
  ghost predicate Spared(s: State, d: Disturbance, id: int, key: Bytes)
  {
    && Indexed(false, d.state) && id in d.state.leases && !Ahead(d.sweeper, id)
    && key in s.data && s.data[key].kv.lease == id && Lookup(d.state.data, key) == Lookup(s.data, key)
    && (d.sweeper.Revoking? ==> key !in d.sweeper.keys)
  }

  lemma UntouchedRecord(s: State, op: Op, key: Bytes)
    requires !Touched(Entries(s, op), key)
    ensures Lookup(Step(s, op).data, key) == Lookup(s.data, key)
  {
    hide Step, Touched, Entries;
    MarkRun(s, [op], key);
    assert [op][..0] == [] && Run(s, [op]) == Step(s, op);
    assert Log(s, [op]) == Entries(s, op);
  }

  lemma OtherKeyUntouched(s: State, key: Bytes, other: Bytes)
    requires key != other
    ensures !Touched(Entries(s, DeleteOne(other)), key)
  {
  }

  lemma CallSpares(s: State, d: Disturbance, op: Op, id: int, key: Bytes)
    requires Spared(s, d, id, key) && !Touched(Entries(d.state, op), key) && op != DropLease(id)
    ensures Spared(s, Disturbance(Step(d.state, op), d.sweeper), id, key)
  {
    hide Step, Touched, Entries, Indexed;
    UntouchedRecord(d.state, op, key);
    StepKeepsIndex(false, d.state, op);
    SoundIsIndexed(d.state);
    StepLeaseKeys(d.state, op, id);
  }

  lemma MoveSpares(s: State, d: Disturbance, m: Turn, id: int, key: Bytes)
    requires Spared(s, d, id, key) && CanTake(d, m) && m != Other(DropLease(id))
    requires m.Other? ==> !Touched(Entries(d.state, m.op), key)
    ensures Spared(s, Taken(d, m), id, key)
  {
    hide Step, Touched, Entries, Indexed;
    match m
    case Other(op) => CallSpares(s, d, op, id, key);
    case Read(order) =>
      SoundIsIndexed(d.state);
      assert d.sweeper.todo[0] != id;
      assert forall x :: x in d.sweeper.todo[1..] ==> x in d.sweeper.todo;
    case Callback =>
      OtherKeyUntouched(d.state, key, d.sweeper.keys[0]);
      CallSpares(s, d, DeleteOne(d.sweeper.keys[0]), id, key);
      assert forall x :: x in d.sweeper.keys[1..] ==> x in d.sweeper.keys;
    case Erase =>
      NothingTouched(d.state, DropLease(d.sweeper.id), key);
      CallSpares(s, d, DropLease(d.sweeper.id), id, key);
  }

  lemma NothingTouched(s: State, op: Op, key: Bytes)
    requires op.DropLease?
    ensures !Touched(Entries(s, op), key)
  {
  }

  /** The keys of a lease that is not to be revoked vanish only by what other threads write, or by a callback
      whose key set was read before: whatever the thread reads from now on, under other leases, does not
      contain them. Started by a listing, it has read nothing before. */
  lemma {:induction false} SparedLeaseKeepsItsKeys(s: State, w: Sweeper, turns: seq<Turn>, id: int, key: Bytes)
    requires Indexed(false, s) && id in s.leases && key in s.leases[id].keys
    requires !Ahead(w, id) && (w.Revoking? ==> key !in w.keys)
    requires CanTakeAll(Disturbance(s, w), turns) && Other(DropLease(id)) !in turns
    requires OthersSpare(Disturbance(s, w), turns, key)
    ensures Spared(s, TakenAll(Disturbance(s, w), turns), id, key)
  {
    hide Indexed, Taken, CanTake, Touched, Entries;
    if turns == [] {
      SoundIsIndexed(s);
    } else {
      var init, last := turns[..|turns| - 1], turns[|turns| - 1];
      assert turns == init + [last];
      SparedLeaseKeepsItsKeys(s, w, init, id, key);
      MoveSpares(s, TakenAll(Disturbance(s, w), init), last, id, key);
    }
  }

  /** So a lease renewed before the sweep listed what had expired keeps its keys through the whole sweep,
      however it is interrupted, unless another thread writes or clears them. */
  lemma RenewedLeaseKeepsItsKeys(s: State, now: int, ids: seq<int>, turns: seq<Turn>, id: int, key: Bytes)
    requires Indexed(false, s) && Enumerates(ids, Expired(s, now))
    requires id in s.leases && s.leases[id].expireTime > now && key in s.leases[id].keys
    requires CanTakeAll(Disturbance(s, Idle(ids)), turns) && Other(DropLease(id)) !in turns
    requires OthersSpare(Disturbance(s, Idle(ids)), turns, key)
    ensures var t := TakenAll(Disturbance(s, Idle(ids)), turns).state;
            id in t.leases && key in s.data && key in t.data && t.data[key] == s.data[key]
  {
    hide Indexed;
    assert id !in Expired(s, now);
    SparedLeaseKeepsItsKeys(s, Idle(ids), turns, id, key);
  }

  // ----- What a disturbed Revoke leaves and takes -----

  /** What the log says of a key: its last live put if there is one, nothing if it was cleared since. */
  ghost predicate Ends(data: Data, log: seq<Entry>, key: Bytes)
  {
    var puts := LivePuts(log, key);
    if puts != [] then
      var last := puts[|puts| - 1];
      key in data && data[key].kv.lease == last.lease && data[key].kv.value == last.value
    else Touched(log, key) ==> key !in data
  }

  lemma {:induction false} OpsEnd(s: State, revision: int, ops: seq<RequestOp>, log: seq<Entry>, key: Bytes)
    requires Ends(s.data, log, key)
    ensures Ends(ApplyOps(s, revision, ops).data, log + OpsEntries(revision, ops), key)
  {
    if ops == [] {
      assert log + OpsEntries(revision, ops) == log;
    } else {
      var init, last := ops[..|ops| - 1], ops[|ops| - 1];
      hide Ends, ApplyOp, OpEntries;
      OpsEnd(s, revision, init, log, key);
      OneOpEnds(ApplyOps(s, revision, init), revision, last, log + OpsEntries(revision, init), key);
      assert log + OpsEntries(revision, ops) == log + OpsEntries(revision, init) + OpEntries(revision, last);
    }
  }

  lemma EntryEnds(before: Data, after: Data, log: seq<Entry>, e: Entry, key: Bytes)
    requires Ends(before, log, key)
    requires if !Touches(e, key) then Lookup(after, key) == Lookup(before, key)
             else if e.Wrote? then key in after && after[key].kv.lease == e.lease && after[key].kv.value == e.value
             else key !in after
    ensures Ends(after, log + [e], key)
  {
    LivePutsSnoc(log, e, key);
    TouchedAppend(log, [e], key);
    assert Touched([e], key) <==> Touches(e, key) by {
      assert [e][0] == e;
    }
  }

  lemma OneOpEnds(s: State, revision: int, op: RequestOp, log: seq<Entry>, key: Bytes)
    requires Ends(s.data, log, key)
    ensures Ends(ApplyOp(s, revision, op).data, log + OpEntries(revision, op), key)
  {
    hide Ends, KeyInRange, AttachKey, DetachKey;
    match op
    case PutOp(k, value, lease, _) =>
      EntryEnds(s.data, ApplyOp(s, revision, op).data, log, Wrote(k, value, lease, revision), key);
    case DeleteOp(start, end, _) =>
      EntryEnds(s.data, ApplyOp(s, revision, op).data, log, Cleared(start, end), key);
    case _ => assert log + OpEntries(revision, op) == log;
  }

  lemma {:induction false} RunEnds(s: State, ops: seq<Op>, key: Bytes)
    ensures Ends(Run(s, ops).data, Log(s, ops), key)
  {
    hide ApplyOps, OpsEntries, AsOps;
    if ops != [] {
      var init, last := ops[..|ops| - 1], ops[|ops| - 1];
      RunEnds(s, init, key);
      var t := Run(s, init);
      if last.Put? || last.Delete? || last.Txn? {
        StepAsOps(t, last);
        OpsEnd(Bumped(t), t.revision + 1, AsOps(t, last), Log(s, init), key);
      } else {
        assert Log(s, ops) == Log(s, init);
      }
    }
  }

  /** The last put since the key was last cleared, if there is one, named the lease. */
  predicate LatelyUnder(log: seq<Entry>, key: Bytes, id: int)
  {
    var puts := LivePuts(log, key);
    puts != [] && puts[|puts| - 1].lease == id
  }

  predicate LatelyNotUnder(log: seq<Entry>, key: Bytes, id: int)
  {
    var puts := LivePuts(log, key);
    puts != [] && puts[|puts| - 1].lease != id
  }

  lemma {:induction false} DeletedIsTouched(s: State, ops: seq<Op>, key: Bytes)
    requires DeleteOne(key) in ops
    ensures Touched(Log(s, ops), key)
  {
    var init, last := ops[..|ops| - 1], ops[|ops| - 1];
    var entries := Entries(Run(s, init), last);
    TouchedAppend(Log(s, init), entries, key);
    if last == DeleteOne(key) {
      LessIrreflexive(key);
      assert Touches(entries[0], key);
    } else {
      DeletedIsTouched(s, init, key);
    }
  }

  /** If the key set was exact when it was read, and every key in it has since been deleted, with any
      other calls in between, then a record names the lease if and only if it was put under it since and
      neither overwritten nor cleared afterwards: exactly the late writes escape. */
  lemma OnlyLateWritesEscapeRevoke(s: State, id: int, ops: seq<Op>, key: Bytes)
    requires Indexed(true, s) && id in s.leases
    requires forall k | k in s.leases[id].keys :: DeleteOne(k) in ops
    ensures key in Run(s, ops).data && Run(s, ops).data[key].kv.lease == id
            <==> LatelyUnder(Log(s, ops), key, id)
  {
    IndexedMeans(true, s);
    MarkRun(s, ops, key);
    RunEnds(s, ops, key);
    if key in s.leases[id].keys {
      DeletedIsTouched(s, ops, key);
    }
    if !Touched(Log(s, ops), key) {
      UntouchedHasNoPuts(Log(s, ops), key);
    }
  }

  lemma {:induction false} UntouchedHasNoPuts(log: seq<Entry>, key: Bytes)
    requires !Touched(log, key)
    ensures LivePuts(log, key) == []
  {
    if log != [] {
      var init, last := log[..|log| - 1], log[|log| - 1];
      assert log == init + [last];
      TouchedAppend(init, [last], key);
      assert [last][0] == last;
      UntouchedHasNoPuts(init, key);
    }
  }

  /** While a Revoke walks its keys, those it has passed have been deleted. */
  lemma {:induction false} PassedKeysAreDeleted(
    s: State, id: int, order: seq<Bytes>, todo: seq<int>, turns: seq<Turn>)
    requires CanTakeAll(Disturbance(s, Revoking(id, order, todo)), turns)
    requires forall n | 0 <= n < |turns| :: !turns[n].Erase?
    ensures var d := Disturbance(s, Revoking(id, order, todo));
            var w := TakenAll(d, turns).sweeper;
            && w.Revoking? && w.id == id && w.todo == todo && |w.keys| <= |order|
            && w.keys == order[|order| - |w.keys|..]
            && forall i | 0 <= i < |order| - |w.keys| :: DeleteOne(order[i]) in AllCalls(d, turns)
  {
    if turns != [] {
      var init, last := turns[..|turns| - 1], turns[|turns| - 1];
      assert forall n | 0 <= n < |init| :: init[n] == turns[n];
      PassedKeysAreDeleted(s, id, order, todo, init);
    }
  }

  /** The whole Revoke, from the moment it reads an exact key set to the moment it is about to erase the
      lease, whatever else goes on: the records that name the lease at the end are exactly those put under
      it since. */
  lemma WhatRevokeLeaves(s: State, id: int, order: seq<Bytes>, todo: seq<int>, turns: seq<Turn>, key: Bytes)
    requires Indexed(true, s) && id in s.leases && Enumerates(order, s.leases[id].keys)
    requires CanTakeAll(Disturbance(s, Revoking(id, order, todo)), turns)
    requires forall n | 0 <= n < |turns| :: !turns[n].Erase?
    requires TakenAll(Disturbance(s, Revoking(id, order, todo)), turns).sweeper == Revoking(id, [], todo)
    ensures var d := Disturbance(s, Revoking(id, order, todo));
            var t := TakenAll(d, turns).state;
            key in t.data && t.data[key].kv.lease == id <==> LatelyUnder(Log(s, AllCalls(d, turns)), key, id)
  {
    hide Indexed, CanTakeAll, TakenAll, AllCalls;
    var d := Disturbance(s, Revoking(id, order, todo));
    PassedKeysAreDeleted(s, id, order, todo, turns);
    MovesAreCalls(d, turns);
    forall k | k in s.leases[id].keys
      ensures DeleteOne(k) in AllCalls(d, turns)
    {
      assert k in order;
      var i :| 0 <= i < |order| && order[i] == k;
    }
    OnlyLateWritesEscapeRevoke(s, id, AllCalls(d, turns), key);
  }

  /** And what it takes: a callback removes its key and nothing else, and what it removes is a record that
      does not name the lease if and only if the key was put under another lease, or none, since the key
      set was read, and neither overwritten nor cleared afterwards. */
  lemma WhatRevokeTakes(s: State, id: int, order: seq<Bytes>, todo: seq<int>, turns: seq<Turn>)
    requires Indexed(true, s) && id in s.leases && Enumerates(order, s.leases[id].keys)
    requires CanTakeAll(Disturbance(s, Revoking(id, order, todo)), turns)
    requires forall n | 0 <= n < |turns| :: !turns[n].Erase?
    requires var w := TakenAll(Disturbance(s, Revoking(id, order, todo)), turns).sweeper;
             w.Revoking? && w.keys != []
    ensures var d := Disturbance(s, Revoking(id, order, todo));
            var before := TakenAll(d, turns);
            var t, key := before.state, before.sweeper.keys[0];
            && Taken(before, Callback).state.data == t.data - {key}
            && (key in t.data && t.data[key].kv.lease != id
                <==> LatelyNotUnder(Log(s, AllCalls(d, turns)), key, id))
  {
    hide CanTakeAll, TakenAll, AllCalls;
    var d := Disturbance(s, Revoking(id, order, todo));
    PassedKeysAreDeleted(s, id, order, todo, turns);
    MovesAreCalls(d, turns);
    var before := TakenAll(d, turns);
    var ops := AllCalls(d, turns);
    var t, key := before.state, before.sweeper.keys[0];
    assert key in order;
    IndexedMeans(true, s);
    MarkRun(s, ops, key);
    RunEnds(s, ops, key);
    if !Touched(Log(s, ops), key) {
      UntouchedHasNoPuts(Log(s, ops), key);
    }
    SingleKeyRange(t.data, key);
  }

  // ----- Both do happen -----

  /** In every state: a Put under the lease that comes between the last callback and the erasure outlives
      the lease. */
  lemma LateWriteEscapesRevoke(s: State, id: int, order: seq<Bytes>, key: Bytes, value: Bytes)
    ensures var t := Run(s, Deletes(order) + [Put(key, value, id)] + [DropLease(id)]);
            id !in t.leases && key in t.data && t.data[key].kv.lease == id && t.data[key].kv.value == value
  {
    RunSnoc(s, Deletes(order), Put(key, value, id));
    RunSnoc(s, Deletes(order) + [Put(key, value, id)], DropLease(id));
  }

  /** In every state: a key of the lease that is put under another lease, or none, after the key set was
      read is deleted all the same, and that write with it. */
  lemma RevokeLosesAFreshWrite(s: State, id: int, order: seq<Bytes>, key: Bytes, value: Bytes, lease: int)
    requires id in s.leases && Enumerates(order, s.leases[id].keys) && key in s.leases[id].keys && lease != id
    ensures var t := Step(s, Put(key, value, lease));
            && key in t.data && t.data[key].kv.lease == lease && t.data[key].kv.value == value
            && key !in Run(t, RevokeScript(id, order)).data
  {
    var t := Step(s, Put(key, value, lease));
    RunDeletes(t, order);
    RunSnoc(t, Deletes(order), DropLease(id));
    assert key in order;
  }
}
