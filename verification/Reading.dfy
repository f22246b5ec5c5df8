/** Revoke when it reads the key set in the middle of a call of another thread. */
module Reading {
  import opened Collections
  import opened Bytes
  import opened Engine
  import opened History
  import opened Interleaving
  import opened Linearization
  import opened LeaseIndex
  import opened Disturbed

  // GetLeaseKeys takes the lease mutex only, which is free between the DetachKey, AttachKey and store steps
  // of a Put, Delete or Txn. Here a Revoke is seen among the events of Interleaving: a moment at which the key
  // set is read, and the Deletes that begin after it.

  /** At `r` the key set is read; the store's mutex was free at `b`, and at most the call that took it there
      may still be under way. */
  ghost predicate ReadsAt(events: seq<Event>, b: nat, r: nat)
  {
    && b <= r <= |events| && Possible(events)
    && Possible(events[..b]) && After(events[..b]).pending == []
    && forall i | b < i < r :: !events[i].Begin?
  }

  ghost function At(events: seq<Event>, n: nat): Shared
    requires Possible(events) && n <= |events|
  {
    PrefixPossible(events, n);
    After(events[..n])
  }

  function KeyOf(m: Micro): Bytes
  {
    match m
    case Detach(_, key) => key
    case Attach(_, key) => key
    case Store(key, _) => key
    case Erase(key) => key
  }

  predicate Spares(ms: seq<Micro>, key: Bytes)
  {
    forall i | 0 <= i < |ms| :: KeyOf(ms[i]) != key
  }

  lemma {:induction false} DeletesSpare(data: Data, order: seq<Bytes>, key: Bytes)
    requires key !in order
    ensures Spares(DeleteMicros(data, order), key)
    decreases |order|
  {
    if order != [] {
      DeletesSpare(data, order[1..], key);
    }
  }

  lemma OpSpares(data: Data, revision: int, op: RequestOp, order: seq<Bytes>, key: Bytes)
    requires ValidOrder(data, op, order) && !Touched(OpEntries(revision, op), key)
    ensures Spares(OpMicros(data, revision, op, order), key)
  {
    var entries := OpEntries(revision, op);
    assert entries != [] ==> !Touches(entries[0], key);
    if op.DeleteOp? {
      DeletesSpare(data, order, key);
    }
  }

  /** A call makes no step on a key that it neither writes nor clears. */
  lemma {:induction false} OpsSpare(
    s: State, revision: int, ops: seq<RequestOp>, orders: seq<seq<Bytes>>, key: Bytes)
    requires ValidOrders(s, revision, ops, orders) && !Touched(OpsEntries(revision, ops), key)
    ensures Spares(OpsMicros(s, revision, ops, orders), key)
    decreases |ops|
  {
    if ops != [] {
      OpsEntriesFirst(revision, ops);
      TouchedAppend(OpEntries(revision, ops[0]), OpsEntries(revision, ops[1..]), key);
      OpSpares(s.data, revision, ops[0], orders[0], key);
      OpsSpare(ApplyOp(s, revision, ops[0]), revision, ops[1..], orders[1..], key);
    }
  }

  lemma {:induction false} OpsEntriesFirst(revision: int, ops: seq<RequestOp>)
    requires ops != []
    ensures OpsEntries(revision, ops) == OpEntries(revision, ops[0]) + OpsEntries(revision, ops[1..])
  {
    var n := |ops| - 1;
    if n == 0 {
      assert ops[..0] == [];
    } else {
      OpsEntriesFirst(revision, ops[..n]);
      assert ops[..n][1..] == ops[1..][..n - 1];
      SeqAssociative(OpEntries(revision, ops[0]), OpsEntries(revision, ops[1..][..n - 1]), OpEntries(revision, ops[n]));
    }
  }

  /** The key is in the lease's key set exactly if it was in it in `s`, and no pending step is about it. */
  ghost predicate SetAsIn(s: State, t: Shared, id: int, key: Bytes)
  {
    && Spares(t.pending, key) && s.nextLeaseId <= t.state.nextLeaseId
    && (id in t.state.leases && id < s.nextLeaseId ==> id in s.leases)
    && (id in t.state.leases ==>
          (key in t.state.leases[id].keys <==> id in s.leases && key in s.leases[id].keys))
  }

  lemma SetStays(s: State, t: Shared, e: Event, id: int, key: Bytes)
    requires Indexed(false, s) && SetAsIn(s, t, id, key) && Enabled(t, e) && !e.Begin?
    ensures SetAsIn(s, Advance(t, e), id, key)
  {
    SoundIsIndexed(s);
    if e.Next? {
      MicroEffect(t.state, t.pending[0], id, key);
    }
  }

  lemma SetAtBegin(s: State, e: Event, id: int, key: Bytes)
    requires Indexed(false, s) && e.Begin? && Enabled(Shared(s, []), e) && !Touched(Entries(s, e.call), key)
    ensures SetAsIn(s, Advance(Shared(s, []), e), id, key)
  {
    StepAsOps(s, e.call);
    OpsSpare(Bumped(s), s.revision + 1, AsOps(s, e.call), e.orders, key);
  }

  lemma {:induction false} AtomicAppend(first: seq<Event>, second: seq<Event>)
    ensures AtomicOps(first + second) == AtomicOps(first) + AtomicOps(second)
  {
    if second == [] {
      assert first + second == first;
    } else {
      var n := |second| - 1;
      assert (first + second)[..|first + second| - 1] == first + second[..n];
      AtomicAppend(first, second[..n]);
    }
  }

  /** What was done between two moments, as calls. */
  function CallsBetween(events: seq<Event>, b: nat, n: nat): seq<Op>
    requires b <= n <= |events|
  {
    AtomicOps(events[b..n])
  }

  lemma BetweenSplits(events: seq<Event>, b: nat, m: nat, n: nat, s: State, key: Bytes)
    requires b <= m <= n <= |events|
    ensures CallsBetween(events, b, n) == CallsBetween(events, b, m) + CallsBetween(events, m, n)
    ensures !Touched(Log(s, CallsBetween(events, b, n)), key) ==> !Touched(Log(s, CallsBetween(events, b, m)), key)
  {
    hide Touched, Log;
    assert events[b..n] == events[b..m] + events[m..n];
    AtomicAppend(events[b..m], events[m..n]);
    LogAppend(s, CallsBetween(events, b, m), CallsBetween(events, m, n));
    var early := CallsBetween(events, b, m);
    TouchedAppend(Log(s, early), Log(Run(s, early), CallsBetween(events, m, n)), key);
  }

  /** A key that no call has written or cleared since `b`, the one under way included, is read in the key sets
      it was in then. */
  lemma {:induction false} ReadAsAtBegin(events: seq<Event>, b: nat, r: nat, id: int, key: Bytes)
    requires ReadsAt(events, b, r) && Indexed(false, At(events, b).state)
    requires !Touched(Log(At(events, b).state, CallsBetween(events, b, r)), key)
    ensures SetAsIn(At(events, b).state, At(events, r), id, key)
    decreases r
  {
    hide Enabled, Advance, Indexed, SetAsIn, Touched, Log, Possible, After;
    var s := At(events, b).state;
    if r == b {
      NothingRead(At(events, b), id, key);
    } else {
      var e := events[r - 1];
      PrefixPossible(events, r - 1);
      BetweenSplits(events, b, r - 1, r, s, key);
      if e.Begin? {
        assert r - 1 == b && events[b..r] == [e];
        OneEntry(s, e, key);
        assert At(events, b) == Shared(s, []);
        SetAtBegin(s, e, id, key);
      } else {
        ReadAsAtBegin(events, b, r - 1, id, key);
        SetStays(s, At(events, r - 1), e, id, key);
      }
    }
  }

  lemma NothingRead(t: Shared, id: int, key: Bytes)
    requires t.pending == []
    ensures SetAsIn(t.state, t, id, key)
  {
  }

  lemma OneEntry(s: State, e: Event, key: Bytes)
    requires e.Begin?
    ensures Log(s, AtomicOps([e])) == Entries(s, e.call)
  {
    assert [e][..0] == [] && [e.call][..0] == [];
    assert AtomicOps([e]) == [e.call];
  }

  lemma Latest(events: seq<Event>, b: nat, n: nat, key: Bytes)
    requires Possible(events) && b <= n <= |events| && At(events, b).pending == [] && At(events, n).pending == []
    ensures var s, t := At(events, b).state, At(events, n).state;
            var log := Log(s, CallsBetween(events, b, n));
            && Ends(t.data, log, key)
            && (!Touched(log, key) ==> LivePuts(log, key) == [] && Lookup(t.data, key) == Lookup(s.data, key))
  {
    hide Enabled, Advance, Possible, After, Ends, Touched, Log;
    PrefixPossible(events, n);
    PrefixPossible(events, b);
    assert events[..n][..b] == events[..b] && events[..n][b..] == events[b..n];
    var s, ops := At(events, b).state, CallsBetween(events, b, n);
    StoreSince(events[..n], b);
    NothingLeft(At(events, n));
    RunEnds(s, ops, key);
    MarkRun(s, ops, key);
    MarkedMeans(Run(s, ops), Log(s, ops), key, s);
    if !Touched(Log(s, ops), key) {
      UntouchedHasNoPuts(Log(s, ops), key);
    }
    SameEnds(Run(s, ops).data, At(events, n).state.data, Log(s, ops), key);
  }

  lemma MarkedMeans(t: State, log: seq<Entry>, key: Bytes, s: State)
    requires Marked(t, log, key, s.revision, s.data)
    ensures !Touched(log, key) ==> Lookup(t.data, key) == Lookup(s.data, key)
  {
  }

  lemma SameEnds(a: Data, b: Data, log: seq<Entry>, key: Bytes)
    requires a == b && Ends(a, log, key)
    ensures Ends(b, log, key)
  {
  }

  /** The callback for the key has begun since. */
  ghost predicate DeletedSince(events: seq<Event>, r: nat, key: Bytes)
  {
    exists i | r <= i < |events| :: events[i].Begin? && events[i].call == DeleteOne(key)
  }

  lemma DeletedIsTouchedSince(events: seq<Event>, b: nat, r: nat, s: State, key: Bytes)
    requires b <= r <= |events| && DeletedSince(events, r, key)
    ensures Touched(Log(s, CallsBetween(events, b, |events|)), key)
  {
    var i :| r <= i < |events| && events[i].Begin? && events[i].call == DeleteOne(key);
    var first, rest := events[b..i], events[i + 1..];
    assert events[b..|events|] == first + [events[i]] + rest;
    AtomicAppend(first, [events[i]]);
    AtomicAppend(first + [events[i]], rest);
    assert AtomicOps([events[i]]) == [DeleteOne(key)] by {
      assert [events[i]][..0] == [];
    }
    DeletedIsTouched(s, CallsBetween(events, b, |events|), key);
  }

  /** The whole Revoke between single mutex sections: the key set is read anywhere, in the middle of a call
      too, from an index that was exact when that call began. Once every key read has been deleted and the
      mutex is free, a record names the lease if and only if it was put under it since that call began, by
      that call or later, and neither overwritten nor cleared afterwards. */
  lemma LeftWheneverRead(events: seq<Event>, b: nat, r: nat, id: int, key: Bytes)
    requires ReadsAt(events, b, r) && Indexed(true, At(events, b).state)
    requires id in At(events, r).state.leases && After(events).pending == []
    requires forall k | k in At(events, r).state.leases[id].keys :: DeletedSince(events, r, k)
    ensures var t := After(events).state;
            key in t.data && t.data[key].kv.lease == id
            <==> LatelyUnder(Log(At(events, b).state, CallsBetween(events, b, |events|)), key, id)
  {
    hide Possible, After, Touched, Log, Enabled, Advance, DeletedSince;
    var s := At(events, b).state;
    assert events[..|events|] == events;
    Latest(events, b, |events|, key);
    if !Touched(Log(s, CallsBetween(events, b, |events|)), key) {
      BetweenSplits(events, b, r, |events|, s, key);
      ExactIsSound(s, key);
      ReadAsAtBegin(events, b, r, id, key);
      if key in At(events, r).state.leases[id].keys {
        DeletedIsTouchedSince(events, b, r, s, key);
      }
    }
  }

  lemma ExactIsSound(s: State, key: Bytes)
    requires Indexed(true, s)
    ensures Indexed(false, s) && LeaseOf(s.data, key) < s.nextLeaseId
    ensures forall id | id in s.leases ::
              0 < id < s.nextLeaseId
              && (key in s.leases[id].keys <==> key in s.data && s.data[key].kv.lease == id)
  {
    IndexedMeans(true, s);
    NamesGrantedAlready(s, key);
    SoundIsIndexed(s);
    assert 1 <= s.nextLeaseId;
  }

  /** And what it takes there: when the callback for a key that was read takes the store's mutex, the record
      it is about to remove does not name the lease if and only if the key was put under another lease, or
      none, since the call under way at the reading began, and that put still stands. */
  lemma TakenWheneverRead(events: seq<Event>, b: nat, r: nat, i: nat, id: int, key: Bytes)
    requires ReadsAt(events, b, r) && Indexed(true, At(events, b).state)
    requires id in At(events, r).state.leases && key in At(events, r).state.leases[id].keys
    requires r <= i < |events| && events[i].Begin? && events[i].call == DeleteOne(key)
    ensures var t := At(events, i).state;
            && Step(t, DeleteOne(key)).data == t.data - {key}
            && (key in t.data && t.data[key].kv.lease != id
                <==> LatelyNotUnder(Log(At(events, b).state, CallsBetween(events, b, i)), key, id))
  {
    hide Possible, After, Touched, Log, Advance;
    var s, t := At(events, b).state, At(events, i).state;
    PrefixPossible(events, i);
    assert At(events, i).pending == [];
    Latest(events, b, i, key);
    SingleKeyRange(t.data, key);
    if !Touched(Log(s, CallsBetween(events, b, i)), key) {
      BetweenSplits(events, b, r, i, s, key);
      ExactIsSound(s, key);
      ReadAsAtBegin(events, b, r, id, key);
    }
  }

  /** A key can be missed that was leased before and after: while a Put moves it from the lease to the same
      lease, it is in no key set between the DetachKey and the AttachKey. */
  lemma MissedInMidPut(s: State, id: int, key: Bytes, value: Bytes)
    requires Indexed(true, s) && id in s.leases && key in s.leases[id].keys
    ensures var free, put := Shared(s, []), Begin(Put(key, value, id), [[]]);
            && Enabled(free, put) && Enabled(Advance(free, put), Next)
            && var read := Advance(Advance(free, put), Next);
               && id in read.state.leases && key !in read.state.leases[id].keys
               && var t := Finished(read);
                  id in t.leases && key in t.leases[id].keys && key in t.data && t.data[key].kv.lease == id
  {
    IndexedMeans(true, s);
    var put := Begin(Put(key, value, id), [[]]);
    var b, op := Bumped(s), PutOp(key, value, id, false);
    var orders: seq<seq<Bytes>> := [[]];
    assert [op][1..] == [] && orders[1..] == [];
    assert ValidOrders(ApplyOp(b, s.revision + 1, op), s.revision + 1, [op][1..], orders[1..]);
    assert Enabled(Shared(s, []), put);
    BegunFinishes(Shared(s, []), put);
    var begun := Advance(Shared(s, []), put);
    assert begun.pending[0] == Detach(id, key);
    NextFinishes(begun);
  }
}
