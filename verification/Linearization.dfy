/** The interleaved machine against the one in which every call is a single step. */
module Linearization {
  import opened Bytes
  import opened Engine
  import opened History
  import opened Ranges
  import opened Interleaving

  // ----- Left alone, a call's small steps add up to the call -----

  lemma {:induction false} RunMicrosAppend(s: State, first: seq<Micro>, second: seq<Micro>)
    ensures RunMicros(s, first + second) == RunMicros(RunMicros(s, first), second)
    decreases |first|
  {
    if first == [] {
      assert first + second == second;
    } else {
      assert (first + second)[1..] == first[1..] + second;
      RunMicrosAppend(DoMicro(s, first[0]), first[1..], second);
    }
  }

  lemma RunOneMicro(s: State, m: Micro)
    ensures RunMicros(s, [m]) == DoMicro(s, m)
  {
    assert [m][1..] == [];
  }

  lemma PutMicrosAreWrite(s: State, revision: int, key: Bytes, value: Bytes, lease: int)
    ensures RunMicros(s, PutMicros(s.data, revision, key, value, lease)) == Write(s, revision, key, value, lease)
  {
    var previous := LeaseOf(s.data, key);
    var detach := if previous > 0 then [Detach(previous, key)] else [];
    var attach := if lease > 0 then [Attach(lease, key)] else [];
    var store := Store(key, NewInfo(s.data, revision, key, value, lease));
    RunMicrosAppend(s, detach + attach, [store]);
    RunMicrosAppend(s, detach, attach);
    RunOneMicro(s, Detach(previous, key));
    RunOneMicro(RunMicros(s, detach), Attach(lease, key));
    RunOneMicro(RunMicros(s, detach + attach), store);
  }

  /** Detach, then erase. */
  lemma EraseOne(s: State, key: Bytes)
    ensures Remove(s, {key})
            == s.(data := s.data - {key},
                  leases := if LeaseOf(s.data, key) > 0
                            then DetachKey(s.leases, LeaseOf(s.data, key), key) else s.leases)
  {
    var previous := LeaseOf(s.data, key);
    var t := Remove(s, {key}).leases;
    var u := if previous > 0 then DetachKey(s.leases, previous, key) else s.leases;
    forall id | id in s.leases
      ensures t[id] == u[id]
    {
      assert t[id].keys == u[id].keys;
    }
    assert t == u;
  }

  lemma EraseMicrosAreRemove(s: State, key: Bytes)
    ensures RunMicros(s, EraseMicros(s.data, key)) == Remove(s, {key})
  {
    var previous := LeaseOf(s.data, key);
    var detach := if previous > 0 then [Detach(previous, key)] else [];
    RunMicrosAppend(s, detach, [Erase(key)]);
    RunOneMicro(s, Detach(previous, key));
    RunOneMicro(RunMicros(s, detach), Erase(key));
    EraseOne(s, key);
  }

  lemma {:induction false} DeleteMicrosAreRemove(s: State, data: Data, order: seq<Bytes>)
    requires forall i, j :: 0 <= i < j < |order| ==> order[i] != order[j]
    requires forall k :: k in order ==> LeaseOf(data, k) == LeaseOf(s.data, k)
    ensures RunMicros(s, DeleteMicros(data, order)) == Remove(s, set k | k in order)
    decreases |order|
  {
    if order == [] {
      RemoveNothing(s);
      assert (set k | k in order) == {};
    } else {
      var k, rest := order[0], order[1..];
      RunMicrosAppend(s, EraseMicros(data, k), DeleteMicros(data, rest));
      EraseMicrosAreRemove(s, k);
      var t := Remove(s, {k});
      forall x | x in rest
        ensures LeaseOf(data, x) == LeaseOf(t.data, x)
      {
        assert x in order && x != k;
      }
      DeleteMicrosAreRemove(t, data, rest);
      RemoveUnion(s, {k}, set x | x in rest);
      assert (set x | x in order) == {k} + set x | x in rest;
    }
  }

  lemma RemoveNothing(s: State)
    ensures Remove(s, {}) == s
  {
    assert s.data - {} == s.data;
    forall id | id in s.leases
      ensures Remove(s, {}).leases[id].keys == s.leases[id].keys
    {
    }
    assert Remove(s, {}).leases == s.leases;
  }

  lemma {:induction false} OpsMicrosAreOps(s: State, revision: int, ops: seq<RequestOp>, orders: seq<seq<Bytes>>)
    requires ValidOrders(s, revision, ops, orders)
    ensures RunMicros(s, OpsMicros(s, revision, ops, orders)) == ApplyOps(s, revision, ops)
    decreases |ops|
  {
    if ops != [] {
      var op, next := ops[0], ApplyOp(s, revision, ops[0]);
      RunMicrosAppend(s, OpMicros(s.data, revision, op, orders[0]), OpsMicros(next, revision, ops[1..], orders[1..]));
      match op {
        case PutOp(key, value, lease, _) => PutMicrosAreWrite(s, revision, key, value, lease);
        case DeleteOp(start, end, _) =>
          DeleteMicrosAreRemove(s, s.data, orders[0]);
          assert (set k | k in orders[0]) == InRangeKeys(s.data, start, end);
        case _ =>
      }
      OpsMicrosAreOps(next, revision, ops[1..], orders[1..]);
      ApplyOpsFirst(s, revision, ops);
    }
  }

  // ----- So the invariant holds after every whole call too -----

  lemma {:induction false} SomeOrders(s: State, revision: int, ops: seq<RequestOp>) returns (orders: seq<seq<Bytes>>)
    ensures ValidOrders(s, revision, ops, orders)
    decreases |ops|
  {
    if ops == [] {
      orders := [];
    } else {
      var rest := SomeOrders(ApplyOp(s, revision, ops[0]), revision, ops[1..]);
      var order: seq<Bytes> := [];
      if ops[0].DeleteOp? {
        var keys := InRangeKeys(s.data, ops[0].key, ops[0].rangeEnd);
        order := Sorted(keys);
        SortedEnumerates(keys);
      }
      orders := [order] + rest;
    }
  }

  lemma SortedEnumerates(keys: set<Bytes>)
    ensures Enumerates(Sorted(keys), keys)
  {
    var order := Sorted(keys);
    forall i, j | 0 <= i < j < |order|
      ensures order[i] != order[j]
    {
      LessIrreflexive(order[i]);
    }
  }

  lemma {:induction false} FinishKeeps(exact: bool, s: Shared)
    requires Invariant(exact, s)
    ensures Invariant(exact, Shared(RunMicros(s.state, s.pending), []))
    decreases |s.pending|
  {
    if s.pending != [] {
      NextKeeps(exact, s);
      FinishKeeps(exact, Shared(DoMicro(s.state, s.pending[0]), s.pending[1..]));
    }
  }

  /** The index between calls: sound, and exact when puts name granted leases. */
  ghost predicate Indexed(exact: bool, s: State)
  {
    Invariant(exact, Shared(s, []))
  }

  lemma StepKeepsIndex(exact: bool, s: State, op: Op)
    requires Indexed(exact, s) && (exact ==> NamesGranted(s, op))
    ensures Indexed(exact, Step(s, op))
  {
    if op.Put? || op.Delete? || op.Txn? {
      var b, r, ops := Bumped(s), s.revision + 1, AsOps(s, op);
      var orders := SomeOrders(b, r, ops);
      BeginKeeps(exact, Shared(s, []), Begin(op, orders));
      FinishKeeps(exact, Shared(b, OpsMicros(b, r, ops, orders)));
      OpsMicrosAreOps(b, r, ops, orders);
      StepAsOps(s, op);
    } else {
      BetweenKeeps(exact, Shared(s, []), op);
    }
  }

  ghost predicate RunNamesGranted(s: State, ops: seq<Op>)
  {
    ops == []
    || (RunNamesGranted(s, ops[..|ops| - 1]) && NamesGranted(Run(s, ops[..|ops| - 1]), ops[|ops| - 1]))
  }

  lemma {:induction false} RunKeepsIndex(exact: bool, s: State, ops: seq<Op>)
    requires Indexed(exact, s) && (exact ==> RunNamesGranted(s, ops))
    ensures Indexed(exact, Run(s, ops))
  {
    if ops != [] {
      RunKeepsIndex(exact, s, ops[..|ops| - 1]);
      StepKeepsIndex(exact, Run(s, ops[..|ops| - 1]), ops[|ops| - 1]);
    }
  }

  lemma IndexedMeans(exact: bool, s: State)
    requires Indexed(exact, s)
    ensures Sound(s)
    ensures exact ==> Exact(s)
    ensures forall id | id in s.leases :: 0 < id < s.nextLeaseId
  {
    InvariantMeans(exact, Shared(s, []));
  }

  lemma InitIndexed(exact: bool)
    ensures Indexed(exact, INIT)
  {
  }

  // ----- Lease steps commute with the steps of a call that is under way -----

  predicate AttachesGranted(s: State, ms: seq<Micro>)
  {
    forall m | m in ms :: m.Attach? ==> m.lease < s.nextLeaseId
  }

  lemma AttachCommutes(s: State, id: int, key: Bytes, op: Op)
    requires op.Grant? || op.KeepAlive? || op.DropLease?
    requires op.Grant? ==> id < s.nextLeaseId
    ensures Step(s.(leases := AttachKey(s.leases, id, key)), op).leases
            == AttachKey(Step(s, op).leases, id, key)
  {
    match op
    case Grant(_, _) =>
    case KeepAlive(_, _) =>
    case DropLease(dropped) =>
      assert (if id in s.leases then s.leases[id := s.leases[id].(keys := s.leases[id].keys + {key})] else s.leases)
          - {dropped} == AttachKey(s.leases - {dropped}, id, key);
  }

  lemma DetachCommutes(s: State, id: int, key: Bytes, op: Op)
    requires op.Grant? || op.KeepAlive? || op.DropLease?
    ensures Step(s.(leases := DetachKey(s.leases, id, key)), op).leases
            == DetachKey(Step(s, op).leases, id, key)
  {
    match op
    case Grant(ttl, now) =>
      var granted := LeaseInfo(s.nextLeaseId, ttl, now + ttl, {});
      assert granted.(keys := granted.keys - {key}) == granted;
    case KeepAlive(_, _) =>
    case DropLease(dropped) =>
      assert (if id in s.leases then s.leases[id := s.leases[id].(keys := s.leases[id].keys - {key})] else s.leases)
          - {dropped} == DetachKey(s.leases - {dropped}, id, key);
  }

  lemma OneCommutes(s: State, m: Micro, op: Op)
    requires op.Grant? || op.KeepAlive? || op.DropLease?
    requires op.Grant? && m.Attach? ==> m.lease < s.nextLeaseId
    ensures Step(DoMicro(s, m), op) == DoMicro(Step(s, op), m)
  {
    hide AttachKey, DetachKey;
    match m
    case Attach(lease, key) => AttachCommutes(s, lease, key, op);
    case Detach(lease, key) => DetachCommutes(s, lease, key, op);
    case Store(_, _) =>
    case Erase(_) =>
  }

  lemma {:induction false} Commutes(s: State, ms: seq<Micro>, op: Op)
    requires op.Grant? || op.KeepAlive? || op.DropLease?
    requires AttachesGranted(s, ms)
    ensures Step(RunMicros(s, ms), op) == RunMicros(Step(s, op), ms)
    decreases |ms|
  {
    if ms != [] {
      OneCommutes(s, ms[0], op);
      assert forall m | m in ms[1..] :: m in ms;
      Commutes(DoMicro(s, ms[0]), ms[1..], op);
    }
  }

  lemma {:induction false} DeleteAttachesNothing(data: Data, order: seq<Bytes>)
    ensures forall m | m in DeleteMicros(data, order) :: !m.Attach?
  {
    if order != [] {
      DeleteAttachesNothing(data, order[1..]);
    }
  }

  lemma {:induction false} OpsAttachGranted(
    s: State, revision: int, ops: seq<RequestOp>, orders: seq<seq<Bytes>>, bound: int)
    requires |orders| == |ops| && forall op | op in ops :: op.PutOp? ==> op.lease < bound
    ensures forall m | m in OpsMicros(s, revision, ops, orders) :: m.Attach? ==> m.lease < bound
    decreases |ops|
  {
    if ops != [] {
      DeleteAttachesNothing(s.data, orders[0]);
      OpsAttachGranted(ApplyOp(s, revision, ops[0]), revision, ops[1..], orders[1..], bound);
    }
  }

  function AtomicOp(e: Event): seq<Op>
  {
    match e
    case Begin(call, _) => [call]
    case Next => []
    case Between(op) => [op]
  }

  /** The calls in the order in which they took the store's mutex, the lease steps where they stand. */
  function AtomicOps(events: seq<Event>): seq<Op>
  {
    if events == [] then []
    else
      AtomicOps(events[..|events| - 1]) + AtomicOp(events[|events| - 1])
  }

  /** Letting the call under way finish. */
  function Finished(s: Shared): State
  {
    RunMicros(s.state, s.pending)
  }

  lemma BegunFinishes(s: Shared, e: Event)
    requires e.Begin? && Enabled(s, e)
    ensures Finished(Advance(s, e)) == Step(Finished(s), e.call)
  {
    hide ApplyOps, Step, Write, Remove, OpsEntries, Entries, OpMicros;
    var b, r, ops := Bumped(s.state), s.state.revision + 1, AsOps(s.state, e.call);
    OpsMicrosAreOps(b, r, ops, e.orders);
    StepAsOps(s.state, e.call);
  }

  lemma BeginIsTheCall(s: Shared, e: Event)
    requires e.Begin? && Enabled(s, e) && NamesGranted(s.state, e.call)
    ensures AttachesGranted(Advance(s, e).state, Advance(s, e).pending)
    ensures Finished(Advance(s, e)) == Step(Finished(s), e.call)
  {
    hide ApplyOps, Step, Write, Remove, OpsEntries, Entries, OpMicros;
    var b, r, ops := Bumped(s.state), s.state.revision + 1, AsOps(s.state, e.call);
    OpsAttachGranted(b, r, ops, e.orders, s.state.nextLeaseId);
    BegunFinishes(s, e);
  }

  lemma NextIsNothing(s: Shared)
    requires s.pending != [] && AttachesGranted(s.state, s.pending)
    ensures var t := Advance(s, Next); AttachesGranted(t.state, t.pending) && Finished(t) == Finished(s)
  {
    assert forall m | m in s.pending[1..] :: m in s.pending;
  }

  lemma BetweenIsTheLeaseStep(s: Shared, op: Op)
    requires (op.Grant? || op.KeepAlive? || op.DropLease?) && AttachesGranted(s.state, s.pending)
    ensures var t := Advance(s, Between(op));
            AttachesGranted(t.state, t.pending) && Finished(t) == Step(Finished(s), op)
  {
    Commutes(s.state, s.pending, op);
  }

  /** Every interleaving in which puts name granted leases is equivalent to a run of whole calls: letting
      the call under way finish gives exactly the state of that run. */
  lemma {:induction false} Linearizable(events: seq<Event>)
    requires Possible(events) && AllGranted(events)
    ensures AttachesGranted(After(events).state, After(events).pending)
    ensures Finished(After(events)) == Run(INIT, AtomicOps(events))
  {
    if events != [] {
      hide Step, Advance, RunMicros, NamesGranted, AttachesGranted;
      var init, last := events[..|events| - 1], events[|events| - 1];
      Linearizable(init);
      match last {
        case Begin(call, _) =>
          BeginIsTheCall(After(init), last);
          RunSnoc(INIT, AtomicOps(init), call);
        case Next =>
          NextIsNothing(After(init));
          assert AtomicOps(events) == AtomicOps(init);
        case Between(op) =>
          BetweenIsTheLeaseStep(After(init), op);
          RunSnoc(INIT, AtomicOps(init), op);
      }
    }
  }

  // ----- The store itself, whatever the puts name -----

  /** The same records at the same revision; the lease tables may differ in their key sets. */
  predicate SameStore(a: State, b: State)
  {
    a.data == b.data && a.revision == b.revision && a.nextLeaseId == b.nextLeaseId
  }

  lemma {:induction false} SameStoreOps(a: State, b: State, revision: int, ops: seq<RequestOp>)
    requires SameStore(a, b)
    ensures SameStore(ApplyOps(a, revision, ops), ApplyOps(b, revision, ops))
  {
    if ops != [] {
      SameStoreOps(a, b, revision, ops[..|ops| - 1]);
    }
  }

  lemma SameStoreStep(a: State, b: State, op: Op)
    requires SameStore(a, b)
    ensures SameStore(Step(a, op), Step(b, op))
  {
    if op.Txn? {
      SameStoreOps(Bumped(a), Bumped(b), a.revision + 1, AsOps(a, op));
    }
  }

  lemma {:induction false} SameStoreMicros(a: State, b: State, ms: seq<Micro>)
    requires a.data == b.data
    ensures RunMicros(a, ms).data == RunMicros(b, ms).data
    ensures RunMicros(a, ms).revision == a.revision && RunMicros(a, ms).nextLeaseId == a.nextLeaseId
    decreases |ms|
  {
    if ms != [] {
      SameStoreMicros(DoMicro(a, ms[0]), DoMicro(b, ms[0]), ms[1..]);
    }
  }

  lemma BetweenKeepsStore(s: Shared, op: Op)
    requires op.Grant? || op.KeepAlive? || op.DropLease?
    ensures SameStore(Finished(s.(state := Step(s.state, op))), Step(Finished(s), op))
  {
    SameStoreMicros(s.state, Step(s.state, op), s.pending);
    SameStoreMicros(Step(s.state, op), s.state, s.pending);
  }

  /** From any moment at which the store's mutex is free, torn or not: the records and the revision are those
      of the run of whole calls; only key sets can be torn. */
  lemma {:induction false} StoreSince(events: seq<Event>, b: nat)
    requires Possible(events) && b <= |events|
    ensures Possible(events[..b])
    ensures After(events[..b]).pending == [] ==>
              SameStore(Finished(After(events)), Run(After(events[..b]).state, AtomicOps(events[b..])))
    decreases |events|
  {
    hide Step, RunMicros, Enabled, Advance;
    PrefixPossible(events, b);
    if b == |events| {
      assert events[..b] == events;
      NothingLeft(After(events));
    } else if After(events[..b]).pending == [] {
      hide SameStore, Finished, AtomicOps, AtomicOp, Run;
      var init, last := events[..|events| - 1], events[|events| - 1];
      assert init[..b] == events[..b] && events[b..][..|events| - 1 - b] == init[b..];
      StoreSince(init, b);
      PrefixPossible(events, |init|);
      assert events[..|init| + 1] == events;
      StoreNext(After(init), Run(After(events[..b]).state, AtomicOps(init[b..])), last);
      assert events[b..] == init[b..] + [last];
      RunAtomicSnoc(After(events[..b]).state, init[b..], last);
    }
  }

  lemma NothingLeft(s: Shared)
    ensures s.pending == [] ==> SameStore(Finished(s), s.state)
  {
  }

  lemma RunAtomicSnoc(s: State, events: seq<Event>, e: Event)
    ensures AtomicOps(events + [e]) == AtomicOps(events) + AtomicOp(e)
    ensures Run(s, AtomicOps(events + [e]))
            == if e.Next? then Run(s, AtomicOps(events)) else Step(Run(s, AtomicOps(events)), AtomicOp(e)[0])
  {
    assert (events + [e])[..|events|] == events;
    if e.Next? {
      assert AtomicOps(events) + [] == AtomicOps(events);
    } else {
      RunSnoc(s, AtomicOps(events), AtomicOp(e)[0]);
    }
  }

  lemma StoreNext(s: Shared, t: State, e: Event)
    requires Enabled(s, e) && SameStore(Finished(s), t)
    ensures SameStore(Finished(Advance(s, e)), if e.Next? then t else Step(t, AtomicOp(e)[0]))
  {
    hide Step;
    match e
    case Begin(call, _) =>
      BegunFinishes(s, e);
      SameStoreStep(Finished(s), t, call);
    case Next => NextFinishes(s);
    case Between(op) =>
      BetweenKeepsStore(s, op);
      SameStoreStep(Finished(s), t, op);
  }

  /** In particular from the start. */
  lemma StoreLinearizable(events: seq<Event>)
    requires Possible(events)
    ensures SameStore(Finished(After(events)), Run(INIT, AtomicOps(events)))
  {
    StoreSince(events, 0);
    assert events[0..] == events && events[..0] == [];
  }

  lemma NextFinishes(s: Shared)
    requires s.pending != []
    ensures Finished(Advance(s, Next)) == Finished(s)
  {
  }

  // ----- Without the condition a transaction can be torn -----

  lemma AfterSnoc(events: seq<Event>, e: Event)
    requires Possible(events) && Enabled(After(events), e)
    ensures Possible(events + [e]) && After(events + [e]) == Advance(After(events), e)
  {
    hide Enabled, Advance;
    assert (events + [e])[..|events|] == events;
  }

  const PUT_ONE := PutOp([1], [], 1, false)
  const PUT_TWO := PutOp([2], [], 1, false)
  const PUT_BOTH := Txn([], [PUT_ONE, PUT_TWO], [])
  const GRANT := Grant(60, 0)

  lemma TwoOps(s: State, revision: int)
    ensures ApplyOps(s, revision, [PUT_ONE, PUT_TWO]) == ApplyOp(ApplyOp(s, revision, PUT_ONE), revision, PUT_TWO)
  {
    var ops := [PUT_ONE, PUT_TWO];
    ApplyOpsFirst(s, revision, ops);
    assert ops[1..] == [PUT_TWO];
    ApplyOpsFirst(ApplyOp(s, revision, PUT_ONE), revision, [PUT_TWO]);
    assert [PUT_TWO][1..] == [];
  }

  lemma TwoSteps(s: State, first: Op, second: Op)
    ensures Run(s, [first, second]) == Step(Step(s, first), second)
  {
    assert [first, second][..1] == [first] && [first][..0] == [];
    assert Run(s, [first]) == Step(s, first);
  }

  /** The small steps of the transaction, taken one after another with the Grant in the middle. */
  lemma TornSteps(info1: KeyInfo, info2: KeyInfo) returns (s: State)
    requires info1.kv.lease == info2.kv.lease == 1
    ensures s == DoMicro(DoMicro(Step(DoMicro(DoMicro(Bumped(INIT), Attach(1, [1])), Store([1], info1)), GRANT),
                         Attach(1, [2])), Store([2], info2))
    ensures 1 in s.leases && s.leases[1].keys == {[2]}
    ensures s.data == map[[1] := info1, [2] := info2]
  {
    s := DoMicro(DoMicro(Step(DoMicro(DoMicro(Bumped(INIT), Attach(1, [1])), Store([1], info1)), GRANT),
                 Attach(1, [2])), Store([2], info2));
  }

  lemma TornProgram() returns (info1: KeyInfo, info2: KeyInfo)
    ensures info1.kv.lease == info2.kv.lease == 1
    ensures ValidOrders(Bumped(INIT), 2, [PUT_ONE, PUT_TWO], [[], []])
    ensures OpsMicros(Bumped(INIT), 2, [PUT_ONE, PUT_TWO], [[], []])
            == [Attach(1, [1]), Store([1], info1), Attach(1, [2]), Store([2], info2)]
  {
    var ops := [PUT_ONE, PUT_TWO];
    var orders: seq<seq<Bytes>> := [[], []];
    var b := Bumped(INIT);
    var b1 := ApplyOp(b, 2, PUT_ONE);
    info1, info2 := NewInfo(map[], 2, [1], [], 1), NewInfo(b1.data, 2, [2], [], 1);
    assert ops[1..] == [PUT_TWO] && ops[1..][1..] == [] && orders[1..][1..] == [];
    assert ValidOrders(ApplyOp(b1, 2, PUT_TWO), 2, ops[1..][1..], orders[1..][1..]);
    assert ValidOrders(b1, 2, ops[1..], orders[1..]);
    assert OpsMicros(ApplyOp(b1, 2, PUT_TWO), 2, ops[1..][1..], orders[1..][1..]) == [];
    assert PutMicros(b1.data, 2, [2], [], 1) == [Attach(1, [2]), Store([2], info2)];
    assert OpsMicros(b1, 2, ops[1..], orders[1..]) == [Attach(1, [2]), Store([2], info2)];
    assert PutMicros(b.data, 2, [1], [], 1) == [Attach(1, [1]), Store([1], info1)];
  }

  /** A transaction that puts two keys under lease 1 before it is granted, with the Grant coming between
      the two puts, leaves one key attached and the other not. */
  lemma TxnTornByGrant() returns (events: seq<Event>)
    ensures Possible(events) && After(events).pending == []
    ensures var s := After(events).state;
            && s.data.Keys == {[1], [2]} && s.data[[1]].kv.lease == 1 && s.data[[2]].kv.lease == 1
            && 1 in s.leases && s.leases[1].keys == {[2]}
  {
    hide ValidOrders, OpsMicros;
    var info1, info2 := TornProgram();
    var s := TornSteps(info1, info2);
    var begin := Begin(PUT_BOTH, [[], []]);
    AfterSnoc([], begin);
    AfterSnoc([] + [begin], Next);
    AfterSnoc([] + [begin] + [Next], Next);
    AfterSnoc([] + [begin] + [Next] + [Next], Between(GRANT));
    AfterSnoc([] + [begin] + [Next] + [Next] + [Between(GRANT)], Next);
    AfterSnoc([] + [begin] + [Next] + [Next] + [Between(GRANT)] + [Next], Next);
    events := [] + [begin] + [Next] + [Next] + [Between(GRANT)] + [Next] + [Next];
    assert After(events).state == s;
  }

  /** No order of the two as whole calls does that: either both keys are attached or neither is. */
  lemma WholeTxnIsNotTorn()
    ensures var s := Run(INIT, [GRANT, PUT_BOTH]); 1 in s.leases && s.leases[1].keys == {[1], [2]}
    ensures var s := Run(INIT, [PUT_BOTH, GRANT]); 1 in s.leases && s.leases[1].keys == {}
  {
    TwoSteps(INIT, GRANT, PUT_BOTH);
    TwoSteps(INIT, PUT_BOTH, GRANT);
    TwoOps(Bumped(Step(INIT, GRANT)), 2);
    TwoOps(Bumped(INIT), 2);
  }

  lemma {:induction false} PrefixPossible(events: seq<Event>, m: nat)
    requires Possible(events) && m <= |events|
    ensures Possible(events[..m])
    ensures m < |events| ==>
              && Enabled(After(events[..m]), events[m])
              && Possible(events[..m + 1]) && After(events[..m + 1]) == Advance(After(events[..m]), events[m])
    decreases |events|
  {
    hide Enabled, Advance;
    if m < |events| {
      var init := events[..|events| - 1];
      if m < |init| {
        PrefixPossible(init, m);
        assert init[..m] == events[..m] && init[..m + 1] == events[..m + 1] && init[m] == events[m];
      } else {
        assert events[..m + 1] == events;
      }
    } else {
      assert events[..m] == events;
    }
  }
}
