/** The lease index under interleaving. */
module Interleaving {
  import opened Bytes
  import opened Engine
  import opened History

  // A Put, Delete or Txn holds the store's mutex for its whole length, but the lease manager has a
  // mutex of its own that it takes and gives back for each DetachKey and AttachKey. Between two of
  // those any other thread may grant, renew or erase a lease. Here a call on the store is the list of
  // small steps it still has to make, and lease steps may come between any two of them. Revoke and the
  // expiry sweep are made of such steps: reading the key set changes nothing, each callback is a Delete,
  // and the last step erases the lease.

  datatype Micro =
    | Detach(lease: int, key: Bytes)
    | Attach(lease: int, key: Bytes)
    | Store(key: Bytes, info: KeyInfo)
    | Erase(key: Bytes)

  function DoMicro(s: State, m: Micro): State
  {
    match m
    case Detach(lease, key) => s.(leases := DetachKey(s.leases, lease, key))
    case Attach(lease, key) => s.(leases := AttachKey(s.leases, lease, key))
    case Store(key, info) => s.(data := s.data[key := info])
    case Erase(key) => s.(data := s.data - {key})
  }

  function RunMicros(s: State, ms: seq<Micro>): State
    decreases |ms|
  {
    if ms == [] then s else RunMicros(DoMicro(s, ms[0]), ms[1..])
  }

  // ----- What a call does once it holds the store's mutex -----

  function PutMicros(data: Data, revision: int, key: Bytes, value: Bytes, lease: int): seq<Micro>
  {
    var previous := LeaseOf(data, key);
    (if previous > 0 then [Detach(previous, key)] else [])
    + (if lease > 0 then [Attach(lease, key)] else [])
    + [Store(key, NewInfo(data, revision, key, value, lease))]
  }

  function EraseMicros(data: Data, key: Bytes): seq<Micro>
  {
    (if LeaseOf(data, key) > 0 then [Detach(LeaseOf(data, key), key)] else []) + [Erase(key)]
  }

  function DeleteMicros(data: Data, order: seq<Bytes>): seq<Micro>
  {
    if order == [] then [] else EraseMicros(data, order[0]) + DeleteMicros(data, order[1..])
  }

  function OpMicros(data: Data, revision: int, op: RequestOp, order: seq<Bytes>): seq<Micro>
  {
    match op
    case PutOp(key, value, lease, _) => PutMicros(data, revision, key, value, lease)
    case DeleteOp(_, _, _) => DeleteMicros(data, order)
    case _ => []
  }

  /** `orders[i]` is the order in which the hash map yields the keys operation i deletes. */
  function OpsMicros(s: State, revision: int, ops: seq<RequestOp>, orders: seq<seq<Bytes>>): seq<Micro>
    requires |orders| == |ops|
    decreases |ops|
  {
    if ops == [] then []
    else OpMicros(s.data, revision, ops[0], orders[0])
         + OpsMicros(ApplyOp(s, revision, ops[0]), revision, ops[1..], orders[1..])
  }

  ghost predicate ValidOrder(data: Data, op: RequestOp, order: seq<Bytes>)
  {
    op.DeleteOp? ==> Enumerates(order, InRangeKeys(data, op.key, op.rangeEnd))
  }

  ghost predicate ValidOrders(s: State, revision: int, ops: seq<RequestOp>, orders: seq<seq<Bytes>>)
    decreases |ops|
  {
    && |orders| == |ops|
    && (ops == []
        || (ValidOrder(s.data, ops[0], orders[0])
            && ValidOrders(ApplyOp(s, revision, ops[0]), revision, ops[1..], orders[1..])))
  }

  // ----- The interleaved machine -----

  /** `pending` is what the holder of the store's mutex has yet to do; empty when the mutex is free. */
  datatype Shared = Shared(state: State, pending: seq<Micro>)

  datatype Event =
    | Begin(call: Op, orders: seq<seq<Bytes>>)  // a Put, Delete or Txn takes the store's mutex
    | Next                                      // its holder makes its next step
    | Between(lease: Op)                        // any thread grants, renews or erases a lease

  ghost predicate Enabled(s: Shared, e: Event)
  {
    match e
    case Begin(call, orders) =>
      && s.pending == []
      && (call.Put? || call.Delete? || call.Txn?)
      && ValidOrders(Bumped(s.state), s.state.revision + 1, AsOps(s.state, call), orders)
    case Next => s.pending != []
    case Between(op) => op.Grant? || op.KeepAlive? || op.DropLease?
  }

  ghost function Advance(s: Shared, e: Event): Shared
    requires Enabled(s, e)
  {
    match e
    case Begin(call, orders) =>
      Shared(Bumped(s.state), OpsMicros(Bumped(s.state), s.state.revision + 1, AsOps(s.state, call), orders))
    case Next => Shared(DoMicro(s.state, s.pending[0]), s.pending[1..])
    case Between(op) => s.(state := Step(s.state, op))
  }

  ghost predicate Possible(events: seq<Event>)
    decreases |events|, 0
  {
    events == []
    || (Possible(events[..|events| - 1]) && Enabled(After(events[..|events| - 1]), events[|events| - 1]))
  }

  ghost function After(events: seq<Event>): Shared
    requires Possible(events)
    decreases |events|, 1
  {
    if events == [] then Shared(INIT, [])
    else Advance(After(events[..|events| - 1]), events[|events| - 1])
  }

  /** Every lease a put names has been granted by the time the call starts (or is no lease at all). */
  predicate NamesGranted(s: State, call: Op)
  {
    forall op | op in AsOps(s, call) :: op.PutOp? ==> op.lease < s.nextLeaseId
  }

  ghost predicate AllGranted(events: seq<Event>)
    requires Possible(events)
  {
    events == []
    || (AllGranted(events[..|events| - 1])
        && (events[|events| - 1].Begin?
            ==> NamesGranted(After(events[..|events| - 1]).state, events[|events| - 1].call)))
  }

  // ----- The invariants -----

  /** Every key in a live lease's key set is in the store under exactly that lease. */
  predicate Sound(s: State)
  {
    forall id | id in s.leases :: forall k | k in s.leases[id].keys :: k in s.data && s.data[k].kv.lease == id
  }

  /** Each live lease's key set is exactly the keys whose record names it. */
  predicate Exact(s: State)
  {
    forall id | id in s.leases :: s.leases[id].keys == set k | k in s.data && s.data[k].kv.lease == id
  }

  function MemberNow(member: bool, m: Micro, id: int, key: Bytes): bool
  {
    match m
    case Detach(l, k) => member && !(l == id && k == key)
    case Attach(l, k) => member || (l == id && k == key)
    case _ => member
  }

  function LeaseNow(lease: int, m: Micro, key: Bytes): int
  {
    match m
    case Store(k, info) => if k == key then info.kv.lease else lease
    case Erase(k) => if k == key then 0 else lease
    case _ => lease
  }

  /** Whether `key` is in the key set of live lease `id` once `ms` has run, if `member` says so now. */
  function MemberAfter(member: bool, ms: seq<Micro>, id: int, key: Bytes): bool
    decreases |ms|
  {
    if ms == [] then member else MemberAfter(MemberNow(member, ms[0], id, key), ms[1..], id, key)
  }

  /** The lease the record of `key` names once `ms` has run, if it names `lease` now. */
  function LeaseAfter(lease: int, ms: seq<Micro>, key: Bytes): int
    decreases |ms|
  {
    if ms == [] then lease else LeaseAfter(LeaseNow(lease, ms[0], key), ms[1..], key)
  }

  predicate Agrees(exact: bool, member: bool, lease: int, id: int)
  {
    && (member ==> lease == id)
    && (exact && lease == id ==> member)
  }

  ghost predicate IndexAgrees(exact: bool, s: Shared)
  {
    forall id, key | id in s.state.leases ::
      Agrees(exact, MemberAfter(key in s.state.leases[id].keys, s.pending, id, key),
             LeaseAfter(LeaseOf(s.state.data, key), s.pending, key), id)
  }

  /** Whatever a pending step attaches, the record it will leave names that lease. */
  ghost predicate AttachesAgree(s: Shared)
  {
    forall id, key | 0 < id ::
      MemberAfter(false, s.pending, id, key) ==> LeaseAfter(LeaseOf(s.state.data, key), s.pending, key) == id
  }

  ghost predicate NoFutureLease(s: Shared)
  {
    forall key :: LeaseAfter(LeaseOf(s.state.data, key), s.pending, key) < s.state.nextLeaseId
  }

  ghost predicate Invariant(exact: bool, s: Shared)
  {
    && 1 <= s.state.nextLeaseId
    && (forall id | id in s.state.leases :: 0 < id < s.state.nextLeaseId)
    && IndexAgrees(exact, s)
    && AttachesAgree(s)
    && (exact ==> NoFutureLease(s))
  }

  // ----- A whole call keeps membership and record in step -----

  lemma {:induction false} AfterAppend(
    member: bool, lease: int, first: seq<Micro>, second: seq<Micro>, id: int, key: Bytes)
    ensures MemberAfter(member, first + second, id, key)
            == MemberAfter(MemberAfter(member, first, id, key), second, id, key)
    ensures LeaseAfter(lease, first + second, key) == LeaseAfter(LeaseAfter(lease, first, key), second, key)
    decreases |first|
  {
    if first == [] {
      assert first + second == second;
    } else {
      assert (first + second)[1..] == first[1..] + second;
      AfterAppend(MemberNow(member, first[0], id, key), LeaseNow(lease, first[0], key), first[1..], second, id, key);
    }
  }

  lemma AfterOne(member: bool, lease: int, m: Micro, id: int, key: Bytes)
    ensures MemberAfter(member, [m], id, key) == MemberNow(member, m, id, key)
    ensures LeaseAfter(lease, [m], key) == LeaseNow(lease, m, key)
  {
    assert [m][1..] == [];
  }

  lemma PutAfter(member: bool, data: Data, revision: int, k: Bytes, value: Bytes, lease: int, id: int, key: Bytes)
    requires 0 < id
    ensures var ms := PutMicros(data, revision, k, value, lease);
            && MemberAfter(member, ms, id, key)
               == (if k != key then member else if lease == id then true else member && LeaseOf(data, k) != id)
            && LeaseAfter(LeaseOf(data, key), ms, key) == (if k == key then lease else LeaseOf(data, key))
  {
    var previous := LeaseOf(data, k);
    var detach := if previous > 0 then [Detach(previous, k)] else [];
    var attach := if lease > 0 then [Attach(lease, k)] else [];
    var store := Store(k, NewInfo(data, revision, k, value, lease));
    var recorded := LeaseOf(data, key);
    AfterAppend(member, recorded, detach + attach, [store], id, key);
    AfterAppend(member, recorded, detach, attach, id, key);
    AfterOne(member, recorded, Detach(previous, k), id, key);
    var detached := MemberAfter(member, detach, id, key);
    AfterOne(detached, recorded, Attach(lease, k), id, key);
    AfterOne(MemberAfter(detached, attach, id, key), recorded, store, id, key);
  }

  lemma {:induction false} DeleteAfter(member: bool, lease: int, data: Data, order: seq<Bytes>, id: int, key: Bytes)
    requires 0 < id
    ensures MemberAfter(member, DeleteMicros(data, order), id, key)
            == (member && !(key in order && LeaseOf(data, key) == id))
    ensures LeaseAfter(lease, DeleteMicros(data, order), key) == if key in order then 0 else lease
    decreases |order|
  {
    if order != [] {
      var k := order[0];
      var previous := LeaseOf(data, k);
      var detach := if previous > 0 then [Detach(previous, k)] else [];
      AfterAppend(member, lease, EraseMicros(data, k), DeleteMicros(data, order[1..]), id, key);
      AfterAppend(member, lease, detach, [Erase(k)], id, key);
      AfterOne(member, lease, Detach(previous, k), id, key);
      AfterOne(MemberAfter(member, detach, id, key), lease, Erase(k), id, key);
      DeleteAfter(MemberAfter(member, EraseMicros(data, k), id, key),
                  LeaseAfter(lease, EraseMicros(data, k), key), data, order[1..], id, key);
      assert key in order <==> key == k || key in order[1..];
    }
  }

  lemma OpAgrees(
    exact: bool, member: bool, s: State, revision: int, op: RequestOp, order: seq<Bytes>, id: int, key: Bytes)
    requires 0 < id && ValidOrder(s.data, op, order)
    requires Agrees(exact, member, LeaseOf(s.data, key), id)
    ensures var ms := OpMicros(s.data, revision, op, order);
            && LeaseAfter(LeaseOf(s.data, key), ms, key) == LeaseOf(ApplyOp(s, revision, op).data, key)
            && Agrees(exact, MemberAfter(member, ms, id, key), LeaseOf(ApplyOp(s, revision, op).data, key), id)
  {
    match op
    case PutOp(k, value, lease, _) =>
      PutAfter(member, s.data, revision, k, value, lease, id, key);
    case DeleteOp(_, _, _) =>
      DeleteAfter(member, LeaseOf(s.data, key), s.data, order, id, key);
    case _ =>
  }

  lemma {:induction false} OpsAgree(
    exact: bool, member: bool, s: State, revision: int, ops: seq<RequestOp>, orders: seq<seq<Bytes>>, id: int,
    key: Bytes)
    requires 0 < id && ValidOrders(s, revision, ops, orders)
    requires Agrees(exact, member, LeaseOf(s.data, key), id)
    ensures var ms := OpsMicros(s, revision, ops, orders);
            && LeaseAfter(LeaseOf(s.data, key), ms, key) == LeaseOf(ApplyOps(s, revision, ops).data, key)
            && Agrees(exact, MemberAfter(member, ms, id, key), LeaseOf(ApplyOps(s, revision, ops).data, key), id)
    decreases |ops|
  {
    if ops != [] {
      var first := OpMicros(s.data, revision, ops[0], orders[0]);
      var next := ApplyOp(s, revision, ops[0]);
      var rest := OpsMicros(next, revision, ops[1..], orders[1..]);
      OpAgrees(exact, member, s, revision, ops[0], orders[0], id, key);
      AfterAppend(member, LeaseOf(s.data, key), first, rest, id, key);
      OpsAgree(exact, MemberAfter(member, first, id, key), next, revision, ops[1..], orders[1..], id, key);
      ApplyOpsFirst(s, revision, ops);
    }
  }

  lemma ApplyOpsFirst(s: State, revision: int, ops: seq<RequestOp>)
    requires ops != []
    ensures ApplyOps(s, revision, ops) == ApplyOps(ApplyOp(s, revision, ops[0]), revision, ops[1..])
  {
    assert ops == [ops[0]] + ops[1..];
    ApplyOpsAppend(s, revision, [ops[0]], ops[1..]);
    assert [ops[0]][..0] == [];
  }

  lemma {:induction false} OpsNameGranted(s: State, revision: int, ops: seq<RequestOp>, bound: int, key: Bytes)
    requires LeaseOf(s.data, key) < bound && 0 < bound
    requires forall op | op in ops :: op.PutOp? ==> op.lease < bound
    ensures LeaseOf(ApplyOps(s, revision, ops).data, key) < bound
  {
    if ops != [] {
      OpsNameGranted(s, revision, ops[..|ops| - 1], bound, key);
      assert ops[|ops| - 1] in ops;
    }
  }

  // ----- Every step keeps the invariant -----

  lemma BeginKeeps(exact: bool, s: Shared, e: Event)
    requires e.Begin? && Enabled(s, e) && Invariant(exact, s)
    requires exact ==> NamesGranted(s.state, e.call)
    ensures Invariant(exact, Advance(s, e))
  {
    var b, r, ops := Bumped(s.state), s.state.revision + 1, AsOps(s.state, e.call);
    var t := Advance(s, e);
    forall id, key | id in s.state.leases
      ensures Agrees(exact, MemberAfter(key in t.state.leases[id].keys, t.pending, id, key),
                     LeaseAfter(LeaseOf(t.state.data, key), t.pending, key), id)
    {
      OpsAgree(exact, key in s.state.leases[id].keys, b, r, ops, e.orders, id, key);
    }
    forall id, key | 0 < id
      ensures MemberAfter(false, t.pending, id, key) ==> LeaseAfter(LeaseOf(t.state.data, key), t.pending, key) == id
    {
      OpsAgree(false, false, b, r, ops, e.orders, id, key);
    }
    if exact {
      forall key
        ensures LeaseAfter(LeaseOf(t.state.data, key), t.pending, key) < t.state.nextLeaseId
      {
        OpsAgree(false, false, b, r, ops, e.orders, 1, key);
        OpsNameGranted(b, r, ops, s.state.nextLeaseId, key);
      }
    }
  }

  lemma {:induction false} MemberMonotone(ms: seq<Micro>, id: int, key: Bytes)
    ensures MemberAfter(false, ms, id, key) ==> MemberAfter(true, ms, id, key)
  {
    if ms != [] {
      MemberMonotone(ms[1..], id, key);
    }
  }

  lemma MicroEffect(s: State, m: Micro, id: int, key: Bytes)
    ensures DoMicro(s, m).leases.Keys == s.leases.Keys
    ensures LeaseOf(DoMicro(s, m).data, key) == LeaseNow(LeaseOf(s.data, key), m, key)
    ensures id in s.leases ==>
              (key in DoMicro(s, m).leases[id].keys <==> MemberNow(key in s.leases[id].keys, m, id, key))
  {
  }

  lemma NextKeeps(exact: bool, s: Shared)
    requires s.pending != [] && Invariant(exact, s)
    ensures Invariant(exact, Shared(DoMicro(s.state, s.pending[0]), s.pending[1..]))
  {
    var m := s.pending[0];
    var t := Shared(DoMicro(s.state, m), s.pending[1..]);
    MicroEffect(s.state, m, 0, []);
    forall id, key | id in t.state.leases
      ensures Agrees(exact, MemberAfter(key in t.state.leases[id].keys, t.pending, id, key),
                     LeaseAfter(LeaseOf(t.state.data, key), t.pending, key), id)
    {
      MicroEffect(s.state, m, id, key);
    }
    forall id, key | 0 < id
      ensures MemberAfter(false, t.pending, id, key) ==> LeaseAfter(LeaseOf(t.state.data, key), t.pending, key) == id
    {
      MicroEffect(s.state, m, id, key);
      MemberMonotone(t.pending, id, key);
      assert MemberAfter(false, s.pending, id, key) ==>
             LeaseAfter(LeaseOf(s.state.data, key), s.pending, key) == id;
    }
    if exact {
      forall key
        ensures LeaseAfter(LeaseOf(t.state.data, key), t.pending, key) < t.state.nextLeaseId
      {
        MicroEffect(s.state, m, 0, key);
      }
    }
  }

  lemma BetweenKeeps(exact: bool, s: Shared, op: Op)
    requires op.Grant? || op.KeepAlive? || op.DropLease?
    requires Invariant(exact, s)
    ensures Invariant(exact, s.(state := Step(s.state, op)))
  {
    var t := s.(state := Step(s.state, op));
    forall id, key | id in t.state.leases
      ensures Agrees(exact, MemberAfter(key in t.state.leases[id].keys, t.pending, id, key),
                     LeaseAfter(LeaseOf(t.state.data, key), t.pending, key), id)
    {
      if id in s.state.leases {
        assert t.state.leases[id].keys == s.state.leases[id].keys;
      }
    }
  }

  lemma {:induction false} InvariantHolds(exact: bool, events: seq<Event>)
    requires Possible(events) && (exact ==> AllGranted(events))
    ensures Invariant(exact, After(events))
  {
    if events != [] {
      var init, last := events[..|events| - 1], events[|events| - 1];
      InvariantHolds(exact, init);
      match last
      case Begin(_, _) => BeginKeeps(exact, After(init), last);
      case Next => NextKeeps(exact, After(init));
      case Between(op) => BetweenKeeps(exact, After(init), op);
    }
  }

  lemma InvariantMeans(exact: bool, s: Shared)
    requires Invariant(exact, s) && s.pending == []
    ensures Sound(s.state)
    ensures exact ==> Exact(s.state)
  {
    forall id, k | id in s.state.leases && k in s.state.leases[id].keys
      ensures k in s.state.data && s.state.data[k].kv.lease == id
    {
      assert Agrees(exact, MemberAfter(k in s.state.leases[id].keys, [], id, k),
                    LeaseAfter(LeaseOf(s.state.data, k), [], k), id);
    }
    if exact {
      forall id | id in s.state.leases
        ensures s.state.leases[id].keys == set k | k in s.state.data && s.state.data[k].kv.lease == id
      {
        forall k
          ensures k in s.state.leases[id].keys <==> k in s.state.data && s.state.data[k].kv.lease == id
        {
          assert Agrees(exact, MemberAfter(k in s.state.leases[id].keys, [], id, k),
                        LeaseAfter(LeaseOf(s.state.data, k), [], k), id);
        }
      }
    }
  }

  /** In every interleaving, whenever the store's mutex is free, every key in a live lease's key set is
      in the store under exactly that lease; so no key is in two key sets. */
  lemma SoundInEveryInterleaving(events: seq<Event>)
    requires Possible(events) && After(events).pending == []
    ensures Sound(After(events).state)
    ensures forall a, b :: a in After(events).state.leases && b in After(events).state.leases && a != b ==>
              After(events).state.leases[a].keys !! After(events).state.leases[b].keys
  {
    InvariantHolds(false, events);
    InvariantMeans(false, After(events));
  }

  /** If moreover every put names no lease or one already granted, each live lease's key set is exactly
      the keys whose record names it. */
  lemma ExactInEveryInterleaving(events: seq<Event>)
    requires Possible(events) && AllGranted(events) && After(events).pending == []
    ensures Exact(After(events).state)
  {
    InvariantHolds(true, events);
    InvariantMeans(true, After(events));
  }
}
