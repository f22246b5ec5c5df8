/** The key-value store and the lease table as values, and what one call does to them.

    The classes in Components.dfy are proved against these definitions; the other modules prove what
    the source promises about them, over one call or over whole runs. */
module Engine {
  import opened Bytes

  datatype Option<+T> = None | Some(value: T)

  datatype KeyValue = KeyValue(
    key: Bytes, value: Bytes, lease: int, createRevision: int, modRevision: int, version: int)

  /** A protobuf KeyValue nobody has set a field of. */
  const EMPTY_KEY_VALUE := KeyValue([], [], 0, 0, 0, 0)

  datatype KeyInfo = KeyInfo(kv: KeyValue, createRevision: int, modRevision: int, version: int)

  datatype LeaseInfo = LeaseInfo(leaseId: int, ttl: int, expireTime: int, keys: set<Bytes>)

  type Data = map<Bytes, KeyInfo>
  type Leases = map<int, LeaseInfo>

  datatype State = State(data: Data, revision: int, leases: Leases, nextLeaseId: int)

  const INIT := State(map[], 1, map[], 1)

  // ----- Requests -----

  datatype Target = Version | Create | Mod | Value | Lease | OtherTarget
  datatype Result = EqualTo | NotEqualTo | GreaterThan | LessThan | OtherResult

  /** `version` and `value` are what the accessors cmp.version() and cmp.value() return. */
  datatype Compare = Compare(key: Bytes, target: Target, result: Result, value: Bytes, version: int)

  datatype RequestOp =
    | PutOp(key: Bytes, value: Bytes, lease: int, prevKv: bool)
    | DeleteOp(key: Bytes, rangeEnd: Bytes, prevKv: bool)
    | RangeOp(key: Bytes, rangeEnd: Bytes, limit: int, countOnly: bool, keysOnly: bool)
    | OtherOp

  /** One critical section on the store or on the lease table. Revoke and the expiry sweep are runs of
      Delete and DropLease; see LeaseIndex. For a Delete that collects the records it removes,
      `order` is the order in which the hash map yielded their keys. */
  datatype Op =
    | Put(key: Bytes, value: Bytes, lease: int)
    | Delete(start: Bytes, end: Bytes, collect: bool, order: seq<Bytes>)
    | Txn(compares: seq<Compare>, success: seq<RequestOp>, failure: seq<RequestOp>)
    | Grant(ttl: int, now: int)
    | KeepAlive(id: int, now: int)
    | DropLease(id: int)

  // ----- The lease table -----

  function AttachKey(leases: Leases, id: int, key: Bytes): Leases
  {
    if id in leases then leases[id := leases[id].(keys := leases[id].keys + {key})] else leases
  }

  function DetachKey(leases: Leases, id: int, key: Bytes): Leases
  {
    if id in leases then leases[id := leases[id].(keys := leases[id].keys - {key})] else leases
  }

  /** The lease a key's record names, 0 when there is no record. */
  function LeaseOf(data: Data, key: Bytes): int
  {
    if key in data then data[key].kv.lease else 0
  }

  // ----- Writing and removing records -----

  function NewInfo(data: Data, revision: int, key: Bytes, value: Bytes, lease: int): KeyInfo
  {
    var create := if key in data then data[key].createRevision else revision;
    var version := if key in data then data[key].version + 1 else 1;
    KeyInfo(KeyValue(key, value, lease, create, revision, version), create, revision, version)
  }

  function Write(s: State, revision: int, key: Bytes, value: Bytes, lease: int): State
  {
    var previous := LeaseOf(s.data, key);
    var detached := if previous > 0 then DetachKey(s.leases, previous, key) else s.leases;
    var attached := if lease > 0 then AttachKey(detached, lease, key) else detached;
    s.(data := s.data[key := NewInfo(s.data, revision, key, value, lease)], leases := attached)
  }

  function InRangeKeys(data: Data, start: Bytes, end: Bytes): set<Bytes>
  {
    set k | k in data && KeyInRange(k, start, end)
  }

  /** The store without `keys`, each of them gone from the lease its record named. */
  function Remove(s: State, keys: set<Bytes>): State
  {
    s.(data := s.data - keys,
       leases := map id | id in s.leases ::
         s.leases[id].(keys := set k | k in s.leases[id].keys && !(k in keys && id > 0 && LeaseOf(s.data, k) == id)))
  }

  // ----- Transactions -----

  predicate Compared<T(==)>(result: Result, actual: T, expected: T, less: (T, T) -> bool)
  {
    match result
    case EqualTo => actual == expected
    case NotEqualTo => actual != expected
    case GreaterThan => less(expected, actual)
    case LessThan => less(actual, expected)
    case OtherResult => false
  }

  /** KVStore::EvaluateCompare: false for a missing key, whatever is asked. */
  predicate EvaluateCompare(cmp: Compare, info: Option<KeyInfo>)
  {
    info.Some? &&
    var i := info.value;
    match cmp.target
    case Value => Compared(cmp.result, i.kv.value, cmp.value, Less)
    case Version => Compared(cmp.result, i.version, cmp.version, (a: int, b: int) => a < b)
    case Create => Compared(cmp.result, i.createRevision, cmp.version, (a: int, b: int) => a < b)
    case Mod => Compared(cmp.result, i.modRevision, cmp.version, (a: int, b: int) => a < b)
    case Lease => Compared(cmp.result, i.kv.lease, cmp.version, (a: int, b: int) => a < b)
    case OtherTarget => false
  }

  function Lookup(data: Data, key: Bytes): Option<KeyInfo>
  {
    if key in data then Some(data[key]) else None
  }

  predicate AllHold(data: Data, compares: seq<Compare>)
  {
    forall c | c in compares :: EvaluateCompare(c, Lookup(data, c.key))
  }

  function Chosen(data: Data, compares: seq<Compare>, success: seq<RequestOp>, failure: seq<RequestOp>): seq<RequestOp>
  {
    if AllHold(data, compares) then success else failure
  }

  function ApplyOp(s: State, revision: int, op: RequestOp): State
  {
    match op
    case PutOp(key, value, lease, _) => Write(s, revision, key, value, lease)
    case DeleteOp(key, rangeEnd, _) => Remove(s, InRangeKeys(s.data, key, rangeEnd))
    case RangeOp(_, _, _, _, _) => s
    case OtherOp => s
  }

  /** The left fold of the operations, all at one revision. */
  function ApplyOps(s: State, revision: int, ops: seq<RequestOp>): State
  {
    if ops == [] then s
    else ApplyOp(ApplyOps(s, revision, ops[..|ops| - 1]), revision, ops[|ops| - 1])
  }

  // ----- One call, and runs of calls -----

  /** What ++revision_ leaves. */
  function Bumped(s: State): State
  {
    s.(revision := s.revision + 1)
  }

  function Step(s: State, op: Op): State
  {
    match op
    case Put(key, value, lease) => Write(Bumped(s), s.revision + 1, key, value, lease)
    case Delete(start, end, _, _) => Remove(Bumped(s), InRangeKeys(s.data, start, end))
    case Txn(compares, success, failure) =>
      ApplyOps(Bumped(s), s.revision + 1, Chosen(s.data, compares, success, failure))
    case Grant(ttl, now) =>
      s.(leases := s.leases[s.nextLeaseId := LeaseInfo(s.nextLeaseId, ttl, now + ttl, {})],
         nextLeaseId := s.nextLeaseId + 1)
    case KeepAlive(id, now) =>
      if id in s.leases
      then s.(leases := s.leases[id := s.leases[id].(expireTime := now + s.leases[id].ttl)])
      else s
    case DropLease(id) => s.(leases := s.leases - {id})
  }

  function Run(s: State, ops: seq<Op>): State
  {
    if ops == [] then s else Step(Run(s, ops[..|ops| - 1]), ops[|ops| - 1])
  }

  ghost predicate Enumerates<T(!new)>(order: seq<T>, elements: set<T>)
  {
    && (forall i, j :: 0 <= i < j < |order| ==> order[i] != order[j])
    && (forall x :: x in order <==> x in elements)
  }

  /** The order recorded in a collecting Delete is an enumeration of the keys it removes. */
  ghost predicate ValidOp(s: State, op: Op)
  {
    op.Delete? && op.collect ==> Enumerates(op.order, InRangeKeys(s.data, op.start, op.end))
  }

  ghost predicate ValidRun(s: State, ops: seq<Op>)
  {
    ops == [] ||
    (ValidRun(s, ops[..|ops| - 1]) && ValidOp(Run(s, ops[..|ops| - 1]), ops[|ops| - 1]))
  }

  lemma {:induction false} RunAppend(s: State, first: seq<Op>, second: seq<Op>)
    ensures Run(s, first + second) == Run(Run(s, first), second)
    ensures ValidRun(s, first + second) <==> ValidRun(s, first) && ValidRun(Run(s, first), second)
  {
    if second == [] {
      assert first + second == first;
    } else {
      var n := |second| - 1;
      assert (first + second)[..|first + second| - 1] == first + second[..n];
      RunAppend(s, first, second[..n]);
    }
  }

  lemma RunSnoc(s: State, ops: seq<Op>, op: Op)
    ensures Run(s, ops + [op]) == Step(Run(s, ops), op)
    ensures ValidRun(s, ops + [op]) <==> ValidRun(s, ops) && ValidOp(Run(s, ops), op)
  {
    assert (ops + [op])[..|ops|] == ops;
  }

  lemma {:induction false} ApplyOpsAppend(s: State, revision: int, first: seq<RequestOp>, second: seq<RequestOp>)
    ensures ApplyOps(s, revision, first + second) == ApplyOps(ApplyOps(s, revision, first), revision, second)
  {
    if second == [] {
      assert first + second == first;
    } else {
      var n := |second| - 1;
      assert (first + second)[..|first + second| - 1] == first + second[..n];
      ApplyOpsAppend(s, revision, first, second[..n]);
    }
  }

  /** Removing in two portions is removing at once. */
  lemma RemoveUnion(s: State, first: set<Bytes>, second: set<Bytes>)
    ensures Remove(Remove(s, first), second) == Remove(s, first + second)
  {
    var once, twice := Remove(s, first + second), Remove(Remove(s, first), second);
    assert twice.data == once.data;
    forall id | id in s.leases
      ensures twice.leases[id].keys == once.leases[id].keys
    {
      forall k
        ensures k in twice.leases[id].keys <==> k in once.leases[id].keys
      {
      }
    }
    assert twice.leases == once.leases;
  }
}
