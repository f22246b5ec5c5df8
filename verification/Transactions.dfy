/** What a transaction's guards and responses mean, and that with one operation it is a Put or a Delete. */
module Transactions {
  import opened Bytes
  import opened Engine
  import opened History
  import opened Ranges

  datatype ResponseOp =
    | PutResponse(prevKv: Option<KeyValue>)
    | DeleteResponse(deleted: int, prevKvs: seq<KeyValue>)
    | RangeResponse(kvs: seq<KeyValue>, count: int, more: bool)
    | NoResponse

  /** The answer to `op` in state `s`; only the order of a delete's previous records is open. */
  ghost predicate Answers(s: State, op: RequestOp, r: ResponseOp)
  {
    match op
    case PutOp(key, _, _, prevKv) =>
      r == PutResponse(if prevKv then Some(if key in s.data then s.data[key].kv else EMPTY_KEY_VALUE) else None)
    case DeleteOp(key, rangeEnd, prevKv) =>
      var gone := InRangeKeys(s.data, key, rangeEnd);
      && r.DeleteResponse?
      && r.deleted == |gone|
      && if prevKv
         then exists order: seq<Bytes> :: Enumerates(order, gone) && IsCollected(s.data, order, r.prevKvs)
         else r.prevKvs == []
    case RangeOp(key, rangeEnd, limit, countOnly, keysOnly) =>
      var kvs := RangeResult(s.data, key, rangeEnd, limit, countOnly, keysOnly);
      r == RangeResponse(kvs, |kvs|, false)
    case OtherOp => r == NoResponse
  }

  ghost predicate IsCollected(data: Data, order: seq<Bytes>, kvs: seq<KeyValue>)
  {
    (forall k :: k in order ==> k in data) && kvs == Collected(data, order)
  }

  /** Response i answers operation i in the state the first i operations left. */
  ghost predicate AnswersAll(s: State, revision: int, ops: seq<RequestOp>, responses: seq<ResponseOp>)
  {
    && |responses| == |ops|
    && forall i | 0 <= i < |ops| :: Answers(ApplyOps(s, revision, ops[..i]), ops[i], responses[i])
  }

  lemma {:induction false} WrittenStays(s: State, revision: int, ops: seq<RequestOp>, key: Bytes)
    requires !Touched(OpsEntries(revision, ops), key)
    ensures Lookup(ApplyOps(s, revision, ops).data, key) == Lookup(s.data, key)
  {
    if ops != [] {
      var init, last := ops[..|ops| - 1], ops[|ops| - 1];
      var entries := OpEntries(revision, last);
      TouchedAppend(OpsEntries(revision, init), entries, key);
      WrittenStays(s, revision, init, key);
      assert entries != [] ==> !Touches(entries[0], key);
    }
  }

  lemma PutThenUntouched(s: State, revision: int, ops: seq<RequestOp>, i: nat, j: nat)
    requires i < j <= |ops| && ops[i].PutOp?
    requires !Touched(OpsEntries(revision, ops[i + 1..j]), ops[i].key)
    ensures var before := ApplyOps(s, revision, ops[..i]).data;
            Lookup(ApplyOps(s, revision, ops[..j]).data, ops[i].key)
            == Some(NewInfo(before, revision, ops[i].key, ops[i].value, ops[i].lease))
  {
    var put := ops[..i + 1];
    assert put[..|put| - 1] == ops[..i];
    assert ops[..j] == put + ops[i + 1..j];
    ApplyOpsAppend(s, revision, put, ops[i + 1..j]);
    WrittenStays(ApplyOps(s, revision, put), revision, ops[i + 1..j], ops[i].key);
  }

  /** A full range inside a transaction sees the puts before it: the record of operation i, at the
      transaction's own revision, is in the answer of every later unlimited range over its key, unless
      an operation in between wrote or cleared the key again. */
  lemma RangeSeesEarlierPut(
    s: State, revision: int, ops: seq<RequestOp>, responses: seq<ResponseOp>, i: nat, j: nat)
    requires WellFormed(s) && s.revision == revision > 1
    requires AnswersAll(s, revision, ops, responses)
    requires i < j < |ops| && ops[i].PutOp? && !Touched(OpsEntries(revision, ops[i + 1..j]), ops[i].key)
    requires ops[j].RangeOp? && ops[j].limit <= 0 && !ops[j].countOnly && !ops[j].keysOnly
    requires KeyInRange(ops[i].key, ops[j].key, ops[j].rangeEnd)
    ensures responses[j].RangeResponse?
    ensures exists kv :: kv in responses[j].kvs && kv.key == ops[i].key && kv.value == ops[i].value
                         && kv.lease == ops[i].lease && kv.modRevision == revision
  {
    var t := ApplyOps(s, revision, ops[..j]);
    ApplyOpsWellFormed(s, revision, ops[..j]);
    PutThenUntouched(s, revision, ops, i, j);
    RangeIsSortedFilter(t, ops[j].key, ops[j].rangeEnd);
    assert Answers(t, ops[j], responses[j]);
    var kv := t.data[ops[i].key].kv;
    assert Limited(Sorted(InRangeKeys(t.data, ops[j].key, ops[j].rangeEnd)), ops[j].limit)
        == Limited(Sorted(InRangeKeys(t.data, ops[j].key, ops[j].rangeEnd)), 0);
    assert kv in responses[j].kvs;
  }

  // ----- Guards -----

  /** "Equal" and "not equal" contradict each other if and only if the key is there: a missing key fails
      both, and with them every transaction guarded by any compare on it. */
  lemma NotEqualIsNegationIffPresent(data: Data, cmp: Compare)
    requires cmp.result.EqualTo? && !cmp.target.OtherTarget?
    ensures (EvaluateCompare(cmp.(result := NotEqualTo), Lookup(data, cmp.key))
             <==> !EvaluateCompare(cmp, Lookup(data, cmp.key)))
            <==> cmp.key in data
    ensures cmp.key !in data ==>
              forall r, compares: seq<Compare> :: cmp.(result := r) in compares ==> !AllHold(data, compares)
  {
  }

  /** What is asked of two numbers. */
  predicate Related(result: Result, actual: int, expected: int)
  {
    && (result.EqualTo? ==> actual == expected)
    && (result.NotEqualTo? ==> actual != expected)
    && (result.GreaterThan? ==> actual > expected)
    && (result.LessThan? ==> actual < expected)
    && !result.OtherResult?
  }

  /** What is asked of two byte strings. */
  ghost predicate RelatedBytes(result: Result, actual: Bytes, expected: Bytes)
  {
    && (result.EqualTo? ==> actual == expected)
    && (result.NotEqualTo? ==> actual != expected)
    && (result.GreaterThan? ==> Below(expected, actual))
    && (result.LessThan? ==> Below(actual, expected))
    && !result.OtherResult?
  }

  /** On a present key every compare means what it asks, of the value, of the version, and, through the
      accessor of the version, of the create revision, the modification revision and the lease. */
  lemma CompareMeaning(data: Data, cmp: Compare)
    requires cmp.key in data
    ensures var info, holds := data[cmp.key], EvaluateCompare(cmp, Lookup(data, cmp.key));
            && (cmp.target.Value? ==> (holds <==> RelatedBytes(cmp.result, info.kv.value, cmp.value)))
            && (cmp.target.Version? ==> (holds <==> Related(cmp.result, info.version, cmp.version)))
            && (cmp.target.Create? ==> (holds <==> Related(cmp.result, info.createRevision, cmp.version)))
            && (cmp.target.Mod? ==> (holds <==> Related(cmp.result, info.modRevision, cmp.version)))
            && (cmp.target.Lease? ==> (holds <==> Related(cmp.result, info.kv.lease, cmp.version)))
            && (cmp.target.OtherTarget? ==> !holds)
  {
    hide Below;
    LessByFirstDifference(data[cmp.key].kv.value, cmp.value);
    LessByFirstDifference(cmp.value, data[cmp.key].kv.value);
    LessIsBelow(data[cmp.key].kv.value, cmp.value);
    LessIsBelow(cmp.value, data[cmp.key].kv.value);
  }

  lemma LessIsBelow(a: Bytes, b: Bytes)
    ensures Less(a, b) <==> Below(a, b)
  {
    LessByFirstDifference(a, b);
  }

  /** What a compare says of the puts to its key since the key was last cleared. */
  ghost predicate SaidOf(cmp: Compare, puts: seq<Entry>)
    requires forall p :: p in puts ==> p.Wrote?
  {
    puts != [] &&
    var first, last := puts[0], puts[|puts| - 1];
    match cmp.target
    case Value => RelatedBytes(cmp.result, last.value, cmp.value)
    case Version => Related(cmp.result, |puts|, cmp.version)
    case Create => Related(cmp.result, first.revision, cmp.version)
    case Mod => Related(cmp.result, last.revision, cmp.version)
    case Lease => Related(cmp.result, last.lease, cmp.version)
    case OtherTarget => false
  }

  /** After any run a guard holds if and only if the log says so: VERSION compares the number of puts since the
      key was last cleared, MOD the revision of the last of them, CREATE that of the first, LEASE and VALUE
      what the last one wrote; without such a put no guard holds. */
  lemma GuardReadsTheLog(ops: seq<Op>, cmp: Compare)
    ensures EvaluateCompare(cmp, Lookup(Run(INIT, ops).data, cmp.key))
            <==> SaidOf(cmp, LivePuts(Log(INIT, ops), cmp.key))
  {
    hide EvaluateCompare, Related, RelatedBytes, Log, Run, LivePuts, Determines;
    StoreIsItsLog(ops);
    var data := Run(INIT, ops).data;
    DeterminesOne(Log(INIT, ops), data, cmp.key);
    if cmp.key in data {
      CompareMeaning(data, cmp);
    } else {
      MissingFails(data, cmp);
    }
  }

  lemma DeterminesOne(log: seq<Entry>, data: Data, key: Bytes)
    requires Determines(log, data)
    ensures DeterminesAt(log, data, key)
  {
  }

  lemma MissingFails(data: Data, cmp: Compare)
    requires cmp.key !in data
    ensures !EvaluateCompare(cmp, Lookup(data, cmp.key))
  {
  }

  /** So after any run a transaction runs its success branch if and only if the log says so for every compare:
      guarded by VERSION EQUAL v with v positive, if and only if the key has been put exactly v times since it
      was last cleared. */
  lemma TxnReadsTheLog(ops: seq<Op>, compares: seq<Compare>)
    ensures AllHold(Run(INIT, ops).data, compares)
            <==> forall c | c in compares :: SaidOf(c, LivePuts(Log(INIT, ops), c.key))
    ensures forall key: Bytes, value: Bytes, v: int ::
              0 < v && compares == [Compare(key, Version, EqualTo, value, v)] ==>
                (AllHold(Run(INIT, ops).data, compares) <==> |LivePuts(Log(INIT, ops), key)| == v)
  {
    hide EvaluateCompare, Log, Run, LivePuts, RelatedBytes;
    forall c | c in compares
      ensures EvaluateCompare(c, Lookup(Run(INIT, ops).data, c.key)) <==> SaidOf(c, LivePuts(Log(INIT, ops), c.key))
    {
      GuardReadsTheLog(ops, c);
    }
    forall key: Bytes, value: Bytes, v: int
      | 0 < v && compares == [Compare(key, Version, EqualTo, value, v)]
      ensures AllHold(Run(INIT, ops).data, compares) <==> |LivePuts(Log(INIT, ops), key)| == v
    {
      assert compares[0] in compares;
      assert forall c | c in compares :: c == compares[0];
    }
  }

  // ----- What a delete or a range inside a transaction reports -----

  /** The count of a delete is the drop in the store's size over it, whether or not the previous records are
      asked for. */
  lemma DeletedIsTheDrop(s: State, revision: int, op: RequestOp, r: ResponseOp)
    requires op.DeleteOp? && Answers(s, op, r)
    ensures r.DeleteResponse? && r.deleted == |s.data| - |ApplyOp(s, revision, op).data|
    ensures |r.prevKvs| == if op.prevKv then r.deleted else 0
  {
    var gone := InRangeKeys(s.data, op.key, op.rangeEnd);
    SplitSize(s.data, s.data - gone, gone);
    if op.prevKv {
      var order: seq<Bytes> :| Enumerates(order, gone) && IsCollected(s.data, order, r.prevKvs);
      DistinctLength(order, gone);
    }
  }

  /** The count of an unlimited range is the number of keys in range, in every mode; "more" is never set. */
  lemma RangeCounts(s: State, op: RequestOp, r: ResponseOp)
    requires op.RangeOp? && Answers(s, op, r)
    ensures r.RangeResponse? && r.count == |r.kvs| && !r.more
    ensures var n := |InRangeKeys(s.data, op.key, op.rangeEnd)|;
            r.count == if 0 < op.limit < n then op.limit else n
  {
  }

  function Deleted(responses: seq<ResponseOp>): int
  {
    if responses == [] then 0
    else
      var last := responses[|responses| - 1];
      Deleted(responses[..|responses| - 1]) + if last.DeleteResponse? then last.deleted else 0
  }

  /** Over a transaction the counts add up to the number of keys it removed. */
  lemma {:induction false} DeletedAddsUp(
    s: State, revision: int, ops: seq<RequestOp>, responses: seq<ResponseOp>)
    requires AnswersAll(s, revision, ops, responses)
    ensures Deleted(responses) == RemovedByOps(s, revision, ops)
    ensures |ApplyOps(s, revision, ops).data| + Deleted(responses) == |s.data| + CreatedByOps(s, revision, ops)
  {
    hide Answers, ApplyOp;
    if ops != [] {
      var n := |ops| - 1;
      forall i | 0 <= i < n
        ensures Answers(ApplyOps(s, revision, ops[..n][..i]), ops[..n][i], responses[..n][i])
      {
        assert ops[..n][..i] == ops[..i];
      }
      DeletedAddsUp(s, revision, ops[..n], responses[..n]);
      AnswerCounts(ApplyOps(s, revision, ops[..n]), ops[n], responses[n]);
    }
    OpsSize(s, revision, ops);
  }

  lemma AnswerCounts(s: State, op: RequestOp, r: ResponseOp)
    requires Answers(s, op, r)
    ensures r.DeleteResponse? <==> op.DeleteOp?
    ensures op.DeleteOp? ==> r.deleted == |InRangeKeys(s.data, op.key, op.rangeEnd)|
  {
  }

  // ----- One-operation transactions -----

  /** A transaction without compares and with one put leaves the store, the lease index and the revision
      as the direct Put does. */
  lemma OnePutIsPut(s: State, key: Bytes, value: Bytes, lease: int, prevKv: bool, failure: seq<RequestOp>)
    ensures Step(s, Txn([], [PutOp(key, value, lease, prevKv)], failure)) == Step(s, Put(key, value, lease))
  {
    var op := PutOp(key, value, lease, prevKv);
    assert ApplyOps(Bumped(s), s.revision + 1, [op])
        == ApplyOp(ApplyOps(Bumped(s), s.revision + 1, [op][..0]), s.revision + 1, op);
  }

  /** And with one delete, as the direct Delete does. */
  lemma OneDeleteIsDelete(
    s: State, key: Bytes, rangeEnd: Bytes, prevKv: bool, failure: seq<RequestOp>, collect: bool, order: seq<Bytes>)
    ensures Step(s, Txn([], [DeleteOp(key, rangeEnd, prevKv)], failure))
            == Step(s, Delete(key, rangeEnd, collect, order))
  {
    var op := DeleteOp(key, rangeEnd, prevKv);
    assert ApplyOps(Bumped(s), s.revision + 1, [op])
        == ApplyOp(ApplyOps(Bumped(s), s.revision + 1, [op][..0]), s.revision + 1, op);
  }
}
