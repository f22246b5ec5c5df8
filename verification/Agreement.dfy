/** The source writes its put and delete code twice, once for direct calls and once inside Txn. Here the
    two copies are run side by side, on two stores in the same state. */
module Agreement {
  import opened Bytes
  import opened Engine
  import opened History
  import opened Ranges
  import opened Transactions
  import opened Watch
  import opened Locks
  import opened Components

  /** The stores share no object, so what one does cannot show in the other. */
  ghost predicate Apart(a: KVStore, b: KVStore)
    reads a, b
  {
    && a != b && a.thread != b.thread
    && (a.leaseManager == null || a.leaseManager != b.leaseManager)
    && (a.watch == null || a.watch != b.watch)
  }

  lemma FirstAnswer(s: State, op: RequestOp, responses: seq<ResponseOp>)
    requires AnswersAll(Bumped(s), s.revision + 1, [op], responses)
    ensures |responses| == 1 && Answers(Bumped(s), op, responses[0])
  {
    assert [op][..0] == [];
    assert Answers(ApplyOps(Bumped(s), s.revision + 1, [op][..0]), [op][0], responses[0]);
  }

  /** A Put, and a transaction without compares whose one operation is that put: same store, lease index and
      revision, same previous record; for a new key the transaction answers with a blank one. */
  method PutEitherWay(
    direct: KVStore, inTxn: KVStore, key: Bytes, value: Bytes, lease: int, wantPrev: bool, failure: seq<RequestOp>)
    returns (prevKv: Option<KeyValue>, responses: seq<ResponseOp>)
    requires direct.Valid() && inTxn.Valid() && Apart(direct, inTxn)
    requires direct.thread.locks.held == inTxn.thread.locks.held == {}
    requires direct.State() == inTxn.State()
    modifies direct`data, direct`revision, direct.LeaseObject()`leases, direct.WatchObject()`sent, direct.thread
    modifies inTxn`data, inTxn`revision, inTxn.LeaseObject()`leases, inTxn.thread
    ensures direct.State() == inTxn.State()
    ensures prevKv == if wantPrev && key in old(direct.data) then Some(old(direct.data)[key].kv) else None
    ensures |responses| == 1 && responses[0].PutResponse?
    ensures !wantPrev || prevKv.Some? ==> responses[0].prevKv == prevKv
    ensures wantPrev && prevKv == None ==> responses[0].prevKv.Some? && Blank(responses[0].prevKv.value)
  {
    hide WellFormed, Consistent, Lawful, HeldAfter, NotifyAll, Step, AnswersAll, ApplyOps, MutationSteps;
    ghost var s := direct.State();
    prevKv := direct.Put(key, value, lease, wantPrev);
    assert inTxn.State() == s;
    var op := PutOp(key, value, lease, wantPrev);
    var succeeded, revision;
    succeeded, responses, revision := inTxn.Txn([], [op], failure);
    OnePutIsPut(s, key, value, lease, wantPrev, failure);
    FirstAnswer(s, op, responses);
  }

  lemma SameRecords(s: State, op: RequestOp, order: seq<Bytes>, prevKvs: seq<KeyValue>, r: ResponseOp)
    requires WellFormed(s) && op.DeleteOp? && op.prevKv && Answers(s, op, r)
    requires Enumerates(order, InRangeKeys(s.data, op.key, op.rangeEnd)) && IsCollected(s.data, order, prevKvs)
    ensures r.DeleteResponse? && r.deleted == |r.prevKvs| == |prevKvs|
    ensures forall kv :: kv in r.prevKvs <==> kv in prevKvs
  {
    var gone := InRangeKeys(s.data, op.key, op.rangeEnd);
    var other: seq<Bytes> :| Enumerates(other, gone) && IsCollected(s.data, other, r.prevKvs);
    DistinctLength(order, gone);
    DistinctLength(other, gone);
    CollectedKeys(s, order);
    CollectedKeys(s, other);
  }

  lemma StepDeletes(s: State, key: Bytes, rangeEnd: Bytes, wantPrev: bool, order: seq<Bytes>)
    ensures Step(s, Op.Delete(key, rangeEnd, wantPrev, order)).data
            == ApplyOp(Bumped(s), s.revision + 1, DeleteOp(key, rangeEnd, wantPrev)).data
  {
  }

  /** A Delete, and a transaction whose one operation is that delete: same store, lease index and revision,
      and the same previous records, each once, in orders that may differ. */
  method DeleteEitherWay(
    direct: KVStore, inTxn: KVStore, key: Bytes, rangeEnd: Bytes, wantPrev: bool, failure: seq<RequestOp>)
    returns (prevKvs: seq<KeyValue>, responses: seq<ResponseOp>)
    requires direct.Valid() && inTxn.Valid() && Apart(direct, inTxn)
    requires direct.thread.locks.held == inTxn.thread.locks.held == {}
    requires direct.State() == inTxn.State()
    modifies direct`data, direct`revision, direct.LeaseObject()`leases, direct.WatchObject()`sent, direct.thread
    modifies inTxn`data, inTxn`revision, inTxn.LeaseObject()`leases, inTxn.thread
    ensures direct.State() == inTxn.State()
    ensures |responses| == 1 && responses[0].DeleteResponse?
    ensures |responses[0].prevKvs| == |prevKvs|
    ensures forall kv :: kv in responses[0].prevKvs <==> kv in prevKvs
    ensures responses[0].deleted == old(|direct.data|) - |direct.data|
    ensures |prevKvs| == if wantPrev then responses[0].deleted else 0
  {
    hide Consistent, Lawful, HeldAfter, NotifyAll, Step, AnswersAll, ApplyOps, ApplyOp, Remove;
    hide KeyInRange, WellFormed, Collected, MutationSteps;
    ghost var s := direct.State();
    ghost var order;
    prevKvs, order := direct.Delete(key, rangeEnd, wantPrev);
    assert inTxn.State() == s;
    var op := DeleteOp(key, rangeEnd, wantPrev);
    var succeeded, revision;
    succeeded, responses, revision := inTxn.Txn([], [op], failure);
    OneDeleteIsDelete(s, key, rangeEnd, wantPrev, failure, wantPrev, order);
    FirstAnswer(s, op, responses);
    StepDeletes(s, key, rangeEnd, wantPrev, order);
    DeletedIsTheDrop(Bumped(s), s.revision + 1, op, responses[0]);
    if wantPrev {
      SameRecords(s, op, order, prevKvs, responses[0]);
    }
  }
}
