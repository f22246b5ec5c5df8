/** The server: the components wired as its constructor wires them, with the log of all that was done. */
module Server {
  import opened Bytes
  import opened Engine
  import opened History
  import opened Ranges
  import opened Watch
  import opened Transactions
  import opened Iteration
  import opened Components
  import Linearization
  import LeaseIndex
  import Locks
  import Streams

  /** The three components wired as the constructor wires them, and the log of everything done. */
  class EtcdLiteServer {
    const thread: Thread
    const kvStore: KVStore
    const leaseManager: LeaseManager
    const watchManager: WatchManager
    ghost var history: seq<Action>

    constructor ()
      ensures Valid() && history == [] && System() == START
      ensures fresh(thread) && fresh(kvStore) && fresh(leaseManager) && fresh(watchManager)
    {
      var t := new Thread();
      var kv := new KVStore(t);
      var lm := new LeaseManager(t);
      var wm := new WatchManager(t);
      thread, kvStore, leaseManager, watchManager, history := t, kv, lm, wm, [];
      new;
      kvStore.SetLeaseManager(leaseManager);
      kvStore.SetWatchCallback(watchManager);
      leaseManager.SetDeleteKeyCallback(kvStore);
    }

    ghost function System(): System
      reads kvStore, leaseManager, watchManager
    {
      Watch.System(State(kvStore.data, kvStore.revision, leaseManager.leases, leaseManager.nextLeaseId),
                   watchManager.Watching())
    }

    /** The wiring is in place, no mutex is held, and the state is the one the history leads to. */
    ghost predicate Valid()
      reads this, thread, kvStore, leaseManager, watchManager
    {
      && thread.locks.held == {}
      && kvStore.thread == leaseManager.thread == watchManager.thread == thread
      && kvStore.leaseManager == leaseManager && kvStore.watch == watchManager && leaseManager.store == kvStore
      && ValidActions(START, history) && System() == ActAll(START, history)
    }

    /** What holds of every state a server can reach. */
    lemma Reachable()
      requires Valid()
      ensures System().state == Run(INIT, OpsOf(history)) && ValidRun(INIT, OpsOf(history))
      ensures WellFormed(System().state) && Consistent(System().watching)
      ensures Linearization.Indexed(false, System().state)
      ensures kvStore.State() == System().state && kvStore.Valid() && leaseManager.Wired()
      ensures Locks.Disciplined({}, thread.locks.trace)
    {
      Locks.RecordIsDisciplined(thread.locks);
      StateIsRun(START, history);
      StaysConsistent(START, history);
      RunWellFormed(INIT, OpsOf(history));
      Linearization.InitIndexed(false);
      Linearization.RunKeepsIndex(false, INIT, OpsOf(history));
    }

    method Put(key: Bytes, value: Bytes, lease: int, wantPrev: bool) returns (prevKv: Option<KeyValue>)
      requires Valid()
      modifies this`history, thread, kvStore, leaseManager, watchManager
      ensures Valid() && history == old(history) + [Do(Op.Put(key, value, lease))]
      ensures Locks.Performs(old(thread.locks.trace), thread.locks.trace)
      ensures prevKv == if wantPrev && key in old(System().state.data)
                        then Some(old(System().state.data)[key].kv) else None
    {
      hide Locks.Performs, Locks.Section, Locks.ProgramOf, Locks.MutationSteps, Locks.RevokeSteps, Locks.SweepSteps;
      hide Locks.Lawful, Locks.HeldAfter, Linearization.Indexed, WellFormed, Consistent, NotifyAll, Notices, Step;
      Reachable();
      prevKv := kvStore.Put(key, value, lease, wantPrev);
      Locks.MutationPerforms(old(thread.locks.trace), thread.locks.trace, 1);
      ActNext(START, history, Do(Op.Put(key, value, lease)));
      history := history + [Do(Op.Put(key, value, lease))];
    }

    /** The gRPC DeleteRange always collects the previous records, so its deletions are reported. */
    method DeleteRange(key: Bytes, rangeEnd: Bytes)
      returns (deleted: nat, prevKvs: seq<KeyValue>, ghost order: seq<Bytes>)
      requires Valid()
      modifies this`history, thread, kvStore, leaseManager, watchManager
      ensures Valid() && history == old(history) + [Do(Op.Delete(key, rangeEnd, true, order))]
      ensures Locks.Performs(old(thread.locks.trace), thread.locks.trace)
      ensures forall k :: k in order ==> k in old(System().state.data)
      ensures prevKvs == Collected(old(System().state.data), order)
      ensures deleted == |old(System().state.data)| - |System().state.data|
    {
      hide Locks.Performs, Locks.Section, Locks.ProgramOf, Locks.MutationSteps, Locks.RevokeSteps, Locks.SweepSteps;
      hide Locks.Lawful, Locks.HeldAfter, Linearization.Indexed, WellFormed, Consistent, NotifyAll, Notices, Step;
      Reachable();
      ghost var before := System().state;
      prevKvs, order := kvStore.Delete(key, rangeEnd, true);
      Locks.MutationPerforms(old(thread.locks.trace), thread.locks.trace, |prevKvs|);
      deleted := |prevKvs|;
      DeletePartitions(before, key, rangeEnd, order);
      ActNext(START, history, Do(Op.Delete(key, rangeEnd, true, order)));
      history := history + [Do(Op.Delete(key, rangeEnd, true, order))];
    }

    method Txn(compares: seq<Compare>, success: seq<RequestOp>, failure: seq<RequestOp>)
      returns (succeeded: bool, responses: seq<ResponseOp>, headerRevision: int)
      requires Valid()
      modifies this`history, thread, kvStore, leaseManager, watchManager
      ensures Valid() && history == old(history) + [Do(Op.Txn(compares, success, failure))]
      ensures Locks.Performs(old(thread.locks.trace), thread.locks.trace)
      ensures headerRevision == System().state.revision
      ensures succeeded <==> AllHold(old(System().state.data), compares)
      ensures AnswersAll(old(System().state).(revision := headerRevision), headerRevision,
                         if succeeded then success else failure, responses)
      ensures System().watching == old(System().watching)
    {
      hide Locks.Performs, Locks.Section, Locks.ProgramOf, Locks.MutationSteps, Locks.RevokeSteps, Locks.SweepSteps;
      hide Locks.Lawful, Locks.HeldAfter, Linearization.Indexed, WellFormed, Consistent, NotifyAll, Step, AnswersAll;
      Reachable();
      NotifyNothing(watchManager.Watching());
      succeeded, responses, headerRevision := kvStore.Txn(compares, success, failure);
      Locks.MutationPerforms(old(thread.locks.trace), thread.locks.trace, 0);
      ActNext(START, history, Do(Op.Txn(compares, success, failure)));
      history := history + [Do(Op.Txn(compares, success, failure))];
    }

    method LeaseGrant(ttl: int, now: int) returns (id: int)
      requires Valid()
      modifies this`history, thread, leaseManager
      ensures Valid() && history == old(history) + [Do(Op.Grant(ttl, now))]
      ensures Locks.Performs(old(thread.locks.trace), thread.locks.trace)
      ensures id !in old(System().state.leases) && id in System().state.leases
      ensures LeaseIndex.GrantedTtl(OpsOf(history), id) == Some(ttl)
    {
      hide Locks.Performs, Locks.Section, Locks.ProgramOf, Locks.MutationSteps, Locks.RevokeSteps, Locks.SweepSteps;
      hide WellFormed, Consistent, NotifyAll, Linearization.Indexed, Locks.Lawful, Locks.HeldAfter;
      hide LeaseIndex.GrantedTtl, Run, OpsOf, Locks.Disciplined, ValidRun;
      Reachable();
      LeaseIndex.SoundIsIndexed(System().state);
      NotifyNothing(watchManager.Watching());
      var ttl';
      id, ttl' := leaseManager.Grant(ttl, now);
      Locks.LeaseOnlyPerforms(old(thread.locks.trace), thread.locks.trace);
      ActNext(START, history, Do(Op.Grant(ttl, now)));
      history := history + [Do(Op.Grant(ttl, now))];
      StateIsRun(START, history);
      LeaseIndex.TtlIsGranted(OpsOf(history), id);
    }

    method LeaseKeepAlive(id: int, now: int) returns (status: Status, ttl: int)
      requires Valid()
      modifies this`history, thread, leaseManager
      ensures Valid() && history == old(history) + [Do(Op.KeepAlive(id, now))]
      ensures Locks.Performs(old(thread.locks.trace), thread.locks.trace)
      ensures status == if id in old(System().state.leases) then Ok else NotFound
      ensures status == Ok ==>
                && LeaseIndex.GrantedTtl(OpsOf(history), id) == Some(ttl)
                && id in System().state.leases && System().state.leases[id].expireTime == now + ttl
    {
      hide Locks.Performs, Locks.Section, Locks.ProgramOf, Locks.MutationSteps, Locks.RevokeSteps, Locks.SweepSteps;
      hide NotifyAll, Locks.Lawful, Locks.HeldAfter, LeaseIndex.GrantedTtl, Run, OpsOf, ValidRun;
      NotifyNothing(watchManager.Watching());
      status, ttl := leaseManager.KeepAlive(id, now);
      Locks.LeaseOnlyPerforms(old(thread.locks.trace), thread.locks.trace);
      ActNext(START, history, Do(Op.KeepAlive(id, now)));
      history := history + [Do(Op.KeepAlive(id, now))];
      StateIsRun(START, history);
      if status == Ok {
        LeaseIndex.TtlIsGranted(OpsOf(history), id);
      }
    }

    /** A live lease goes together with exactly its keys; no stream hears of it. */
    method LeaseRevoke(id: int) returns (status: Status)
      requires Valid()
      modifies this`history, thread, kvStore, leaseManager, watchManager
      ensures Valid() && old(history) <= history && System().watching == old(System().watching)
      ensures Locks.Performs(old(thread.locks.trace), thread.locks.trace)
      ensures status == if id in old(System().state.leases) then Ok else NotFound
      ensures System().state
              == if status == Ok then LeaseIndex.Expire(old(System().state), {id}) else old(System().state)
    {
      hide Locks.Performs, Locks.Section, Locks.ProgramOf, Locks.MutationSteps, Locks.RevokeSteps, Locks.SweepSteps;
      hide Locks.Lawful, Locks.HeldAfter, Linearization.Indexed, WellFormed, Consistent;
      Reachable();
      ghost var before := System();
      ghost var order;
      status, order := leaseManager.Revoke(id);
      Locks.RevokePerforms(old(thread.locks.trace), thread.locks.trace, status == Ok, |order|);
      if status == Ok {
        LeaseIndex.RevokeIsExpire(before.state, id, order);
        ghost var script := LeaseIndex.RevokeScript(id, order);
        RevokeIsSilent(id, order);
        ActSilently(before, script);
        ActAppend(START, history, Silently(script));
        history := history + Silently(script);
      }
    }

    /** The sweep: every lease that has run out goes together with exactly its keys. */
    method CheckExpiration(now: int)
      requires Valid()
      modifies this`history, thread, kvStore, leaseManager, watchManager
      ensures Valid() && old(history) <= history && System().watching == old(System().watching)
      ensures Locks.Performs(old(thread.locks.trace), thread.locks.trace)
      ensures System().state
              == LeaseIndex.Expire(old(System().state), LeaseIndex.Expired(old(System().state), now))
    {
      hide Locks.Performs, Locks.Section, Locks.ProgramOf, Locks.MutationSteps, Locks.RevokeSteps, Locks.SweepSteps;
      hide LeaseIndex.Expire, WellFormed, Consistent, Linearization.Indexed;
      Reachable();
      ghost var before := System();
      ghost var ids, orders := leaseManager.CheckExpiration(now);
      Locks.SweepPerforms(old(thread.locks.trace), thread.locks.trace, |ids|);
      ghost var script := LeaseIndex.SweepScript(ids, orders);
      LeaseIndex.SweepIsExpire(before.state, ids, orders);
      assert (set id | id in ids) == LeaseIndex.Expired(before.state, now);
      SweepIsSilent(ids, orders);
      ActSilently(before, script);
      ActAppend(START, history, Silently(script));
      history := history + Silently(script);
    }

    method WatchCreate(req: WatchRequest) returns (watchId: int)
      requires Valid()
      modifies this`history, thread, watchManager
      ensures Valid() && history == old(history) + [Register(req)]
      ensures Locks.Performs(old(thread.locks.trace), thread.locks.trace)
      ensures watchId == old(System().watching.nextWatchId) && watchId in System().watching.sent
      ensures var rs := System().watching.sent[watchId];
              && rs != [] && rs[0].created && rs[0].revision == Writes(OpsOf(old(history))) + 1
              && (req.startRevision <= 0 ==> |rs| == 1)
    {
      hide Locks.Performs, Locks.Section, Locks.ProgramOf, Locks.MutationSteps, Locks.RevokeSteps, Locks.SweepSteps;
      hide Opening, WellFormed, Consistent, KeyedByItself;
      hide Linearization.Indexed, Locks.Lawful, Locks.HeldAfter;
      Reachable();
      WellFormedKeys(System().state);
      Streams.CreatedOnServer(history, req);
      watchId := watchManager.RegisterWatcher(req, kvStore);
      ActNext(START, history, Register(req));
      history := history + [Register(req)];
    }

    method WatchCancel(watchId: int) returns (status: Status)
      requires Valid()
      modifies this`history, thread, watchManager
      ensures Valid() && history == old(history) + [Cancel(watchId)]
      ensures Locks.Performs(old(thread.locks.trace), thread.locks.trace)
      ensures status == if watchId in old(System().watching.watchers) then Ok else NotFound
      ensures status == Ok ==>
                && watchId in System().watching.sent && System().watching.sent[watchId] != []
                && var rs := System().watching.sent[watchId]; rs[|rs| - 1].canceled && !rs[|rs| - 1].created
    {
      hide Locks.Performs, Locks.Section, Locks.ProgramOf, Locks.MutationSteps, Locks.RevokeSteps, Locks.SweepSteps;
      hide Locks.Lawful, Locks.HeldAfter, Linearization.Indexed, WellFormed, Snapshot;
      Reachable();
      if watchId in System().watching.watchers {
        Streams.CanceledOnServer(history, watchId);
      }
      status := watchManager.CancelWatcher(watchId);
      Locks.CancelPerforms(old(thread.locks.trace), thread.locks.trace, watchId, status == Ok);
      ActNext(START, history, Cancel(watchId));
      history := history + [Cancel(watchId)];
    }
  }
}
