/** The store, the lease manager, the watch manager and the server that wires them, as objects updated
    in place, each method proved against the definitions of Engine and Watch.

    Hash maps and sets are walked in an arbitrary order, chosen by `:|`. The thread making the calls
    records the mutexes it takes and gives back; taking one that does not ascend is an error. */
module Components {
  import opened Collections
  import opened Bytes
  import opened Engine
  import opened History
  import opened Ranges
  import opened Watch
  import opened Transactions
  import opened Locks
  import opened Iteration
  import Linearization
  import LeaseIndex

  datatype Status = Ok | NotFound

  /** The calling thread, as far as mutexes are concerned. */
  class Thread {
    ghost var locks: LockRecord

    constructor ()
      ensures locks.held == {}
    {
      locks := Recorded([], {});
    }

    ghost method Take(l: Lock)
      requires Ascends(locks.held, l)
      modifies this
      ensures locks.held == old(locks.held) + {l} && l !in old(locks.held)
      ensures locks.trace == old(locks.trace) + [Acquire(l)]
    {
      LawfulSnoc(locks.trace, Acquire(l));
      locks := Recorded(locks.trace + [Acquire(l)], locks.held + {l});
    }

    ghost method Give(l: Lock)
      requires l in locks.held
      modifies this
      ensures locks.held == old(locks.held) - {l}
      ensures locks.trace == old(locks.trace) + [Release(l)]
    {
      LawfulSnoc(locks.trace, Release(l));
      locks := Recorded(locks.trace + [Release(l)], locks.held - {l});
    }
  }

  class LeaseManager {
    const thread: Thread
    var leases: Leases
    var nextLeaseId: int
    var store: KVStore?  // where the delete-key callback leads; null when none is set

    constructor (thread: Thread)
      ensures this.thread == thread && leases == map[] && nextLeaseId == 1 && store == null
    {
      this.thread, leases, nextLeaseId, store := thread, map[], 1, null;
    }

    method SetDeleteKeyCallback(target: KVStore?)
      modifies this`store
      ensures store == target
    {
      store := target;
    }

    method Grant(ttl: int, now: int) returns (leaseId: int, actualTtl: int)
      requires Ascends(thread.locks.held, LeaseMutex)
      modifies this`leases, this`nextLeaseId, thread
      ensures thread.locks.held == old(thread.locks.held)
      ensures thread.locks.trace == old(thread.locks.trace) + Section(LeaseMutex, [])
      ensures leaseId == old(nextLeaseId) && nextLeaseId == leaseId + 1 && actualTtl == ttl
      ensures leases == old(leases)[leaseId := LeaseInfo(leaseId, ttl, now + ttl, {})]
    {
      hide Lawful, HeldAfter;
      thread.Take(LeaseMutex);
      leaseId := nextLeaseId;
      nextLeaseId := nextLeaseId + 1;
      actualTtl := ttl;
      var info := LeaseInfo(leaseId, ttl, now + ttl, {});
      leases := leases[leaseId := info];
      thread.Give(LeaseMutex);
      TookLeaf(old(thread.locks.trace), LeaseMutex);
    }

    method KeepAlive(id: int, now: int) returns (status: Status, ttl: int)
      requires Ascends(thread.locks.held, LeaseMutex)
      modifies this`leases, thread
      ensures thread.locks.held == old(thread.locks.held)
      ensures thread.locks.trace == old(thread.locks.trace) + Section(LeaseMutex, [])
      ensures status == (if id in old(leases) then Ok else NotFound)
      ensures status == NotFound ==> leases == old(leases)
      ensures status == Ok ==>
                && ttl == old(leases)[id].ttl
                && leases == old(leases)[id := old(leases)[id].(expireTime := now + ttl)]
    {
      hide Lawful, HeldAfter;
      thread.Take(LeaseMutex);
      status, ttl := NotFound, 0;
      if id in leases {
        leases := leases[id := leases[id].(expireTime := now + leases[id].ttl)];
        status, ttl := Ok, leases[id].ttl;
      }
      thread.Give(LeaseMutex);
      TookLeaf(old(thread.locks.trace), LeaseMutex);
    }

    method AttachKey(id: int, key: Bytes) returns (status: Status)
      requires Ascends(thread.locks.held, LeaseMutex)
      modifies this`leases, thread
      ensures thread.locks.held == old(thread.locks.held)
      ensures thread.locks.trace == old(thread.locks.trace) + Section(LeaseMutex, [])
      ensures status == (if id in old(leases) then Ok else NotFound)
      ensures leases == Engine.AttachKey(old(leases), id, key)
    {
      hide Lawful, HeldAfter;
      thread.Take(LeaseMutex);
      status := NotFound;
      if id in leases {
        leases := leases[id := leases[id].(keys := leases[id].keys + {key})];
        status := Ok;
      }
      thread.Give(LeaseMutex);
      TookLeaf(old(thread.locks.trace), LeaseMutex);
    }

    method DetachKey(id: int, key: Bytes) returns (status: Status)
      requires Ascends(thread.locks.held, LeaseMutex)
      modifies this`leases, thread
      ensures thread.locks.held == old(thread.locks.held)
      ensures thread.locks.trace == old(thread.locks.trace) + Section(LeaseMutex, [])
      ensures status == (if id in old(leases) then Ok else NotFound)
      ensures leases == Engine.DetachKey(old(leases), id, key)
    {
      hide Lawful, HeldAfter;
      thread.Take(LeaseMutex);
      status := NotFound;
      if id in leases {
        leases := leases[id := leases[id].(keys := leases[id].keys - {key})];
        status := Ok;
      }
      thread.Give(LeaseMutex);
      TookLeaf(old(thread.locks.trace), LeaseMutex);
    }

    method GetLeaseKeys(id: int) returns (status: Status, keys: seq<Bytes>)
      requires Ascends(thread.locks.held, LeaseMutex)
      modifies thread
      ensures thread.locks.held == old(thread.locks.held)
      ensures thread.locks.trace == old(thread.locks.trace) + Section(LeaseMutex, [])
      ensures status == (if id in leases then Ok else NotFound)
      ensures if id in leases then Enumerates(keys, leases[id].keys) else keys == []
    {
      hide Lawful, HeldAfter;
      thread.Take(LeaseMutex);
      status, keys := NotFound, [];
      if id in leases {
        var rest := leases[id].keys;
        assert rest - rest == {};
        while rest != {}
          modifies {}
          invariant rest <= leases[id].keys
          invariant Enumerates(keys, leases[id].keys - rest)
        {
          var k :| k in rest;
          EnumerateNext(keys, leases[id].keys - rest, k);
          assert leases[id].keys - (rest - {k}) == leases[id].keys - rest + {k};
          keys, rest := keys + [k], rest - {k};
        }
        assert leases[id].keys - {} == leases[id].keys;
        status := Ok;
      }
      thread.Give(LeaseMutex);
      TookLeaf(old(thread.locks.trace), LeaseMutex);
    }

    /** The callback leads to a store that reports back to this lease manager. */
    ghost predicate Wired()
      reads this, store, StoreWatch()
    {
      store != null && store.leaseManager == this && store.thread == thread && store.Valid()
    }

    ghost function StoreWatch(): set<object>
      reads this, store
    {
      if store == null || store.watch == null then {} else {store.watch}
    }

    /** `order` is the order in which the key set was read. */
    method Revoke(id: int) returns (status: Status, ghost order: seq<Bytes>)
      requires Wired() && thread.locks.held == {}
      modifies this`leases, store, StoreWatch(), thread
      ensures Wired() && thread.locks.held == {} && store == old(store) && store.watch == old(store.watch)
      ensures RevokeSteps(old(thread.locks.trace), thread.locks.trace, status == Ok, |order|)
      ensures store.watch != null ==> store.watch.Watching() == old(store.watch.Watching())
      ensures status == (if id in old(leases) then Ok else NotFound)
      ensures status == NotFound ==> store.State() == old(store.State())
      ensures status == Ok ==>
                && Enumerates(order, old(leases)[id].keys)
                && store.State() == Run(old(store.State()), LeaseIndex.RevokeScript(id, order))
    {
      hide Section, MutationSteps, DeleteSteps, RevokeSteps, SweepSteps, Lawful, HeldAfter;
      hide Consistent;
      var keys;
      status, keys := GetLeaseKeys(id);
      order := keys;
      if status == Ok {
        DeleteKeys(keys);
        ghost var script := LeaseIndex.RevokeScript(id, keys);
        assert script[..|script| - 1] == LeaseIndex.Deletes(keys);
        ghost var deleted := thread.locks.trace;
        thread.Take(LeaseMutex);
        leases := leases - {id};
        thread.Give(LeaseMutex);
        TookLeaf(deleted, LeaseMutex);
        RevokedFound(old(thread.locks.trace), deleted, |keys|);
      } else {
        RevokedGone(old(thread.locks.trace));
      }
    }

    /** The delete-key callback for one key after another, with no mutex held. */
    method DeleteKeys(keys: seq<Bytes>)
      requires Wired() && thread.locks.held == {}
      modifies this`leases, store, StoreWatch(), thread
      ensures Wired() && thread.locks.held == {} && store == old(store) && store.watch == old(store.watch)
      ensures DeleteSteps(old(thread.locks.trace), thread.locks.trace, |keys|)
      ensures store.watch != null ==> store.watch.Watching() == old(store.watch.Watching())
      ensures store.State() == Run(old(store.State()), LeaseIndex.Deletes(keys))
    {
      hide Section, MutationSteps, DeleteSteps, RevokeSteps, SweepSteps, Lawful, HeldAfter;
      hide WellFormed, Consistent, Remove;
      ghost var before := store.State();
      assert LeaseIndex.Deletes(keys[..0]) == [];
      DeleteStepsNone(thread.locks.trace);
      for i := 0 to |keys|
        invariant Wired() && thread.locks.held == {} && store == old(store) && store.watch == old(store.watch)
        invariant store.watch != null ==> store.watch.Watching() == old(store.watch.Watching())
        invariant DeleteSteps(old(thread.locks.trace), thread.locks.trace, i)
        invariant store.State() == Run(before, LeaseIndex.Deletes(keys[..i]))
      {
        if store.watch != null {
          NotifyNothing(store.watch.Watching());
        }
        ghost var traced := thread.locks.trace;
        ghost var walked: seq<Bytes>;
        var none;
        none, walked := store.Delete(keys[i], [], false);
        DeleteStepsNext(old(thread.locks.trace), traced, thread.locks.trace, i);
        assert LeaseIndex.Deletes(keys[..i + 1])[..i] == LeaseIndex.Deletes(keys[..i]);
      }
      assert keys[..|keys|] == keys;
    }

    /** `ids` is the order in which the expired leases were found, `orders` the order of each one's keys. */
    method CheckExpiration(now: int) returns (ghost ids: seq<int>, ghost orders: seq<seq<Bytes>>)
      requires Wired() && thread.locks.held == {}
      modifies this`leases, store, StoreWatch(), thread
      ensures Wired() && thread.locks.held == {} && store == old(store) && store.watch == old(store.watch)
      ensures SweepSteps(old(thread.locks.trace) + Section(LeaseMutex, []), thread.locks.trace, |ids|)
      ensures store.watch != null ==> store.watch.Watching() == old(store.watch.Watching())
      ensures Enumerates(ids, LeaseIndex.Expired(old(store.State()), now))
      ensures LeaseIndex.Swept(old(store.State()), ids, orders)
      ensures store.State() == Run(old(store.State()), LeaseIndex.SweepScript(ids, orders))
    {
      hide Section, MutationSteps, DeleteSteps, RevokeSteps, SweepSteps, Lawful, HeldAfter;
      hide WellFormed, Consistent, Step, Run;
      hide LeaseIndex.RevokeScript, LeaseIndex.SweepScript, LeaseIndex.Swept;
      ghost var before := store.State();
      SweptNone(before);
      assert ExpiredBut({}, now) == LeaseIndex.Expired(before, now);
      var expired := CollectExpired(now);
      ids, orders := expired, [];
      ghost var listed := thread.locks.trace;
      SweepStepsNone(listed);
      for i := 0 to |expired|
        invariant Wired() && thread.locks.held == {} && store == old(store) && store.watch == old(store.watch)
        invariant store.watch != null ==> store.watch.Watching() == old(store.watch.Watching())
        invariant SweepSteps(listed, thread.locks.trace, i)
        invariant |orders| == i && LeaseIndex.Swept(before, expired[..i], orders)
        invariant forall id :: id in leases <==> id in before.leases && id !in expired[..i]
        invariant store.State() == Run(before, LeaseIndex.SweepScript(expired[..i], orders))
      {
        var id := expired[i];
        assert id in expired && id in leases;
        ghost var current, traced := store.State(), thread.locks.trace;
        var status, order := Revoke(id);
        SweepStepsNext(listed, traced, thread.locks.trace, i, status == Ok, |order|);
        RevokeKeys(current, id, order);
        RunAppend(before, LeaseIndex.SweepScript(expired[..i], orders), LeaseIndex.RevokeScript(id, order));
        SweptNext(before, expired[..i], orders, id, order);
        orders := orders + [order];
        assert expired[..i + 1] == expired[..i] + [id];
      }
      assert expired[..|expired|] == expired;
    }

    lemma SweptNone(s: State)
      ensures LeaseIndex.Swept(s, [], []) && Run(s, LeaseIndex.SweepScript([], [])) == s
    {
    }

    lemma SweptNext(s: State, ids: seq<int>, orders: seq<seq<Bytes>>, id: int, order: seq<Bytes>)
      requires LeaseIndex.Swept(s, ids, orders)
      requires var t := Run(s, LeaseIndex.SweepScript(ids, orders));
               id in t.leases && Enumerates(order, t.leases[id].keys)
      ensures LeaseIndex.Swept(s, ids + [id], orders + [order])
      ensures LeaseIndex.SweepScript(ids + [id], orders + [order])
              == LeaseIndex.SweepScript(ids, orders) + LeaseIndex.RevokeScript(id, order)
    {
      assert (ids + [id])[..|ids|] == ids && (orders + [order])[..|ids|] == orders;
    }

    ghost function ExpiredBut(rest: set<int>, now: int): set<int>
      reads this
    {
      set id | id in leases && id !in rest && now >= leases[id].expireTime
    }

    lemma ExpiredNext(rest: set<int>, now: int, id: int)
      requires id in rest && id in leases
      ensures id !in ExpiredBut(rest, now)
      ensures ExpiredBut(rest - {id}, now)
              == ExpiredBut(rest, now) + if now >= leases[id].expireTime then {id} else {}
    {
    }

    method CollectExpired(now: int) returns (expired: seq<int>)
      requires Ascends(thread.locks.held, LeaseMutex)
      modifies thread
      ensures thread.locks.held == old(thread.locks.held)
      ensures thread.locks.trace == old(thread.locks.trace) + Section(LeaseMutex, [])
      ensures Enumerates(expired, ExpiredBut({}, now))
    {
      thread.Take(LeaseMutex);
      expired := [];
      var rest := leases.Keys;
      while rest != {}
        modifies {}
        invariant rest <= leases.Keys
        invariant Enumerates(expired, ExpiredBut(rest, now))
      {
        NonEmpty(rest);
        var id :| id in rest;
        ExpiredNext(rest, now, id);
        if now >= leases[id].expireTime {
          EnumerateNext(expired, ExpiredBut(rest, now), id);
          expired := expired + [id];
        }
        rest := rest - {id};
      }
      thread.Give(LeaseMutex);
      TookLeaf(old(thread.locks.trace), LeaseMutex);
    }
  }

  class KVStore {
    const thread: Thread
    var data: Data
    var revision: int
    var leaseManager: LeaseManager?
    var watch: WatchManager?  // where the put and delete callbacks lead; null when none is set

    constructor (thread: Thread)
      ensures this.thread == thread && data == map[] && revision == 1 && leaseManager == null && watch == null
    {
      this.thread, data, revision, leaseManager, watch := thread, map[], 1, null, null;
    }

    method SetLeaseManager(target: LeaseManager?)
      modifies this`leaseManager
      ensures leaseManager == target
    {
      leaseManager := target;
    }

    method SetWatchCallback(target: WatchManager?)
      modifies this`watch
      ensures watch == target
    {
      watch := target;
    }

    ghost function LeaseObject(): set<LeaseManager>
      reads this
    {
      if leaseManager == null then {} else {leaseManager}
    }

    ghost function WatchObject(): set<WatchManager>
      reads this
    {
      if watch == null then {} else {watch}
    }

    /** The store with the lease table it maintains; without a lease manager, an empty one. */
    ghost function State(): State
      reads this, LeaseObject()
    {
      if leaseManager == null then Engine.State(data, revision, map[], 1)
      else Engine.State(data, revision, leaseManager.leases, leaseManager.nextLeaseId)
    }

    ghost predicate Valid()
      reads this, LeaseObject(), WatchObject()
    {
      && WellFormed(State())
      && (leaseManager != null ==> leaseManager.thread == thread)
      && (watch != null ==> watch.thread == thread && Consistent(watch.Watching()))
    }

    /** The callbacks of `ns`, when there is anyone to call. */
    twostate predicate Notified(ns: seq<Notice>)
      reads this, WatchObject()
    {
      watch == old(watch) && (watch != null ==> watch.Watching() == NotifyAll(old(watch.Watching()), ns))
    }

    method Put(key: Bytes, value: Bytes, lease: int, wantPrev: bool) returns (prevKv: Option<KeyValue>)
      requires Valid() && thread.locks.held == {}
      modifies this`data, this`revision, LeaseObject()`leases, WatchObject()`sent, thread
      ensures Valid() && thread.locks.held == {}
      ensures MutationSteps(old(thread.locks.trace), thread.locks.trace, if watch == null then 0 else 1)
      ensures State() == Step(old(State()), Op.Put(key, value, lease))
      ensures Notified(Notices(old(State()), Op.Put(key, value, lease)))
      ensures prevKv == if wantPrev && key in old(data) then Some(old(data)[key].kv) else None
    {
      hide Section, LeaseSteps, ReportSteps, MutationSteps, NotifySteps, Lawful, HeldAfter;
      hide WellFormed, Consistent, NotifyAll, Write;
      StepWellFormed(State(), Op.Put(key, value, lease));
      thread.Take(KvMutex);
      revision := revision + 1;
      var newRevision := revision;
      var existed := key in data;
      var prevKvCopy := EMPTY_KEY_VALUE;
      if existed {
        prevKvCopy := data[key].kv;
      }
      var info := PutRecord(newRevision, key, value, lease, existed, prevKvCopy);
      ghost var leased := thread.locks.trace;
      FirePut(key, info.kv, if existed then Some(prevKvCopy) else None);
      prevKv := None;
      if wantPrev && existed {
        prevKv := Some(prevKvCopy);
      }
      MutationDone(old(thread.locks.trace), leased, thread.locks.trace, if watch == null then 0 else 1);
      thread.Give(KvMutex);
    }

    method PutRecord(newRevision: int, key: Bytes, value: Bytes, lease: int, existed: bool, prevKvCopy: KeyValue)
      returns (info: KeyInfo)
      requires thread.locks.held == {KvMutex} && (leaseManager != null ==> leaseManager.thread == thread)
      requires existed <==> key in data
      requires existed ==> prevKvCopy == data[key].kv
      modifies this`data, LeaseObject()`leases, thread
      ensures thread.locks.held == {KvMutex}
      ensures LeaseSteps(old(thread.locks.trace), thread.locks.trace)
      ensures info == NewInfo(old(data), newRevision, key, value, lease)
      ensures State() == Write(old(State()), newRevision, key, value, lease)
    {
      hide Section, LeaseSteps, ReportSteps, MutationSteps, NotifySteps, Lawful, HeldAfter;
      var create := if existed then data[key].createRevision else newRevision;
      var version := if existed then data[key].version + 1 else 1;
      info := KeyInfo(KeyValue(key, value, lease, create, newRevision, version), create, newRevision, version);
      LeaseStepsNone(thread.locks.trace);
      if lease > 0 && leaseManager != null {
        if existed && prevKvCopy.lease > 0 {
          var _ := leaseManager.DetachKey(prevKvCopy.lease, key);
          LeaseStepsOne(old(thread.locks.trace), thread.locks.trace);
        }
        ghost var detached := thread.locks.trace;
        var _ := leaseManager.AttachKey(lease, key);
        LeaseStepsOne(detached, thread.locks.trace);
        LeaseStepsThen(old(thread.locks.trace), detached, thread.locks.trace);
      } else if existed && prevKvCopy.lease > 0 && leaseManager != null {
        var _ := leaseManager.DetachKey(prevKvCopy.lease, key);
        LeaseStepsOne(old(thread.locks.trace), thread.locks.trace);
      }
      data := data[key := info];
    }

    method FirePut(key: Bytes, kv: KeyValue, prev: Option<KeyValue>)
      requires thread.locks.held == {KvMutex}
      requires watch != null ==> watch.thread == thread && Consistent(watch.Watching())
      modifies WatchObject()`sent, thread
      ensures thread.locks.held == {KvMutex}
      ensures ReportSteps(old(thread.locks.trace), thread.locks.trace, if watch == null then 0 else 1)
      ensures Notified([PutNotice(key, kv, prev, revision)])
      ensures watch != null ==> Consistent(watch.Watching())
    {
      hide Section, LeaseSteps, ReportSteps, MutationSteps, NotifySteps, Lawful, HeldAfter;
      ReportStepsNone(thread.locks.trace);
      if watch != null {
        watch.NotifyPut(key, kv, prev, CurrentRevision());
        ReportStepsMore(old(thread.locks.trace), old(thread.locks.trace), thread.locks.trace, 0);
      }
    }

    static ghost function Deletions(kvs: seq<KeyValue>, revision: int): seq<Notice>
    {
      seq(|kvs|, i requires 0 <= i < |kvs| => DeleteNotice(kvs[i].key, kvs[i], revision))
    }

    static lemma DeletionNotices(s: State, op: Op, kvs: seq<KeyValue>)
      requires op.Delete? && Enumerates(op.order, InRangeKeys(s.data, op.start, op.end))
      requires forall k :: k in op.order ==> k in s.data
      requires kvs == if op.collect then Collected(s.data, op.order) else []
      ensures Deletions(kvs, s.revision + 1) == Notices(s, op)
    {
    }

    method FireDeletes(kvs: seq<KeyValue>)
      requires thread.locks.held == {KvMutex}
      requires watch != null ==> watch.thread == thread && Consistent(watch.Watching())
      modifies WatchObject()`sent, thread
      ensures thread.locks.held == {KvMutex}
      ensures ReportSteps(old(thread.locks.trace), thread.locks.trace, if watch == null then 0 else |kvs|)
      ensures Notified(Deletions(kvs, revision))
      ensures watch != null ==> Consistent(watch.Watching())
    {
      hide Section, LeaseSteps, ReportSteps, MutationSteps, NotifySteps, Lawful, HeldAfter;
      ReportStepsNone(thread.locks.trace);
      if watch != null {
        ghost var notices := Deletions(kvs, revision);
        NotifyNothing(watch.Watching());
        for i := 0 to |kvs|
          invariant thread.locks.held == {KvMutex} && Consistent(watch.Watching())
          invariant ReportSteps(old(thread.locks.trace), thread.locks.trace, i)
          invariant watch.Watching() == NotifyAll(old(watch.Watching()), notices[..i])
        {
          ghost var traced := thread.locks.trace;
          watch.NotifyDelete(kvs[i].key, kvs[i], CurrentRevision());
          ReportStepsMore(old(thread.locks.trace), traced, thread.locks.trace, i);
          NotifyTwice(old(watch.Watching()), notices[..i], [notices[i]]);
          assert notices[..i] + [notices[i]] == notices[..i + 1];
        }
        assert notices[..|kvs|] == notices;
      }
    }

    /** Takes no lock. */
    function CurrentRevision(): int
      reads this`revision
    {
      revision
    }

    method Get(key: Bytes) returns (status: Status, kv: KeyValue)
      requires thread.locks.held == {}
      modifies thread
      ensures thread.locks.held == {}
      ensures thread.locks.trace == old(thread.locks.trace) + Section(KvMutex, [])
      ensures if key in data then status == Ok && kv == data[key].kv else status == NotFound
    {
      thread.Take(KvMutex);
      status, kv := NotFound, EMPTY_KEY_VALUE;
      if key in data {
        status, kv := Ok, data[key].kv;
      }
      thread.Give(KvMutex);
      TookLeaf(old(thread.locks.trace), KvMutex);
    }

    // ----- Range -----

    method RangeInternal(start: Bytes, end: Bytes, limit: int, countOnly: bool, keysOnly: bool)
      returns (kvs: seq<KeyValue>)
      requires KeyedByItself(data)
      ensures kvs == RangeResult(data, start, end, limit, countOnly, keysOnly)
    {
      var matching := Matching(start, end);
      SortLists(data, matching, InRangeKeys(data, start, end));
      var sorted := SortByKey(matching);
      kvs := Emit(sorted, limit, countOnly, keysOnly);
      EmittedIsRange(data, Sorted(InRangeKeys(data, start, end)), sorted, limit, countOnly, keysOnly, kvs);
    }

    static method Emit(infos: seq<KeyInfo>, limit: int, countOnly: bool, keysOnly: bool) returns (kvs: seq<KeyValue>)
      ensures |kvs| == |Limited(infos, limit)|
      ensures forall i | 0 <= i < |kvs| :: kvs[i] == Shown(infos[i], countOnly, keysOnly)
    {
      kvs := [];
      var count := 0;
      while count < |infos|
        invariant 0 <= count <= |infos| && |kvs| == count && (limit > 0 ==> count <= limit)
        invariant forall i | 0 <= i < count :: kvs[i] == Shown(infos[i], countOnly, keysOnly)
      {
        var info := infos[count];
        count := count + 1;
        if limit > 0 && count > limit {
          return;
        }
        if countOnly {
          kvs := kvs + [EMPTY_KEY_VALUE];
        } else if keysOnly {
          kvs := kvs + [EMPTY_KEY_VALUE.(key := info.kv.key)];
        } else {
          kvs := kvs + [info.kv];
        }
      }
    }

    /** The matching records, in the order the hash map yields them. */
    method Matching(start: Bytes, end: Bytes) returns (infos: seq<KeyInfo>)
      requires KeyedByItself(data)
      ensures DistinctKeys(infos)
      ensures forall x :: x in infos <==> x.kv.key in InRangeKeys(data, start, end) && data[x.kv.key] == x
    {
      infos := [];
      var rest := data.Keys;
      while rest != {}
        invariant rest <= data.Keys && DistinctKeys(infos)
        invariant forall x :: x in infos <==> x.kv.key in Walked(data, start, end, rest) && data[x.kv.key] == x
      {
        var k :| k in rest;
        WalkedNext(data, start, end, rest, k);
        ghost var previous := infos;
        if KeyInRange(k, start, end) {
          infos := infos + [data[k]];
          assert forall i | 0 <= i < |previous| :: previous[i] in previous;
        }
        rest := rest - {k};
        assert forall x :: x in infos <==> x in previous || (KeyInRange(k, start, end) && x == data[k]);
      }
    }

    method Range(start: Bytes, end: Bytes, limit: int, countOnly: bool, keysOnly: bool) returns (kvs: seq<KeyValue>)
      requires KeyedByItself(data) && thread.locks.held == {}
      modifies thread
      ensures thread.locks.held == {}
      ensures thread.locks.trace == old(thread.locks.trace) + Section(KvMutex, [])
      ensures kvs == RangeResult(data, start, end, limit, countOnly, keysOnly)
    {
      thread.Take(KvMutex);
      kvs := RangeInternal(start, end, limit, countOnly, keysOnly);
      thread.Give(KvMutex);
      TookLeaf(old(thread.locks.trace), KvMutex);
    }

    // ----- Delete -----

    /** `order` is the order in which the hash map yielded the keys. */
    method Delete(key: Bytes, rangeEnd: Bytes, wantPrev: bool) returns (prevKvs: seq<KeyValue>, ghost order: seq<Bytes>)
      requires Valid() && thread.locks.held == {}
      modifies this`data, this`revision, LeaseObject()`leases, WatchObject()`sent, thread
      ensures Valid() && thread.locks.held == {}
      ensures MutationSteps(old(thread.locks.trace), thread.locks.trace, if watch == null then 0 else |prevKvs|)
      ensures Enumerates(order, InRangeKeys(old(data), key, rangeEnd))
      ensures State() == Step(old(State()), Op.Delete(key, rangeEnd, wantPrev, order))
      ensures Notified(Notices(old(State()), Op.Delete(key, rangeEnd, wantPrev, order)))
      ensures forall k :: k in order ==> k in old(data)
      ensures prevKvs == if wantPrev then Collected(old(data), order) else []
    {
      hide Section, LeaseSteps, ReportSteps, MutationSteps, NotifySteps, Lawful, HeldAfter;
      hide WellFormed, Consistent, NotifyAll, Notices, Remove, KeyInRange;
      StepWellFormed(State(), Op.Delete(key, rangeEnd, wantPrev, []));
      thread.Take(KvMutex);
      revision := revision + 1;
      var deletedKvs, keysToDelete := EraseKeys(key, rangeEnd, wantPrev);
      order := keysToDelete;
      ghost var leased := thread.locks.trace;
      FireDeletes(deletedKvs);
      DeletionNotices(old(State()), Op.Delete(key, rangeEnd, wantPrev, order), deletedKvs);
      prevKvs := [];
      if wantPrev {
        prevKvs := deletedKvs;
      }
      MutationDone(old(thread.locks.trace), leased, thread.locks.trace, if watch == null then 0 else |deletedKvs|);
      thread.Give(KvMutex);
    }

    method EraseKeys(key: Bytes, rangeEnd: Bytes, collect: bool) returns (deletedKvs: seq<KeyValue>, order: seq<Bytes>)
      requires thread.locks.held == {KvMutex} && (leaseManager != null ==> leaseManager.thread == thread)
      modifies this`data, LeaseObject()`leases, thread
      ensures thread.locks.held == {KvMutex}
      ensures LeaseSteps(old(thread.locks.trace), thread.locks.trace)
      ensures Enumerates(order, InRangeKeys(old(data), key, rangeEnd))
      ensures forall k :: k in order ==> k in old(data)
      ensures State() == Remove(old(State()), InRangeKeys(old(data), key, rangeEnd))
      ensures deletedKvs == if collect then Collected(old(data), order) else []
    {
      hide Section, LeaseSteps, ReportSteps, MutationSteps, NotifySteps, Lawful, HeldAfter;
      if rangeEnd == [] {
        deletedKvs, order := DeleteSingle(key, collect);
      } else {
        deletedKvs, order := DeleteRange(key, rangeEnd, collect);
      }
    }

    /** The path taken when no range end is given. */
    method DeleteSingle(key: Bytes, collect: bool) returns (deletedKvs: seq<KeyValue>, order: seq<Bytes>)
      requires thread.locks.held == {KvMutex} && (leaseManager != null ==> leaseManager.thread == thread)
      modifies this`data, LeaseObject()`leases, thread
      ensures thread.locks.held == {KvMutex}
      ensures LeaseSteps(old(thread.locks.trace), thread.locks.trace)
      ensures Enumerates(order, InRangeKeys(old(data), key, []))
      ensures forall k :: k in order ==> k in old(data)
      ensures State() == Remove(old(State()), InRangeKeys(old(data), key, []))
      ensures deletedKvs == if collect then Collected(old(data), order) else []
    {
      hide Section, LeaseSteps, ReportSteps, MutationSteps, NotifySteps, Lawful, HeldAfter;
      LeaseIndex.SingleKeyRange(data, key);
      deletedKvs, order := [], [];
      LeaseStepsNone(thread.locks.trace);
      if key in data {
        order := [key];
        if collect {
          deletedKvs := deletedKvs + [data[key].kv];
        }
        Linearization.EraseOne(State(), key);
        assert {key} * data.Keys == {key};
        if data[key].kv.lease > 0 && leaseManager != null {
          var _ := leaseManager.DetachKey(data[key].kv.lease, key);
          LeaseStepsOne(old(thread.locks.trace), thread.locks.trace);
        }
        data := data - {key};
      } else {
        assert {key} * data.Keys == {};
        Linearization.RemoveNothing(State());
      }
    }

    /** The path taken with a range end: collect first, erase afterwards. */
    method DeleteRange(key: Bytes, rangeEnd: Bytes, collect: bool)
      returns (deletedKvs: seq<KeyValue>, order: seq<Bytes>)
      requires thread.locks.held == {KvMutex} && (leaseManager != null ==> leaseManager.thread == thread)
      modifies this`data, LeaseObject()`leases, thread
      ensures thread.locks.held == {KvMutex}
      ensures LeaseSteps(old(thread.locks.trace), thread.locks.trace)
      ensures Enumerates(order, InRangeKeys(old(data), key, rangeEnd))
      ensures forall k :: k in order ==> k in old(data)
      ensures State() == Remove(old(State()), InRangeKeys(old(data), key, rangeEnd))
      ensures deletedKvs == if collect then Collected(old(data), order) else []
    {
      hide Section, LeaseSteps, ReportSteps, MutationSteps, NotifySteps, Lawful, HeldAfter;
      var keyLeasePairs;
      deletedKvs, order, keyLeasePairs := CollectRange(key, rangeEnd, collect);
      ErasePairs(keyLeasePairs, order);
      assert SetOf(order) == InRangeKeys(old(data), key, rangeEnd);
    }

    method CollectRange(key: Bytes, rangeEnd: Bytes, collect: bool)
      returns (deletedKvs: seq<KeyValue>, order: seq<Bytes>, keyLeasePairs: seq<(Bytes, int)>)
      ensures Enumerates(order, InRangeKeys(data, key, rangeEnd))
      ensures Paired(data, order, keyLeasePairs)
      ensures deletedKvs == if collect then Collected(data, order) else []
    {
      hide KeyInRange;
      deletedKvs, order, keyLeasePairs := [], [], [];
      var rest := data.Keys;
      while rest != {}
        invariant rest <= data.Keys
        invariant Enumerates(order, Walked(data, key, rangeEnd, rest))
        invariant Paired(data, order, keyLeasePairs)
        invariant deletedKvs == if collect then Collected(data, order) else []
      {
        var k :| k in rest;
        WalkedNext(data, key, rangeEnd, rest, k);
        if KeyInRange(k, key, rangeEnd) {
          EnumerateNext(order, Walked(data, key, rangeEnd, rest), k);
          order := order + [k];
          keyLeasePairs := keyLeasePairs + [(k, data[k].kv.lease)];
          if collect {
            deletedKvs := deletedKvs + [data[k].kv];
          }
        }
        rest := rest - {k};
      }
      assert Walked(data, key, rangeEnd, {}) == InRangeKeys(data, key, rangeEnd);
    }

    method ErasePairs(keyLeasePairs: seq<(Bytes, int)>, ghost keys: seq<Bytes>)
      requires thread.locks.held == {KvMutex} && (leaseManager != null ==> leaseManager.thread == thread)
      requires Paired(data, keys, keyLeasePairs) && forall i, j :: 0 <= i < j < |keys| ==> keys[i] != keys[j]
      modifies this`data, LeaseObject()`leases, thread
      ensures thread.locks.held == {KvMutex}
      ensures LeaseSteps(old(thread.locks.trace), thread.locks.trace)
      ensures State() == Remove(old(State()), SetOf(keys))
    {
      hide Section, LeaseSteps, ReportSteps, MutationSteps, NotifySteps, Lawful, HeldAfter;
      ghost var before := State();
      Linearization.RemoveNothing(before);
      assert SetOf(keys[..0]) == {};
      LeaseStepsNone(thread.locks.trace);
      for i := 0 to |keyLeasePairs|
        invariant thread.locks.held == {KvMutex}
        invariant LeaseSteps(old(thread.locks.trace), thread.locks.trace)
        invariant State() == Remove(before, SetOf(keys[..i]))
      {
        var (k, lease) := keyLeasePairs[i];
        Linearization.EraseOne(State(), k);
        assert k !in keys[..i] && LeaseOf(data, k) == lease;
        RemoveNext(before, keys, i);
        if lease > 0 && leaseManager != null {
          ghost var traced := thread.locks.trace;
          var _ := leaseManager.DetachKey(lease, k);
          LeaseStepsOne(traced, thread.locks.trace);
          LeaseStepsThen(old(thread.locks.trace), traced, thread.locks.trace);
        }
        data := data - {k};
      }
      assert keys[..|keys|] == keys;
    }

    // ----- Txn -----

    method Txn(compares: seq<Compare>, success: seq<RequestOp>, failure: seq<RequestOp>)
      returns (succeeded: bool, responses: seq<ResponseOp>, headerRevision: int)
      requires Valid() && thread.locks.held == {}
      modifies this`data, this`revision, LeaseObject()`leases, thread
      ensures Valid() && thread.locks.held == {}
      ensures MutationSteps(old(thread.locks.trace), thread.locks.trace, 0)
      ensures State() == Step(old(State()), Op.Txn(compares, success, failure))
      ensures headerRevision == revision == old(revision) + 1
      ensures succeeded <==> forall c | c in compares :: EvaluateCompare(c, Lookup(old(data), c.key))
      ensures AnswersAll(old(State()).(revision := headerRevision), headerRevision,
                         if succeeded then success else failure, responses)
    {
      hide Section, LeaseSteps, ReportSteps, MutationSteps, NotifySteps, Lawful, HeldAfter;
      hide WellFormed, Consistent, ApplyOps, Answers;
      StepWellFormed(State(), Op.Txn(compares, success, failure));
      BumpedWellFormed(State());
      thread.Take(KvMutex);
      revision := revision + 1;
      var newRevision := revision;
      ghost var before := State();
      succeeded := EvaluateAll(compares);
      var ops := if succeeded then success else failure;
      responses := RunOps(newRevision, ops);
      headerRevision := newRevision;
      ReportStepsNone(thread.locks.trace);
      MutationDone(old(thread.locks.trace), thread.locks.trace, thread.locks.trace, 0);
      thread.Give(KvMutex);
    }

    method RunOps(newRevision: int, ops: seq<RequestOp>) returns (responses: seq<ResponseOp>)
      requires thread.locks.held == {KvMutex} && (leaseManager != null ==> leaseManager.thread == thread)
      requires WellFormed(State()) && State().revision == newRevision > 1
      modifies this`data, LeaseObject()`leases, thread
      ensures thread.locks.held == {KvMutex}
      ensures LeaseSteps(old(thread.locks.trace), thread.locks.trace)
      ensures State() == ApplyOps(old(State()), newRevision, ops)
      ensures AnswersAll(old(State()), newRevision, ops, responses)
    {
      hide Section, LeaseSteps, ReportSteps, MutationSteps, NotifySteps, Lawful, HeldAfter;
      ghost var before := State();
      responses := [];
      LeaseStepsNone(thread.locks.trace);
      for i := 0 to |ops|
        invariant thread.locks.held == {KvMutex}
        invariant LeaseSteps(old(thread.locks.trace), thread.locks.trace)
        invariant State() == ApplyOps(before, newRevision, ops[..i])
        invariant AnswersAll(before, newRevision, ops[..i], responses)
      {
        ApplyOpsWellFormed(before, newRevision, ops[..i]);
        assert ops[..i + 1][..i] == ops[..i];
        ghost var traced := thread.locks.trace;
        var response := TxnOp(newRevision, ops[i]);
        LeaseStepsThen(old(thread.locks.trace), traced, thread.locks.trace);
        AnswersNext(before, newRevision, ops[..i + 1], responses, response);
        responses := responses + [response];
      }
      assert ops[..|ops|] == ops;
    }

    method EvaluateAll(compares: seq<Compare>) returns (succeeded: bool)
      ensures succeeded <==> forall c | c in compares :: EvaluateCompare(c, Lookup(data, c.key))
    {
      succeeded := true;
      for i := 0 to |compares|
        invariant succeeded && forall c | c in compares[..i] :: EvaluateCompare(c, Lookup(data, c.key))
      {
        var cmp := compares[i];
        var info := if cmp.key in data then Some(data[cmp.key]) else None;
        if !EvaluateCompare(cmp, info) {
          succeeded := false;
          assert cmp in compares;
          break;
        }
      }
      assert succeeded ==> compares[..|compares|] == compares;
    }

    method TxnOp(newRevision: int, op: RequestOp) returns (response: ResponseOp)
      requires thread.locks.held == {KvMutex} && (leaseManager != null ==> leaseManager.thread == thread)
      requires WellFormed(State())
      modifies this`data, LeaseObject()`leases, thread
      ensures thread.locks.held == {KvMutex}
      ensures LeaseSteps(old(thread.locks.trace), thread.locks.trace)
      ensures State() == ApplyOp(old(State()), newRevision, op)
      ensures Answers(old(State()), op, response)
    {
      hide Section, LeaseSteps, ReportSteps, MutationSteps, NotifySteps, Lawful, HeldAfter;
      LeaseStepsNone(thread.locks.trace);
      match op {
        case PutOp(key, value, lease, prevKv) => response := TxnPut(newRevision, key, value, lease, prevKv);
        case DeleteOp(key, rangeEnd, prevKv) => response := TxnDelete(key, rangeEnd, prevKv);
        case RangeOp(key, rangeEnd, limit, countOnly, keysOnly) =>
          assert forall k | k in data :: WellFormedRecord(k, data[k], State().revision);
          var kvs := RangeInternal(key, rangeEnd, limit, countOnly, keysOnly);
          response := RangeResponse(kvs, |kvs|, false);
        case OtherOp => response := NoResponse;
      }
    }

    /** The transaction's own copy of the put code. */
    method TxnPut(newRevision: int, key: Bytes, value: Bytes, lease: int, wantPrev: bool) returns (response: ResponseOp)
      requires thread.locks.held == {KvMutex} && (leaseManager != null ==> leaseManager.thread == thread)
      modifies this`data, LeaseObject()`leases, thread
      ensures thread.locks.held == {KvMutex}
      ensures LeaseSteps(old(thread.locks.trace), thread.locks.trace)
      ensures State() == Write(old(State()), newRevision, key, value, lease)
      ensures Answers(old(State()), PutOp(key, value, lease, wantPrev), response)
    {
      hide Section, LeaseSteps, ReportSteps, MutationSteps, NotifySteps, Lawful, HeldAfter;
      var prevKv := EMPTY_KEY_VALUE;
      var existed := key in data;
      if existed {
        prevKv := data[key].kv;
      }
      var create := if existed then data[key].createRevision else newRevision;
      var version := if existed then data[key].version + 1 else 1;
      var info := KeyInfo(KeyValue(key, value, lease, create, newRevision, version), create, newRevision, version);
      LeaseStepsNone(thread.locks.trace);
      if lease > 0 && leaseManager != null {
        if existed && prevKv.lease > 0 {
          var _ := leaseManager.DetachKey(prevKv.lease, key);
          LeaseStepsOne(old(thread.locks.trace), thread.locks.trace);
        }
        ghost var detached := thread.locks.trace;
        var _ := leaseManager.AttachKey(lease, key);
        LeaseStepsOne(detached, thread.locks.trace);
        LeaseStepsThen(old(thread.locks.trace), detached, thread.locks.trace);
      } else if existed && prevKv.lease > 0 && leaseManager != null {
        var _ := leaseManager.DetachKey(prevKv.lease, key);
        LeaseStepsOne(old(thread.locks.trace), thread.locks.trace);
      }
      data := data[key := info];
      response := PutResponse(if wantPrev then Some(prevKv) else None);
    }

    /** The transaction's own copy of the delete code, which has no single-key path. */
    method TxnDelete(key: Bytes, rangeEnd: Bytes, wantPrev: bool) returns (response: ResponseOp)
      requires thread.locks.held == {KvMutex} && (leaseManager != null ==> leaseManager.thread == thread)
      modifies this`data, LeaseObject()`leases, thread
      ensures thread.locks.held == {KvMutex}
      ensures LeaseSteps(old(thread.locks.trace), thread.locks.trace)
      ensures State() == Remove(old(State()), InRangeKeys(old(data), key, rangeEnd))
      ensures Answers(old(State()), DeleteOp(key, rangeEnd, wantPrev), response)
    {
      hide Section, LeaseSteps, ReportSteps, MutationSteps, NotifySteps, Lawful, HeldAfter;
      var keysToDelete, deletedKvs, keyLeasePairs := TxnCollect(key, rangeEnd, wantPrev);
      DistinctLength(keysToDelete, InRangeKeys(data, key, rangeEnd));
      assert wantPrev ==> IsCollected(data, keysToDelete, deletedKvs);
      TxnErase(keyLeasePairs, keysToDelete);
      assert SetOf(keysToDelete) == InRangeKeys(old(data), key, rangeEnd);
      response := DeleteResponse(|keysToDelete|, deletedKvs);
    }

    method TxnCollect(key: Bytes, rangeEnd: Bytes, wantPrev: bool)
      returns (keysToDelete: seq<Bytes>, deletedKvs: seq<KeyValue>, keyLeasePairs: seq<(Bytes, int)>)
      ensures Enumerates(keysToDelete, InRangeKeys(data, key, rangeEnd))
      ensures Paired(data, keysToDelete, keyLeasePairs)
      ensures deletedKvs == if wantPrev then Collected(data, keysToDelete) else []
    {
      hide KeyInRange;
      keysToDelete, deletedKvs, keyLeasePairs := [], [], [];
      var rest := data.Keys;
      while rest != {}
        invariant rest <= data.Keys
        invariant Enumerates(keysToDelete, Walked(data, key, rangeEnd, rest))
        invariant Paired(data, keysToDelete, keyLeasePairs)
        invariant deletedKvs == if wantPrev then Collected(data, keysToDelete) else []
      {
        var k :| k in rest;
        WalkedNext(data, key, rangeEnd, rest, k);
        if KeyInRange(k, key, rangeEnd) {
          EnumerateNext(keysToDelete, Walked(data, key, rangeEnd, rest), k);
          keysToDelete := keysToDelete + [k];
          keyLeasePairs := keyLeasePairs + [(k, data[k].kv.lease)];
          if wantPrev {
            deletedKvs := deletedKvs + [data[k].kv];
          }
        }
        rest := rest - {k};
      }
      assert Walked(data, key, rangeEnd, {}) == InRangeKeys(data, key, rangeEnd);
    }

    method TxnErase(keyLeasePairs: seq<(Bytes, int)>, ghost keys: seq<Bytes>)
      requires thread.locks.held == {KvMutex} && (leaseManager != null ==> leaseManager.thread == thread)
      requires Paired(data, keys, keyLeasePairs) && forall i, j :: 0 <= i < j < |keys| ==> keys[i] != keys[j]
      modifies this`data, LeaseObject()`leases, thread
      ensures thread.locks.held == {KvMutex}
      ensures LeaseSteps(old(thread.locks.trace), thread.locks.trace)
      ensures State() == Remove(old(State()), SetOf(keys))
    {
      hide Section, LeaseSteps, ReportSteps, MutationSteps, NotifySteps, Lawful, HeldAfter;
      ghost var before := State();
      Linearization.RemoveNothing(before);
      assert SetOf(keys[..0]) == {};
      LeaseStepsNone(thread.locks.trace);
      for i := 0 to |keyLeasePairs|
        invariant thread.locks.held == {KvMutex}
        invariant LeaseSteps(old(thread.locks.trace), thread.locks.trace)
        invariant State() == Remove(before, SetOf(keys[..i]))
      {
        var (k, lease) := keyLeasePairs[i];
        Linearization.EraseOne(State(), k);
        assert k !in keys[..i] && LeaseOf(data, k) == lease;
        RemoveNext(before, keys, i);
        if lease > 0 && leaseManager != null {
          ghost var traced := thread.locks.trace;
          var _ := leaseManager.DetachKey(lease, k);
          LeaseStepsOne(traced, thread.locks.trace);
          LeaseStepsThen(old(thread.locks.trace), traced, thread.locks.trace);
        }
        data := data - {k};
      }
      assert keys[..|keys|] == keys;
    }
  }

  class WatchManager {
    const thread: Thread
    var watchers: map<int, Watcher>
    var nextWatchId: int
    var sent: map<int, seq<WatchResponse>>

    constructor (thread: Thread)
      ensures this.thread == thread && Watching() == NOT_WATCHING
    {
      this.thread, watchers, nextWatchId, sent := thread, map[], 1, map[];
    }

    ghost function Watching(): Watching
      reads this
    {
      Watch.Watching(watchers, nextWatchId, sent)
    }

    /** Writes to the watcher's stream, which always succeeds. */
    method SendWatchResponse(watcher: Watcher, response: WatchResponse)
      requires watcher.watchId in sent && Ascends(thread.locks.held, StreamMutex(watcher.watchId))
      modifies this`sent, thread
      ensures thread.locks.held == old(thread.locks.held)
      ensures thread.locks.trace == old(thread.locks.trace) + Send(watcher.watchId)
      ensures sent == old(sent)[watcher.watchId := old(sent)[watcher.watchId] + [response]]
    {
      thread.Take(StreamMutex(watcher.watchId));
      sent := sent[watcher.watchId := sent[watcher.watchId] + [response]];
      thread.Give(StreamMutex(watcher.watchId));
      TookLeaf(old(thread.locks.trace), StreamMutex(watcher.watchId));
    }

    method NotifyPut(key: Bytes, kv: KeyValue, prevKv: Option<KeyValue>, revision: int)
      requires Consistent(Watching()) && Ascends(thread.locks.held, WatchMutex)
      modifies this`sent, thread
      ensures thread.locks.held == old(thread.locks.held)
      ensures NotifySteps(old(thread.locks.trace), thread.locks.trace)
      ensures Watching() == NotifyAll(old(Watching()), [PutNotice(key, kv, prevKv, revision)])
    {
      hide Less, Lawful, HeldAfter, Partly;
      ghost var n := PutNotice(key, kv, prevKv, revision);
      thread.Take(WatchMutex);
      PartlyNone(sent, watchers, n);
      ghost var ids: seq<int> := [];
      assert thread.locks.trace == thread.locks.trace + Sends(ids);
      ghost var begun := thread.locks.trace;
      var rest := watchers.Keys;
      while rest != {}
        invariant rest <= watchers.Keys && thread.locks.held == old(thread.locks.held) + {WatchMutex}
        invariant watchers == old(watchers) && nextWatchId == old(nextWatchId)
        invariant thread.locks.trace == begun + Sends(ids)
        invariant sent == Partly(old(sent), watchers, watchers.Keys - rest, n)
      {
        NonEmpty(rest);
        var id :| id in rest;
        PartlyNext(old(Watching()), watchers.Keys - rest, n, id);
        assert watchers.Keys - (rest - {id}) == watchers.Keys - rest + {id};
        rest := rest - {id};
        var watcher := watchers[id];
        if watcher.active && KeyMatchesWatcher(key, watcher) {
          var prev := if watcher.prevKv && prevKv.Some? then prevKv else None;
          SendWatchResponse(watcher, WatchResponse(revision, watcher.watchId, false, false, [PutEvent(kv, prev)]));
          SendsSnoc(ids, id);
          SeqAssociative(begun, Sends(ids), Send(id));
          ids := ids + [id];
        }
      }
      PartlyAll(old(Watching()), n);
      thread.Give(WatchMutex);
      TookSection(old(thread.locks.trace), WatchMutex, Sends(ids));
      assert thread.locks.trace == old(thread.locks.trace) + Notify(ids);
    }

    method NotifyDelete(key: Bytes, kv: KeyValue, revision: int)
      requires Consistent(Watching()) && Ascends(thread.locks.held, WatchMutex)
      modifies this`sent, thread
      ensures thread.locks.held == old(thread.locks.held)
      ensures NotifySteps(old(thread.locks.trace), thread.locks.trace)
      ensures Watching() == NotifyAll(old(Watching()), [DeleteNotice(key, kv, revision)])
    {
      hide Less, Lawful, HeldAfter, Partly;
      ghost var n := DeleteNotice(key, kv, revision);
      thread.Take(WatchMutex);
      PartlyNone(sent, watchers, n);
      ghost var ids: seq<int> := [];
      assert thread.locks.trace == thread.locks.trace + Sends(ids);
      ghost var begun := thread.locks.trace;
      var rest := watchers.Keys;
      while rest != {}
        invariant rest <= watchers.Keys && thread.locks.held == old(thread.locks.held) + {WatchMutex}
        invariant watchers == old(watchers) && nextWatchId == old(nextWatchId)
        invariant thread.locks.trace == begun + Sends(ids)
        invariant sent == Partly(old(sent), watchers, watchers.Keys - rest, n)
      {
        NonEmpty(rest);
        var id :| id in rest;
        PartlyNext(old(Watching()), watchers.Keys - rest, n, id);
        assert watchers.Keys - (rest - {id}) == watchers.Keys - rest + {id};
        rest := rest - {id};
        var watcher := watchers[id];
        if watcher.active && KeyMatchesWatcher(key, watcher) {
          SendWatchResponse(watcher, WatchResponse(revision, watcher.watchId, false, false, [DeleteEvent(kv)]));
          SendsSnoc(ids, id);
          SeqAssociative(begun, Sends(ids), Send(id));
          ids := ids + [id];
        }
      }
      PartlyAll(old(Watching()), n);
      thread.Give(WatchMutex);
      TookSection(old(thread.locks.trace), WatchMutex, Sends(ids));
      assert thread.locks.trace == old(thread.locks.trace) + Notify(ids);
    }

    /** Sends the created response and, when asked to start from a revision, the current records in range;
        then enters the watcher in the table. */
    method RegisterWatcher(req: WatchRequest, store: KVStore?) returns (watchId: int)
      requires Consistent(Watching()) && thread.locks.held == {}
      requires store != null ==> store.thread == thread && KeyedByItself(store.data)
      modifies this, thread
      ensures Consistent(Watching()) && thread.locks.held == {}
      ensures Performs(old(thread.locks.trace), thread.locks.trace)
      ensures watchId == old(nextWatchId) && nextWatchId == watchId + 1
      ensures watchers == old(watchers)[watchId := NewWatcher(watchId, req)]
      ensures store != null ==>
                sent == old(sent)[watchId := Opening(NewWatcher(watchId, req), store.State())]
      ensures store == null ==>
                sent == old(sent)[watchId := [WatchResponse(0, watchId, true, false, [])]]
    {
      hide Section, Listed, OpenedSteps, Performs, ProgramOf, Lawful, HeldAfter;
      hide KeyedByItself, Snapshot;
      watchId := nextWatchId;
      nextWatchId := nextWatchId + 1;
      var watcher := NewWatcher(watchId, req);
      sent := sent[watchId := []];
      SendOpening(watcher, store);
      ghost var sentTo := thread.locks.trace;
      thread.Take(WatchMutex);
      watchers := watchers[watchId := watcher];
      thread.Give(WatchMutex);
      TookLeaf(sentTo, WatchMutex);
      RegisterPerforms(old(thread.locks.trace), sentTo, watchId, watcher.startRevision > 0 && store != null);
    }

    method SendOpening(watcher: Watcher, store: KVStore?)
      requires watcher.watchId in sent && sent[watcher.watchId] == [] && thread.locks.held == {}
      requires store != null ==> store.thread == thread && KeyedByItself(store.data)
      modifies this`sent, thread
      ensures thread.locks.held == {}
      ensures OpenedSteps(old(thread.locks.trace), thread.locks.trace, watcher.watchId,
                          watcher.startRevision > 0 && store != null)
      ensures sent == old(sent)[watcher.watchId :=
                if store != null then Opening(watcher, store.State())
                else [WatchResponse(0, watcher.watchId, true, false, [])]]
    {
      hide Section, Listed, OpenedSteps, Send, SnapshotSends, Lawful, HeldAfter;
      hide KeyedByItself, Snapshot;
      var current := 0;
      if store != null {
        current := store.CurrentRevision();
      }
      var created := WatchResponse(current, watcher.watchId, true, false, []);
      SendWatchResponse(watcher, created);
      assert [] + [created] == [created] + [] == [created];
      if watcher.startRevision > 0 && store != null {
        SendHistoricalEvents(watcher, store);
        OpenedWith(old(thread.locks.trace), thread.locks.trace, watcher.watchId);
      } else {
        OpenedWithout(old(thread.locks.trace), watcher.watchId);
      }
    }

    /** Sends the current records in the watcher's range as PUT events, oldest key first. */
    method SendHistoricalEvents(watcher: Watcher, store: KVStore)
      requires watcher.watchId in sent && thread.locks.held == {}
      requires store.thread == thread && KeyedByItself(store.data)
      modifies this`sent, thread
      ensures thread.locks.held == {}
      ensures Listed(old(thread.locks.trace), thread.locks.trace, watcher.watchId)
      ensures sent == old(sent)[watcher.watchId := old(sent)[watcher.watchId] + Snapshot(watcher, store.data)]
    {
      var kvs := store.Range(watcher.key, watcher.rangeEnd, 0, false, false);
      SendSnapshot(watcher, kvs);
      ListedBy(old(thread.locks.trace), thread.locks.trace, watcher.watchId, |kvs|);
    }

    method SendSnapshot(watcher: Watcher, kvs: seq<KeyValue>)
      requires watcher.watchId in sent && thread.locks.held == {}
      modifies this`sent, thread
      ensures thread.locks.held == {}
      ensures thread.locks.trace == old(thread.locks.trace) + SnapshotSends(watcher.watchId, |kvs|)
      ensures sent == old(sent)[watcher.watchId := old(sent)[watcher.watchId] + SnapshotResponses(watcher, kvs)]
    {
      ghost var responses := SnapshotResponses(watcher, kvs);
      ghost var before := sent[watcher.watchId];
      assert before + responses[..0] == before;
      ghost var ids := seq(|kvs|, _ => watcher.watchId);
      assert ids[..0] == [] && thread.locks.trace == thread.locks.trace + Sends(ids[..0]);
      for i := 0 to |kvs|
        invariant thread.locks.held == {}
        invariant thread.locks.trace == old(thread.locks.trace) + Sends(ids[..i])
        invariant sent == old(sent)[watcher.watchId := before + responses[..i]]
      {
        var response := WatchResponse(kvs[i].modRevision, watcher.watchId, false, false, [PutEvent(kvs[i], None)]);
        SendWatchResponse(watcher, response);
        assert responses[..i + 1] == responses[..i] + [response];
        SendsSnoc(ids[..i], watcher.watchId);
        assert ids[..i + 1] == ids[..i] + [watcher.watchId];
        SeqAssociative(old(thread.locks.trace), Sends(ids[..i]), Send(watcher.watchId));
        SeqAssociative(before, responses[..i], [response]);
      }
      assert responses[..|kvs|] == responses;
      assert ids[..|kvs|] == ids;
    }

    method CancelWatcher(watchId: int) returns (status: Status)
      requires Consistent(Watching()) && thread.locks.held == {}
      modifies this, thread
      ensures Consistent(Watching()) && thread.locks.held == {} && nextWatchId == old(nextWatchId)
      ensures thread.locks.trace == old(thread.locks.trace) + ProgramOf(Call.Cancel(watchId, status == Ok))
      ensures status == (if watchId in old(watchers) then Ok else NotFound)
      ensures status == Ok ==>
                && watchers == old(watchers) - {watchId}
                && sent == old(sent)[watchId := old(sent)[watchId] + [Canceled(watchId)]]
      ensures status == NotFound ==> Watching() == old(Watching())
    {
      hide Section, Send, ProgramOf, Lawful, HeldAfter;
      thread.Take(WatchMutex);
      status := NotFound;
      if watchId in watchers {
        SendWatchResponse(watchers[watchId], Canceled(watchId));
        watchers := watchers - {watchId};
        status := Ok;
      }
      thread.Give(WatchMutex);
      ghost var taken := old(thread.locks.trace) + [Acquire(WatchMutex)];
      assert status == NotFound ==> taken + [] == taken;
      CancelSteps(old(thread.locks.trace), watchId, status == Ok);
    }

    predicate KeyMatchesWatcher(key: Bytes, watcher: Watcher)
    {
      if Less(key, watcher.key) then false
      else if watcher.rangeEnd == [] then key == watcher.key
      else if watcher.rangeEnd[0] == 0 then !Less(key, watcher.key)
      else Less(key, watcher.rangeEnd)
    }

  }
}
