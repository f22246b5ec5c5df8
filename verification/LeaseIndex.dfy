/** Revocation and the expiry sweep as runs of Delete and DropLease, what they amount to, and how long
    a lease lives. */
module LeaseIndex {
  import opened Bytes
  import opened Engine
  import opened History
  import opened Ranges
  import opened Interleaving
  import opened Linearization

  /** The callbacks of a revocation: one silent Delete of a single key after another. */
  function Deletes(order: seq<Bytes>): seq<Op>
  {
    seq(|order|, i requires 0 <= i < |order| => Delete(order[i], [], false, []))
  }

  function RevokeScript(id: int, order: seq<Bytes>): seq<Op>
  {
    Deletes(order) + [DropLease(id)]
  }

  function DoomedKeys(s: State, ids: set<int>): set<Bytes>
  {
    set id, k | id in ids && id in s.leases && k in s.leases[id].keys :: k
  }

  /** The leases `ids` gone, and with them their keys, one revision for each. */
  function Expire(s: State, ids: set<int>): State
  {
    var doomed := DoomedKeys(s, ids);
    s.(data := s.data - doomed, revision := s.revision + |doomed|, leases := s.leases - ids)
  }

  // ----- Revoke -----

  lemma RemovePresent(s: State, keys: set<Bytes>)
    ensures Remove(s, keys * s.data.Keys) == Remove(s, keys)
  {
    var t, u := Remove(s, keys * s.data.Keys), Remove(s, keys);
    assert t.data == u.data;
    forall id | id in s.leases
      ensures t.leases[id].keys == u.leases[id].keys
    {
    }
    assert t.leases == u.leases;
  }

  lemma SingleKeyRange(data: Data, key: Bytes)
    ensures InRangeKeys(data, key, []) == {key} * data.Keys
  {
    LessIrreflexive(key);
  }

  lemma {:induction false} RunDeletes(s: State, order: seq<Bytes>)
    ensures Run(s, Deletes(order)) == Remove(s, set k | k in order).(revision := s.revision + |order|)
  {
    hide KeyInRange;
    if order == [] {
      RemoveNothing(s);
      assert (set k | k in order) == {};
    } else {
      var n := |order| - 1;
      var init := order[..n];
      RunDeletes(s, init);
      assert Deletes(order)[..|Deletes(order)| - 1] == Deletes(init);
      var t := Run(s, Deletes(init));
      var k := order[n];
      SingleKeyRange(t.data, k);
      RemovePresent(t, {k});
      RemoveUnion(s, set x | x in init, {k});
      assert order == init + [k];
      assert (set x | x in order) == (set x | x in init) + {k};
      assert Step(t, Delete(k, [], false, [])) == Remove(t, {k}).(revision := t.revision + 1);
    }
  }

  /** Whatever order the key set is walked in, and although each callback shrinks that very set, an
      undisturbed revocation removes exactly the lease and its keys. */
  lemma RevokeIsExpire(s: State, id: int, order: seq<Bytes>)
    requires Indexed(false, s) && id in s.leases
    requires Enumerates(order, s.leases[id].keys)
    ensures Run(s, RevokeScript(id, order)) == Expire(s, {id})
  {
    hide Indexed;
    IndexedMeans(false, s);
    var keys := s.leases[id].keys;
    var script := RevokeScript(id, order);
    assert script[..|script| - 1] == Deletes(order);
    RunDeletes(s, order);
    DistinctLength(order, keys);
    assert (set k | k in order) == keys == DoomedKeys(s, {id});
    var r := Remove(s, keys);
    forall other | other in s.leases && other != id
      ensures r.leases[other] == s.leases[other]
    {
      assert r.leases[other].keys == s.leases[other].keys;
    }
    assert r.leases - {id} == s.leases - {id};
  }

  /** With an exact index: the records that named the lease are gone, every other record and every other
      lease is as it was, and the revision grew by the number of records removed. */
  lemma RevokeRemovesItsRecords(s: State, id: int)
    requires Indexed(true, s) && id in s.leases
    ensures var t := Expire(s, {id});
            && t.data == (map k | k in s.data && s.data[k].kv.lease != id :: s.data[k])
            && t.leases == s.leases - {id}
            && t.revision - s.revision == |s.data| - |t.data|
  {
    IndexedMeans(true, s);
    ExpireRemovesItsRecords(s, {id});
  }

  /** In a sound index a key is held by at most the one lease its record names. */
  predicate Doomed(s: State, ids: set<int>, key: Bytes)
  {
    && key in s.data
    && var id := s.data[key].kv.lease;
       id in ids && id in s.leases && key in s.leases[id].keys
  }

  lemma DoomedByRecord(s: State, ids: set<int>, key: Bytes)
    requires Sound(s)
    ensures key in DoomedKeys(s, ids) <==> Doomed(s, ids, key)
  {
  }

  lemma KeptData(data: Data, gone: set<Bytes>, ids: set<int>)
    requires forall k :: k in gone <==> k in data && data[k].kv.lease in ids
    ensures data - gone == map k | k in data && data[k].kv.lease !in ids :: data[k]
    ensures |data| - |data - gone| == |gone|
  {
    SplitSize(data, data - gone, gone);
  }

  lemma ExpireRemovesItsRecords(s: State, ids: set<int>)
    requires Sound(s) && Exact(s) && ids <= s.leases.Keys
    ensures var t := Expire(s, ids);
            && t.data == (map k | k in s.data && s.data[k].kv.lease !in ids :: s.data[k])
            && t.leases == s.leases - ids
            && t.revision - s.revision == |s.data| - |t.data|
  {
    var doomed := DoomedKeys(s, ids);
    forall k
      ensures k in doomed <==> k in s.data && s.data[k].kv.lease in ids
    {
      DoomedByRecord(s, ids, k);
    }
    KeptData(s.data, doomed, ids);
  }

  /** A revoked id is never live again: Grant only issues ids never issued before. */
  lemma {:induction false} NeverReissued(s: State, ops: seq<Op>, id: int)
    requires id !in s.leases && id < s.nextLeaseId
    ensures id !in Run(s, ops).leases && id < Run(s, ops).nextLeaseId
  {
    hide LeaseOf, NewInfo;
    if ops != [] {
      var init, last := ops[..|ops| - 1], ops[|ops| - 1];
      NeverReissued(s, init, id);
      if last.Txn? {
        var t := Run(s, init);
        ApplyOpsFrame(Bumped(t), t.revision + 1, AsOps(t, last));
      }
    }
  }

  // ----- The expiry sweep -----

  function Expired(s: State, now: int): set<int>
  {
    set id | id in s.leases && now >= s.leases[id].expireTime
  }

  function SweepScript(ids: seq<int>, orders: seq<seq<Bytes>>): seq<Op>
    requires |orders| == |ids|
  {
    if ids == [] then []
    else
      var n := |ids| - 1;
      SweepScript(ids[..n], orders[..n]) + RevokeScript(ids[n], orders[n])
  }

  lemma SoundIsIndexed(s: State)
    ensures Indexed(false, s)
            <==> 1 <= s.nextLeaseId && (forall id | id in s.leases :: 0 < id < s.nextLeaseId) && Sound(s)
  {
    if Indexed(false, s) {
      IndexedMeans(false, s);
    }
  }

  lemma ExpireSound(s: State, ids: set<int>)
    requires Sound(s)
    ensures Sound(Expire(s, ids))
  {
    var t := Expire(s, ids);
    forall id, k | id in t.leases && k in t.leases[id].keys
      ensures k in t.data && t.data[k].kv.lease == id
    {
      assert id in s.leases && s.data[k].kv.lease == id;
      DoomedByRecord(s, ids, k);
    }
  }

  lemma ExpireIndexed(s: State, ids: set<int>)
    requires Indexed(false, s)
    ensures Indexed(false, Expire(s, ids))
  {
    SoundIsIndexed(s);
    ExpireSound(s, ids);
    SoundIsIndexed(Expire(s, ids));
  }

  lemma DoomedUnion(s: State, first: set<int>, second: set<int>)
    requires Sound(s) && first !! second
    ensures DoomedKeys(s, first + second) == DoomedKeys(s, first) + DoomedKeys(Expire(s, first), second)
    ensures DoomedKeys(s, first) !! DoomedKeys(Expire(s, first), second)
  {
    hide DoomedKeys, Sound;
    var t := Expire(s, first);
    ExpireSound(s, first);
    forall k
      ensures k in DoomedKeys(s, first + second) <==> k in DoomedKeys(s, first) || k in DoomedKeys(t, second)
      ensures !(k in DoomedKeys(s, first) && k in DoomedKeys(t, second))
    {
      DoomedByRecord(s, first, k);
      DoomedByRecord(s, first + second, k);
      DoomedByRecord(t, second, k);
    }
  }

  lemma ExpireTwice(s: State, first: set<int>, second: set<int>)
    requires Sound(s) && first !! second
    ensures Expire(Expire(s, first), second) == Expire(s, first + second)
  {
    hide DoomedKeys, Sound;
    var t := Expire(s, first);
    var d1, d2 := DoomedKeys(s, first), DoomedKeys(t, second);
    DoomedUnion(s, first, second);
    assert |d1 + d2| == |d1| + |d2|;
    assert s.data - d1 - d2 == s.data - (d1 + d2);
    assert s.leases - first - second == s.leases - (first + second);
  }

  lemma ExpireNothing(s: State)
    ensures Expire(s, {}) == s
  {
    assert DoomedKeys(s, {}) == {};
    assert s.data - {} == s.data && s.leases - {} == s.leases;
  }

  /** `orders[i]` is the key set of lease `ids[i]` as it is when its turn comes. */
  ghost predicate Swept(s: State, ids: seq<int>, orders: seq<seq<Bytes>>)
  {
    && |orders| == |ids|
    && (ids == [] ||
        var n := |ids| - 1;
        var t := Run(s, SweepScript(ids[..n], orders[..n]));
        && Swept(s, ids[..n], orders[..n])
        && ids[n] in t.leases && Enumerates(orders[n], t.leases[ids[n]].keys))
  }

  /** Revoking lease after lease, in whatever order leases and keys come, expires them all at once. */
  lemma {:induction false} SweepIsExpire(s: State, ids: seq<int>, orders: seq<seq<Bytes>>)
    requires Indexed(false, s) && Swept(s, ids, orders)
    ensures Run(s, SweepScript(ids, orders)) == Expire(s, set id | id in ids)
  {
    hide Step, Indexed, RevokeScript, DoomedKeys;
    if ids == [] {
      ExpireNothing(s);
      assert (set id | id in ids) == {};
    } else {
      var n := |ids| - 1;
      var done := set x | x in ids[..n];
      var id := ids[n];
      SweepIsExpire(s, ids[..n], orders[..n]);
      RunAppend(s, SweepScript(ids[..n], orders[..n]), RevokeScript(id, orders[n]));
      var t := Expire(s, done);
      assert id in t.leases && id !in done;
      ExpireIndexed(s, done);
      RevokeIsExpire(t, id, orders[n]);
      IndexedMeans(false, s);
      ExpireTwice(s, done, {id});
      assert ids == ids[..n] + [id];
      assert (set x | x in ids) == done + {id};
    }
  }

  /** An undisturbed sweep at `now`, with an exact index: no lease is left that has run out, the store
      has lost exactly the records naming one that had, every other lease keeps its expiry and key set,
      and the revision grew by the number of records removed. */
  lemma SweepRemovesTheExpired(s: State, now: int)
    requires Indexed(true, s)
    ensures var t := Expire(s, Expired(s, now));
            && (forall id | id in t.leases :: t.leases[id].expireTime > now)
            && (forall id :: id in t.leases <==> id in s.leases && now < s.leases[id].expireTime)
            && (forall id | id in t.leases :: t.leases[id] == s.leases[id])
            && t.data == (map k | k in s.data && s.data[k].kv.lease !in Expired(s, now) :: s.data[k])
            && t.revision - s.revision == |s.data| - |t.data|
  {
    IndexedMeans(true, s);
    ExpireRemovesItsRecords(s, Expired(s, now));
  }

  // ----- How long a lease lives -----

  /** What a client or the expiry thread asks for, each done as a whole. A sweep that others interrupt is
      a List of what has expired, and later a Take of each lease on that list. */
  datatype Call = Do(op: Op) | Revoke(id: int) | Sweep(now: int) | List(now: int) | Take(listing: nat, id: int)

  function CallStep(s: State, c: Call): State
  {
    match c
    case Do(op) => Step(s, op)
    case Revoke(id) => Expire(s, {id})
    case Sweep(now) => Expire(s, Expired(s, now))
    case List(_) => s
    case Take(_, id) => Expire(s, {id})
  }

  function RunCalls(s: State, calls: seq<Call>): State
  {
    if calls == [] then s else CallStep(RunCalls(s, calls[..|calls| - 1]), calls[|calls| - 1])
  }

  lemma {:induction false} CallsKeepIndex(s: State, calls: seq<Call>)
    requires Indexed(false, s)
    ensures Indexed(false, RunCalls(s, calls))
  {
    if calls != [] {
      var init, last := calls[..|calls| - 1], calls[|calls| - 1];
      CallsKeepIndex(s, init);
      var t := RunCalls(s, init);
      match last
      case Do(op) => StepKeepsIndex(false, t, op);
      case Revoke(id) => ExpireIndexed(t, {id});
      case Sweep(now) => ExpireIndexed(t, Expired(t, now));
      case List(_) =>
      case Take(_, id) => ExpireIndexed(t, {id});
    }
  }

  /** The ttl of the Grant that issued the id. */
  function GrantedTtl(ops: seq<Op>, id: int): Option<int>
  {
    if ops == [] then None
    else
      var init, last := ops[..|ops| - 1], ops[|ops| - 1];
      if last.Grant? && Run(INIT, init).nextLeaseId == id then Some(last.ttl) else GrantedTtl(init, id)
  }

  lemma StepKeepsTtl(s: State, op: Op, id: int)
    requires id in Step(s, op).leases && !(op.Grant? && s.nextLeaseId == id)
    ensures id in s.leases && Step(s, op).leases[id].ttl == s.leases[id].ttl
    ensures Step(s, op).leases[id].leaseId == s.leases[id].leaseId
  {
    if op.Txn? {
      OpsKeepTimes(Bumped(s), s.revision + 1, AsOps(s, op));
    }
  }

  /** In every run a live lease carries its own id and the ttl it was granted. */
  lemma {:induction false} TtlIsGranted(ops: seq<Op>, id: int)
    requires id in Run(INIT, ops).leases
    ensures Run(INIT, ops).leases[id].leaseId == id
    ensures GrantedTtl(ops, id) == Some(Run(INIT, ops).leases[id].ttl)
  {
    var init, last := ops[..|ops| - 1], ops[|ops| - 1];
    if !(last.Grant? && Run(INIT, init).nextLeaseId == id) {
      StepKeepsTtl(Run(INIT, init), last, id);
      TtlIsGranted(init, id);
    }
  }

  /** The ttl a lease was granted and the time of the Grant or KeepAlive that last set its expiry. */
  datatype Renewal = Renewal(ttl: int, time: int)

  function LastRenewal(s: State, calls: seq<Call>, id: int): Option<Renewal>
  {
    if calls == [] then None
    else
      var init, last := calls[..|calls| - 1], calls[|calls| - 1];
      var earlier := LastRenewal(s, init, id);
      if last.Do? && last.op.Grant? && RunCalls(s, init).nextLeaseId == id
      then Some(Renewal(last.op.ttl, last.op.now))
      else if last.Do? && last.op.KeepAlive? && last.op.id == id && earlier.Some?
      then Some(Renewal(earlier.value.ttl, last.op.now))
      else earlier
  }

  lemma CallLeases(s: State, c: Call, id: int)
    requires Indexed(false, s) && id in CallStep(s, c).leases
    ensures if c.Do? && c.op.Grant? && id == s.nextLeaseId
            then CallStep(s, c).leases[id] == LeaseInfo(id, c.op.ttl, c.op.now + c.op.ttl, {})
            else
              && id in s.leases
              && CallStep(s, c).leases[id].ttl == s.leases[id].ttl
              && CallStep(s, c).leases[id].expireTime ==
                 if c.Do? && c.op.KeepAlive? && c.op.id == id
                 then c.op.now + s.leases[id].ttl else s.leases[id].expireTime
  {
    if c.Do? && c.op.Txn? {
      OpsKeepTimes(Bumped(s), s.revision + 1, AsOps(s, c.op));
    }
  }

  lemma {:induction false} OpsKeepTimes(s: State, revision: int, ops: seq<RequestOp>)
    ensures var t := ApplyOps(s, revision, ops);
            && t.leases.Keys == s.leases.Keys
            && forall id | id in t.leases ::
                 && t.leases[id].ttl == s.leases[id].ttl && t.leases[id].expireTime == s.leases[id].expireTime
                 && t.leases[id].leaseId == s.leases[id].leaseId
  {
    if ops != [] {
      OpsKeepTimes(s, revision, ops[..|ops| - 1]);
    }
  }

  /** In every run, a live lease expires at the time of its last Grant or KeepAlive plus the ttl it was
      granted; so a sweep takes it exactly when it comes no earlier than that. */
  lemma {:induction false} ExpiryIsLastRenewalPlusTtl(calls: seq<Call>, id: int)
    requires id in RunCalls(INIT, calls).leases
    ensures LastRenewal(INIT, calls, id).Some?
    ensures var r := LastRenewal(INIT, calls, id).value;
            && RunCalls(INIT, calls).leases[id].ttl == r.ttl
            && RunCalls(INIT, calls).leases[id].expireTime == r.time + r.ttl
            && forall now :: id !in CallStep(RunCalls(INIT, calls), Sweep(now)).leases <==> now >= r.time + r.ttl
  {
    if calls != [] {
      var init, last := calls[..|calls| - 1], calls[|calls| - 1];
      InitIndexed(false);
      CallsKeepIndex(INIT, init);
      var s := RunCalls(INIT, init);
      SoundIsIndexed(s);
      CallLeases(s, last, id);
      if id in s.leases {
        ExpiryIsLastRenewalPlusTtl(init, id);
      }
    }
  }

  /** Until when the lease lives if nothing more happens: what `calls` last renewed it to. */
  function Deadline(s: State, calls: seq<Call>, id: int): int
    requires id in s.leases
  {
    if calls == [] then s.leases[id].expireTime
    else
      var last := calls[|calls| - 1];
      if last.Do? && last.op.KeepAlive? && last.op.id == id
      then last.op.now + s.leases[id].ttl
      else Deadline(s, calls[..|calls| - 1], id)
  }

  /** Every lease an interrupted sweep takes was on the list it made. */
  ghost predicate TakesTheListed(s: State, calls: seq<Call>)
  {
    forall i | 0 <= i < |calls| && calls[i].Take? ::
      && calls[i].listing < i && calls[calls[i].listing].List?
      && calls[i].id in Expired(RunCalls(s, calls[..calls[i].listing]), calls[calls[i].listing].now)
  }

  /** Nobody revokes the lease, and every sweep, or the listing of one that is interrupted, comes before the
      deadline its last renewal set. */
  predicate KeptAlive(s: State, calls: seq<Call>, id: int)
    requires id in s.leases
  {
    forall i | 0 <= i < |calls| ::
      match calls[i]
      case Do(op) => op != DropLease(id)
      case Revoke(other) => other != id
      case Sweep(now) => now < Deadline(s, calls[..i], id)
      case List(now) => now < Deadline(s, calls[..i], id)
      case Take(_, _) => true
  }

  /** Some Put, Delete or Txn of `calls` writes or clears the key. */
  ghost predicate TouchedBy(s: State, calls: seq<Call>, key: Bytes)
  {
    exists i | 0 <= i < |calls| :: calls[i].Do? && Touched(Entries(RunCalls(s, calls[..i]), calls[i].op), key)
  }

  /** A lease renewed in time is never swept, although the sweep may be interrupted after it has listed
      what has expired, and its keys vanish only by explicit writes: the record of a key of the lease that no
      call writes or clears is still there, unchanged, whatever other leases are revoked or swept. */
  lemma {:induction false} RenewedLeaseSurvives(s: State, calls: seq<Call>, id: int, key: Bytes)
    requires Indexed(false, s) && id in s.leases && KeptAlive(s, calls, id) && TakesTheListed(s, calls)
    ensures id in RunCalls(s, calls).leases
    ensures RunCalls(s, calls).leases[id].ttl == s.leases[id].ttl
    ensures RunCalls(s, calls).leases[id].expireTime == Deadline(s, calls, id)
    ensures key in s.leases[id].keys && !TouchedBy(s, calls, key) ==>
              Lookup(RunCalls(s, calls).data, key) == Lookup(s.data, key)
    decreases |calls|
  {
    hide Indexed, CallStep, Step, TouchedBy, Touched, Entries, TakesTheListed;
    if calls != [] {
      var init, last := calls[..|calls| - 1], calls[|calls| - 1];
      ShorterRun(s, calls, |calls| - 1, id);
      RenewedLeaseSurvives(s, init, id, key);
      CallsKeepIndex(s, init);
      var t := RunCalls(s, init);
      if last.Take? {
        NotListed(s, calls, id, key);
      }
      SurvivesOne(t, last, id, key);
      SoundIsIndexed(t);
      CallLeases(t, last, id);
      if key in s.leases[id].keys && !TouchedBy(s, calls, key) {
        SoundIsIndexed(s);
        TouchedByShorter(s, calls, key);
      }
    }
  }

  lemma TouchedByShorter(s: State, calls: seq<Call>, key: Bytes)
    requires calls != [] && !TouchedBy(s, calls, key)
    ensures var init, last := calls[..|calls| - 1], calls[|calls| - 1];
            !TouchedBy(s, init, key) && (last.Do? ==> !Touched(Entries(RunCalls(s, init), last.op), key))
  {
    hide RunCalls, Touched, Entries;
    var init := calls[..|calls| - 1];
    assert forall i | 0 <= i < |init| :: calls[..i] == init[..i] && calls[i] == init[i];
  }

  lemma ShorterRun(s: State, calls: seq<Call>, n: nat, id: int)
    requires n <= |calls| && id in s.leases && KeptAlive(s, calls, id) && TakesTheListed(s, calls)
    ensures KeptAlive(s, calls[..n], id) && TakesTheListed(s, calls[..n])
  {
    assert forall i | 0 <= i < n :: calls[..n][..i] == calls[..i] && calls[..n][i] == calls[i];
  }

  /** A lease that was live with time to spare when the list was made is not on it. */
  lemma {:induction false} NotListed(s: State, calls: seq<Call>, id: int, key: Bytes)
    requires Indexed(false, s) && id in s.leases && KeptAlive(s, calls, id) && TakesTheListed(s, calls)
    requires calls != [] && calls[|calls| - 1].Take?
    ensures calls[|calls| - 1].id != id
    decreases |calls|, 0
  {
    hide Indexed, RunCalls;
    var j := calls[|calls| - 1].listing;
    ShorterRun(s, calls, j, id);
    RenewedLeaseSurvives(s, calls[..j], id, key);
  }

  lemma SurvivesOne(t: State, c: Call, id: int, key: Bytes)
    requires Indexed(false, t) && id in t.leases
    requires match c
             case Do(op) => op != DropLease(id)
             case Revoke(other) => other != id
             case Sweep(now) => now < t.leases[id].expireTime
             case List(_) => true
             case Take(_, other) => other != id
    ensures id in CallStep(t, c).leases
    ensures LeaseOf(t.data, key) == id && (c.Do? ==> !Touched(Entries(t, c.op), key)) ==>
              Lookup(CallStep(t, c).data, key) == Lookup(t.data, key)
  {
    hide Indexed, ApplyOps, OpsEntries;
    SoundIsIndexed(t);
    match c
    case Do(op) =>
      MarkRun(t, [op], key);
      assert [op][..0] == [] && Run(t, [op]) == Step(t, op);
      assert Log(t, [op]) == Entries(t, op);
      if op.Txn? {
        ApplyOpsFrame(Bumped(t), t.revision + 1, AsOps(t, op));
      }
    case Revoke(other) =>
    case Sweep(now) =>
    case List(_) =>
    case Take(_, other) =>
  }

  // ----- Where the index stops being exact -----

  predicate OnlyGrants(ops: seq<Op>)
  {
    forall op | op in ops :: op.Grant?
  }

  ghost predicate ExactUnderGrants(s: State)
  {
    forall ops | OnlyGrants(ops) :: Exact(Run(s, ops))
  }

  lemma {:induction false} GrantsNameNothing(s: State, ops: seq<Op>)
    requires OnlyGrants(ops)
    ensures RunNamesGranted(s, ops)
  {
    if ops != [] {
      assert ops[|ops| - 1] in ops;
      assert forall op | op in ops[..|ops| - 1] :: op in ops;
      GrantsNameNothing(s, ops[..|ops| - 1]);
    }
  }

  function Grants(n: nat): seq<Op>
  {
    seq(n, _ => Grant(1, 0))
  }

  lemma {:induction false} GrantsReach(s: State, n: nat)
    ensures Run(s, Grants(n)).data == s.data && Run(s, Grants(n)).nextLeaseId == s.nextLeaseId + n
    ensures forall id | s.nextLeaseId <= id < s.nextLeaseId + n ::
              id in Run(s, Grants(n)).leases && Run(s, Grants(n)).leases[id].keys == {}
  {
    if n > 0 {
      assert Grants(n)[..n - 1] == Grants(n - 1);
      GrantsReach(s, n - 1);
    }
  }

  lemma KeysAfterOp(s: State, revision: int, op: RequestOp, id: int, key: Bytes)
    requires 0 < id && id in s.leases
    requires key in s.leases[id].keys ==> LeaseOf(s.data, key) == id
    ensures var t, entries := ApplyOp(s, revision, op), OpEntries(revision, op);
            && id in t.leases
            && (key in t.leases[id].keys
                <==> if Touched(entries, key) then LeaseOf(t.data, key) == id else key in s.leases[id].keys)
            && (!Touched(entries, key) ==> LeaseOf(t.data, key) == LeaseOf(s.data, key))
  {
    var entries := OpEntries(revision, op);
    assert Touched(entries, key) <==> entries != [] && Touches(entries[0], key);
  }

  lemma {:induction false} KeysAfterOps(s: State, revision: int, ops: seq<RequestOp>, id: int, key: Bytes)
    requires 0 < id && id in s.leases
    requires key in s.leases[id].keys ==> LeaseOf(s.data, key) == id
    ensures var t := ApplyOps(s, revision, ops);
            && id in t.leases
            && (key in t.leases[id].keys
                <==> if Touched(OpsEntries(revision, ops), key) then LeaseOf(t.data, key) == id
                     else key in s.leases[id].keys)
            && (!Touched(OpsEntries(revision, ops), key) ==> LeaseOf(t.data, key) == LeaseOf(s.data, key))
  {
    if ops != [] {
      var init, last := ops[..|ops| - 1], ops[|ops| - 1];
      hide ApplyOp, OpEntries, Touched;
      KeysAfterOps(s, revision, init, id, key);
      TouchedAppend(OpsEntries(revision, init), OpEntries(revision, last), key);
      KeysAfterOp(ApplyOps(s, revision, init), revision, last, id, key);
    }
  }

  /** Whatever a call writes, the key sets of the leases that exist stay exact. */
  lemma LiveStayExact(s: State, op: Op)
    requires Indexed(true, s) && (op.Put? || op.Delete? || op.Txn?)
    ensures Exact(Step(s, op))
    ensures Step(s, op).leases.Keys == s.leases.Keys && Step(s, op).nextLeaseId == s.nextLeaseId
  {
    hide Indexed, ApplyOps;
    IndexedMeans(true, s);
    StepAsOps(s, op);
    var r, ops := s.revision + 1, AsOps(s, op);
    var t := Step(s, op);
    ApplyOpsFrame(Bumped(s), r, ops);
    forall id | id in t.leases
      ensures t.leases[id].keys == set k | k in t.data && t.data[k].kv.lease == id
    {
      forall key
        ensures key in t.leases[id].keys <==> key in t.data && t.data[key].kv.lease == id
      {
        KeysAfterOps(Bumped(s), r, ops, id, key);
      }
    }
  }

  /** No record names a lease that is yet to be granted. */
  predicate NamesOnlyGranted(s: State)
  {
    forall k | k in s.data :: s.data[k].kv.lease < s.nextLeaseId
  }

  lemma ExactIsIndexed(s: State)
    requires 1 <= s.nextLeaseId && (forall id | id in s.leases :: 0 < id < s.nextLeaseId)
    requires Exact(s) && NamesOnlyGranted(s)
    ensures Indexed(true, s)
  {
  }

  lemma ExactUntilFutureGrants(t: State)
    requires 1 <= t.nextLeaseId && (forall id | id in t.leases :: 0 < id < t.nextLeaseId) && Exact(t) && Sound(t)
    ensures ExactUnderGrants(t) <==> NamesOnlyGranted(t)
  {
    hide Indexed;
    if NamesOnlyGranted(t) {
      ExactIsIndexed(t);
      forall ops | OnlyGrants(ops)
        ensures Exact(Run(t, ops))
      {
        GrantsNameNothing(t, ops);
        RunKeepsIndex(true, t, ops);
        IndexedMeans(true, Run(t, ops));
      }
    } else {
      var key :| key in t.data && t.data[key].kv.lease >= t.nextLeaseId;
      var lease := t.data[key].kv.lease;
      var n := lease - t.nextLeaseId + 1;
      var u := Run(t, Grants(n));
      GrantsReach(t, n);
      assert lease in u.leases && key !in u.leases[lease].keys && u.data[key].kv.lease == lease;
      assert !Exact(u);
      assert OnlyGrants(Grants(n));
    }
  }

  /** AttachKey's NOT_FOUND is ignored, so a call may leave a record naming a lease that does not exist.
      The index stays exact, now and after any further grants, if and only if no record it leaves names an
      id that Grant has yet to issue; what a Txn wrote in between and overwrote does not matter. */
  lemma CallKeepsIndexExactIffGranted(s: State, op: Op)
    requires Indexed(true, s) && (op.Put? || op.Delete? || op.Txn?)
    ensures ExactUnderGrants(Step(s, op)) <==> NamesOnlyGranted(Step(s, op))
  {
    hide Indexed, Step;
    IndexedMeans(true, s);
    LiveStayExact(s, op);
    StepKeepsSound(s, op);
    ExactUntilFutureGrants(Step(s, op));
  }

  lemma StepKeepsSound(s: State, op: Op)
    requires Indexed(true, s)
    ensures Sound(Step(s, op)) && Step(s, op).nextLeaseId >= 1
  {
    hide Step;
    IndexedMeans(true, s);
    SoundIsIndexed(s);
    StepKeepsIndex(false, s, op);
    SoundIsIndexed(Step(s, op));
  }

  /** For a Put that is a condition on the request: the lease id must not be one still to be issued. */
  lemma PutKeepsIndexExactIffGranted(s: State, key: Bytes, value: Bytes, lease: int)
    requires Indexed(true, s)
    ensures ExactUnderGrants(Step(s, Put(key, value, lease))) <==> lease < s.nextLeaseId
  {
    CallKeepsIndexExactIffGranted(s, Put(key, value, lease));
    var t := Step(s, Put(key, value, lease));
    forall k | k in s.data
      ensures s.data[k].kv.lease < s.nextLeaseId
    {
      NamesGrantedAlready(s, k);
    }
    assert key in t.data && t.data[key].kv.lease == lease;
  }

  lemma NamesGrantedAlready(s: State, key: Bytes)
    requires Indexed(true, s)
    ensures LeaseOf(s.data, key) < s.nextLeaseId
  {
    assert LeaseAfter(LeaseOf(s.data, key), [], key) < s.nextLeaseId;
  }

  // ----- The index as a function of the run -----

  /** The lease the record of the key names had been granted when the key was last written. */
  predicate GrantedWhenWritten(ops: seq<Op>, key: Bytes)
  {
    ops != [] &&
    var init, last := ops[..|ops| - 1], ops[|ops| - 1];
    var t := Run(INIT, init);
    if Touched(Entries(t, last), key) then LeaseOf(Run(INIT, ops).data, key) < t.nextLeaseId
    else GrantedWhenWritten(init, key)
  }

  ghost predicate IndexedByRun(ops: seq<Op>, id: int, key: Bytes)
  {
    var t := Run(INIT, ops);
    && (id in t.leases ==>
          && 0 < id < t.nextLeaseId
          && (key in t.leases[id].keys <==> LeaseOf(t.data, key) == id && GrantedWhenWritten(ops, key)))
    && (GrantedWhenWritten(ops, key) ==> LeaseOf(t.data, key) < t.nextLeaseId)
    && 1 <= t.nextLeaseId
  }

  lemma LeaseStepIndexed(init: seq<Op>, op: Op, id: int, key: Bytes)
    requires IndexedByRun(init, id, key) && (op.Grant? || op.KeepAlive? || op.DropLease?)
    ensures IndexedByRun(init + [op], id, key)
  {
    RunSnoc(INIT, init, op);
    assert (init + [op])[..|init|] == init;
  }

  lemma CallIndexed(init: seq<Op>, op: Op, id: int, key: Bytes)
    requires IndexedByRun(init, id, key) && (op.Put? || op.Delete? || op.Txn?)
    ensures IndexedByRun(init + [op], id, key)
  {
    hide Step, ApplyOps, OpsEntries, Touched, Entries;
    RunSnoc(INIT, init, op);
    assert (init + [op])[..|init|] == init;
    var t := Run(INIT, init);
    var r, ops := t.revision + 1, AsOps(t, op);
    StepAsOps(t, op);
    ApplyOpsFrame(Bumped(t), r, ops);
    UntouchedLease(t, op, key);
    if id in t.leases {
      KeysAfterOps(Bumped(t), r, ops, id, key);
    }
  }

  lemma UntouchedLease(s: State, op: Op, key: Bytes)
    ensures !Touched(Entries(s, op), key) ==> LeaseOf(Step(s, op).data, key) == LeaseOf(s.data, key)
  {
    hide Step, Touched, Entries;
    MarkRun(s, [op], key);
    assert [op][..0] == [] && Run(s, [op]) == Step(s, op);
    assert Log(s, [op]) == Entries(s, op);
  }

  /** In every run, whatever ids puts name: a key is in a live lease's key set if and only if its record names
      the lease and the lease had been granted when the key was last written. */
  lemma {:induction false} IndexIsItsRun(ops: seq<Op>, id: int, key: Bytes)
    ensures IndexedByRun(ops, id, key)
  {
    if ops != [] {
      var init, last := ops[..|ops| - 1], ops[|ops| - 1];
      IndexIsItsRun(init, id, key);
      assert ops == init + [last];
      if last.Put? || last.Delete? || last.Txn? {
        CallIndexed(init, last, id, key);
      } else {
        LeaseStepIndexed(init, last, id, key);
      }
    }
  }
}
