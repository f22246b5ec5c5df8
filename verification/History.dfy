/** The store as a function of the log of what was written and cleared. */
module History {
  import opened Bytes
  import opened Engine

  datatype Entry =
    | Wrote(key: Bytes, value: Bytes, lease: int, revision: int)
    | Cleared(start: Bytes, end: Bytes)

  predicate Touches(entry: Entry, key: Bytes)
  {
    match entry
    case Wrote(k, _, _, _) => k == key
    case Cleared(start, end) => KeyInRange(key, start, end)
  }

  predicate Touched(log: seq<Entry>, key: Bytes)
  {
    exists i :: 0 <= i < |log| && Touches(log[i], key)
  }

  function OpEntries(revision: int, op: RequestOp): seq<Entry>
  {
    match op
    case PutOp(key, value, lease, _) => [Wrote(key, value, lease, revision)]
    case DeleteOp(key, rangeEnd, _) => [Cleared(key, rangeEnd)]
    case RangeOp(_, _, _, _, _) => []
    case OtherOp => []
  }

  function OpsEntries(revision: int, ops: seq<RequestOp>): seq<Entry>
  {
    if ops == [] then []
    else OpsEntries(revision, ops[..|ops| - 1]) + OpEntries(revision, ops[|ops| - 1])
  }

  /** What one call adds to the log. */
  function Entries(s: State, op: Op): seq<Entry>
  {
    match op
    case Put(key, value, lease) => [Wrote(key, value, lease, s.revision + 1)]
    case Delete(start, end, _, _) => [Cleared(start, end)]
    case Txn(compares, success, failure) =>
      OpsEntries(s.revision + 1, Chosen(s.data, compares, success, failure))
    case Grant(_, _) => []
    case KeepAlive(_, _) => []
    case DropLease(_) => []
  }

  function Log(s: State, ops: seq<Op>): seq<Entry>
  {
    if ops == [] then []
    else Log(s, ops[..|ops| - 1]) + Entries(Run(s, ops[..|ops| - 1]), ops[|ops| - 1])
  }

  lemma {:induction false} LogAppend(s: State, first: seq<Op>, second: seq<Op>)
    ensures Log(s, first + second) == Log(s, first) + Log(Run(s, first), second)
  {
    hide Step, Entries;
    if second == [] {
      assert first + second == first;
    } else {
      var n := |second| - 1;
      assert (first + second)[..|first + second| - 1] == first + second[..n];
      LogAppend(s, first, second[..n]);
      RunAppend(s, first, second[..n]);
    }
  }

  /** The puts to a key since its last deletion, oldest first. */
  function LivePuts(log: seq<Entry>, key: Bytes): (puts: seq<Entry>)
    ensures forall p :: p in puts ==> p.Wrote? && p.key == key && p in log
  {
    if log == [] then []
    else
      var earlier := LivePuts(log[..|log| - 1], key);
      var last := log[|log| - 1];
      if !Touches(last, key) then earlier
      else if last.Wrote? then earlier + [last]
      else []
  }

  /** The record those puts leave: created by the first, everything else from the last. */
  function RecordOf(puts: seq<Entry>): KeyInfo
    requires puts != [] && forall p :: p in puts ==> p.Wrote?
  {
    var first, last := puts[0], puts[|puts| - 1];
    KeyInfo(KeyValue(last.key, last.value, last.lease, first.revision, last.revision, |puts|),
            first.revision, last.revision, |puts|)
  }

  ghost predicate DeterminesAt(log: seq<Entry>, data: Data, k: Bytes)
  {
    && (k in data <==> LivePuts(log, k) != [])
    && (k in data ==> data[k] == RecordOf(LivePuts(log, k)))
  }

  ghost predicate Determines(log: seq<Entry>, data: Data)
  {
    forall k :: DeterminesAt(log, data, k)
  }

  // ----- The store is determined by its log -----

  lemma LivePutsSnoc(log: seq<Entry>, e: Entry, key: Bytes)
    ensures LivePuts(log + [e], key) ==
            if !Touches(e, key) then LivePuts(log, key)
            else if e.Wrote? then LivePuts(log, key) + [e] else []
  {
    assert (log + [e])[..|log + [e]| - 1] == log;
  }

  lemma LogPutAt(data: Data, revision: int, key: Bytes, value: Bytes, lease: int, log: seq<Entry>, k: Bytes)
    requires DeterminesAt(log, data, k)
    ensures DeterminesAt(log + [Wrote(key, value, lease, revision)],
                         data[key := NewInfo(data, revision, key, value, lease)], k)
  {
    LivePutsSnoc(log, Wrote(key, value, lease, revision), k);
  }

  lemma LogClearAt(data: Data, start: Bytes, end: Bytes, log: seq<Entry>, k: Bytes)
    requires DeterminesAt(log, data, k)
    ensures DeterminesAt(log + [Cleared(start, end)], data - InRangeKeys(data, start, end), k)
  {
    hide KeyInRange;
    LivePutsSnoc(log, Cleared(start, end), k);
  }

  lemma LogOneOpAt(s: State, revision: int, op: RequestOp, log: seq<Entry>, k: Bytes)
    requires DeterminesAt(log, s.data, k)
    ensures DeterminesAt(log + OpEntries(revision, op), ApplyOp(s, revision, op).data, k)
  {
    hide DeterminesAt, NewInfo, InRangeKeys, AttachKey, DetachKey;
    match op
    case PutOp(key, value, lease, _) => LogPutAt(s.data, revision, key, value, lease, log, k);
    case DeleteOp(start, end, _) => LogClearAt(s.data, start, end, log, k);
    case _ => assert log + OpEntries(revision, op) == log;
  }

  lemma LogOneOp(s: State, revision: int, op: RequestOp, log: seq<Entry>)
    requires Determines(log, s.data)
    ensures Determines(log + OpEntries(revision, op), ApplyOp(s, revision, op).data)
  {
    hide LivePuts, ApplyOp, OpEntries, RecordOf;
    forall k
      ensures DeterminesAt(log + OpEntries(revision, op), ApplyOp(s, revision, op).data, k)
    {
      assert DeterminesAt(log, s.data, k);
      LogOneOpAt(s, revision, op, log, k);
    }
  }

  lemma {:induction false} LogOps(s: State, revision: int, ops: seq<RequestOp>, log: seq<Entry>)
    requires Determines(log, s.data)
    ensures Determines(log + OpsEntries(revision, ops), ApplyOps(s, revision, ops).data)
  {
    if ops == [] {
      assert log + OpsEntries(revision, ops) == log;
    } else {
      var init, last := ops[..|ops| - 1], ops[|ops| - 1];
      LogOps(s, revision, init, log);
      LogOneOp(ApplyOps(s, revision, init), revision, last, log + OpsEntries(revision, init));
      assert log + OpsEntries(revision, ops)
          == log + OpsEntries(revision, init) + OpEntries(revision, last);
    }
  }

  /** Put and Delete are the one-operation transactions. */
  function AsOps(s: State, op: Op): seq<RequestOp>
  {
    match op
    case Put(key, value, lease) => [PutOp(key, value, lease, false)]
    case Delete(start, end, collect, _) => [DeleteOp(start, end, collect)]
    case Txn(compares, success, failure) => Chosen(s.data, compares, success, failure)
    case _ => []
  }

  lemma StepAsOps(s: State, op: Op)
    requires op.Put? || op.Delete? || op.Txn?
    ensures Step(s, op) == ApplyOps(Bumped(s), s.revision + 1, AsOps(s, op))
    ensures Entries(s, op) == OpsEntries(s.revision + 1, AsOps(s, op))
  {
    if !op.Txn? {
      var ops := AsOps(s, op);
      assert ops[..|ops| - 1] == [];
    }
  }

  lemma LogStep(s: State, op: Op, log: seq<Entry>)
    requires Determines(log, s.data)
    ensures Determines(log + Entries(s, op), Step(s, op).data)
  {
    if op.Put? || op.Delete? || op.Txn? {
      StepAsOps(s, op);
      LogOps(Bumped(s), s.revision + 1, AsOps(s, op), log);
    } else {
      assert log + Entries(s, op) == log;
    }
  }

  /** In every reachable state a key is present exactly when it was put since it was last cleared; its
      version is the number of those puts, its create revision that of the first, and its value, lease
      and modification revision those of the last, in the KeyInfo and in the KeyValue alike. */
  lemma {:induction false} StoreIsItsLog(ops: seq<Op>)
    ensures Determines(Log(INIT, ops), Run(INIT, ops).data)
  {
    if ops != [] {
      var init, last := ops[..|ops| - 1], ops[|ops| - 1];
      StoreIsItsLog(init);
      LogStep(Run(INIT, init), last, Log(INIT, init));
    }
  }

  // ----- Revisions -----

  function Writes(ops: seq<Op>): nat
  {
    if ops == [] then 0
    else
      var last := ops[|ops| - 1];
      Writes(ops[..|ops| - 1]) + if last.Put? || last.Delete? || last.Txn? then 1 else 0
  }

  lemma {:induction false} ApplyOpsFrame(s: State, revision: int, ops: seq<RequestOp>)
    ensures ApplyOps(s, revision, ops).revision == s.revision
    ensures ApplyOps(s, revision, ops).nextLeaseId == s.nextLeaseId
    ensures ApplyOps(s, revision, ops).leases.Keys == s.leases.Keys
  {
    if ops != [] {
      ApplyOpsFrame(s, revision, ops[..|ops| - 1]);
    }
  }

  lemma StepRevision(s: State, op: Op)
    ensures Step(s, op).revision == s.revision + Writes([op])
  {
    assert [op][..0] == [];
    if op.Txn? {
      ApplyOpsFrame(Bumped(s), s.revision + 1, AsOps(s, op));
    }
  }

  /** The revision counts the completed Put, Delete and Txn calls, those Revoke makes included. */
  lemma {:induction false} RevisionCountsWrites(s: State, ops: seq<Op>)
    ensures Run(s, ops).revision == s.revision + Writes(ops)
  {
    if ops != [] {
      var init, last := ops[..|ops| - 1], ops[|ops| - 1];
      RevisionCountsWrites(s, init);
      StepRevision(Run(s, init), last);
      assert [last][..0] == [];
    }
  }

  /** The fields KeyInfo mirrors agree with its KeyValue, the map key is the record's own key, and the
      revisions are ordered. */
  predicate WellFormedRecord(key: Bytes, info: KeyInfo, revision: int)
  {
    && info.kv.key == key
    && info.createRevision == info.kv.createRevision
    && info.modRevision == info.kv.modRevision
    && info.version == info.kv.version
    && 1 <= info.version
    && 1 < info.createRevision <= info.modRevision <= revision
  }

  predicate WellFormed(s: State)
  {
    1 <= s.revision && forall k | k in s.data :: WellFormedRecord(k, s.data[k], s.revision)
  }

  lemma {:induction false} ApplyOpsWellFormed(s: State, revision: int, ops: seq<RequestOp>)
    requires WellFormed(s) && s.revision == revision > 1
    ensures WellFormed(ApplyOps(s, revision, ops))
  {
    if ops != [] {
      ApplyOpsWellFormed(s, revision, ops[..|ops| - 1]);
      ApplyOpsFrame(s, revision, ops[..|ops| - 1]);
    }
  }

  lemma StepWellFormed(s: State, op: Op)
    requires WellFormed(s)
    ensures WellFormed(Step(s, op))
  {
    if op.Txn? {
      ApplyOpsWellFormed(Bumped(s), s.revision + 1, AsOps(s, op));
    }
  }

  lemma {:induction false} RunWellFormed(s: State, ops: seq<Op>)
    requires WellFormed(s)
    ensures WellFormed(Run(s, ops))
  {
    if ops != [] {
      RunWellFormed(s, ops[..|ops| - 1]);
      StepWellFormed(Run(s, ops[..|ops| - 1]), ops[|ops| - 1]);
    }
  }

  // ----- No ABA -----

  /** A touched key is absent afterwards or carries a revision newer than `since`. */
  ghost predicate Marked(s: State, log: seq<Entry>, key: Bytes, since: int, before: Data)
  {
    if Touched(log, key)
    then key in s.data ==> s.data[key].modRevision > since
    else Lookup(s.data, key) == Lookup(before, key)
  }

  lemma TouchedAppend(first: seq<Entry>, second: seq<Entry>, key: Bytes)
    ensures Touched(first + second, key) <==> Touched(first, key) || Touched(second, key)
  {
    var both := first + second;
    if i :| 0 <= i < |first| && Touches(first[i], key) {
      assert Touches(both[i], key);
    }
    if i :| 0 <= i < |second| && Touches(second[i], key) {
      assert Touches(both[|first| + i], key);
    }
  }

  lemma {:induction false} MarkOps(
    s: State, revision: int, ops: seq<RequestOp>, log: seq<Entry>, key: Bytes, since: int, before: Data)
    requires Marked(s, log, key, since, before) && since < revision
    ensures Marked(ApplyOps(s, revision, ops), log + OpsEntries(revision, ops), key, since, before)
  {
    if ops == [] {
      assert log + OpsEntries(revision, ops) == log;
    } else {
      var init, last := ops[..|ops| - 1], ops[|ops| - 1];
      MarkOps(s, revision, init, log, key, since, before);
      var entries := OpEntries(revision, last);
      TouchedAppend(log + OpsEntries(revision, init), entries, key);
      assert log + OpsEntries(revision, ops) == log + OpsEntries(revision, init) + entries;
      assert entries != [] ==> (Touched(entries, key) <==> Touches(entries[0], key));
    }
  }

  lemma {:induction false} MarkRun(s: State, ops: seq<Op>, key: Bytes)
    ensures Marked(Run(s, ops), Log(s, ops), key, s.revision, s.data)
  {
    hide ApplyOps, OpsEntries, AsOps;
    if ops != [] {
      var init, last := ops[..|ops| - 1], ops[|ops| - 1];
      MarkRun(s, init, key);
      RevisionCountsWrites(s, init);
      var t := Run(s, init);
      if last.Put? || last.Delete? || last.Txn? {
        StepAsOps(t, last);
        MarkOps(Bumped(t), t.revision + 1, AsOps(t, last), Log(s, init), key, s.revision, s.data);
      } else {
        assert Log(s, ops) == Log(s, init);
      }
    }
  }

  /** A key's record (or its absence) is the same at both ends of a run if and only if nothing in
      between wrote or cleared it, or it is absent at both. */
  lemma SameRecordIffUntouched(s: State, ops: seq<Op>, key: Bytes)
    requires WellFormed(s)
    ensures Lookup(Run(s, ops).data, key) == Lookup(s.data, key)
            <==> !Touched(Log(s, ops), key) || (key !in s.data && key !in Run(s, ops).data)
  {
    MarkRun(s, ops, key);
  }

  /** No ABA: a present key with the same modification revision at both ends of a run was neither
      written nor cleared in between, and its whole record is the same. */
  lemma NoABA(before: seq<Op>, ops: seq<Op>, key: Bytes)
    requires key in Run(INIT, before).data && key in Run(INIT, before + ops).data
    requires Run(INIT, before).data[key].modRevision == Run(INIT, before + ops).data[key].modRevision
    ensures !Touched(Log(Run(INIT, before), ops), key)
    ensures Run(INIT, before).data[key] == Run(INIT, before + ops).data[key]
  {
    RunAppend(INIT, before, ops);
    RunWellFormed(INIT, before);
    MarkRun(Run(INIT, before), ops, key);
  }

  // ----- Version against revision distance -----

  predicate Ordered(log: seq<Entry>)
  {
    forall i, j :: 0 <= i < j < |log| && log[i].Wrote? && log[j].Wrote? ==> log[i].revision <= log[j].revision
  }

  predicate UpTo(log: seq<Entry>, revision: int)
  {
    forall i :: 0 <= i < |log| && log[i].Wrote? ==> log[i].revision <= revision
  }

  lemma {:induction false} OpsEntriesRevision(revision: int, ops: seq<RequestOp>)
    ensures forall e :: e in OpsEntries(revision, ops) && e.Wrote? ==> e.revision == revision
  {
    if ops != [] {
      OpsEntriesRevision(revision, ops[..|ops| - 1]);
    }
  }

  lemma NewEntriesAreNewer(s: State, op: Op)
    ensures forall e :: e in Entries(s, op) && e.Wrote? ==> e.revision == s.revision + 1
  {
    if op.Put? || op.Delete? || op.Txn? {
      StepAsOps(s, op);
      OpsEntriesRevision(s.revision + 1, AsOps(s, op));
    }
  }

  lemma {:induction false} LogOrdered(ops: seq<Op>)
    ensures Ordered(Log(INIT, ops)) && UpTo(Log(INIT, ops), Run(INIT, ops).revision)
  {
    if ops != [] {
      var init, last := ops[..|ops| - 1], ops[|ops| - 1];
      LogOrdered(init);
      var t := Run(INIT, init);
      StepRevision(t, last);
      assert [last][..0] == [];
      var entries := Entries(t, last);
      NewEntriesAreNewer(t, last);
      forall i | 0 <= i < |entries| && entries[i].Wrote?
        ensures entries[i].revision == t.revision + 1 == Run(INIT, ops).revision
      {
        assert entries[i] in entries;
      }
    }
  }

  lemma {:induction false} LivePutsOrdered(log: seq<Entry>, key: Bytes)
    requires Ordered(log)
    ensures Ordered(LivePuts(log, key))
  {
    if log != [] {
      LivePutsOrdered(log[..|log| - 1], key);
    }
  }

  /** How many of the puts share the revision of the one before them. */
  function Repeats(puts: seq<Entry>): nat
    requires forall p :: p in puts ==> p.Wrote?
  {
    if |puts| <= 1 then 0
    else
      var n := |puts|;
      Repeats(puts[..n - 1]) + if puts[n - 1].revision == puts[n - 2].revision then 1 else 0
  }

  /** How many revisions lie between one of the puts and the next. */
  function Skipped(puts: seq<Entry>): nat
    requires forall p :: p in puts ==> p.Wrote?
  {
    if |puts| <= 1 then 0
    else
      var n := |puts|;
      var gap := puts[n - 1].revision - puts[n - 2].revision;
      Skipped(puts[..n - 1]) + if gap > 1 then gap - 1 else 0
  }

  lemma {:induction false} CountByRevision(puts: seq<Entry>)
    requires puts != [] && Ordered(puts) && forall p :: p in puts ==> p.Wrote?
    ensures |puts| + Skipped(puts) == puts[|puts| - 1].revision - puts[0].revision + 1 + Repeats(puts)
  {
    if |puts| > 1 {
      CountByRevision(puts[..|puts| - 1]);
    }
  }

  /** A record's version against the revisions it spans: each put has a revision of its own, except those a
      Txn repeats, and the revisions of calls that left the key alone have no put. */
  lemma VersionWithinRevisions(ops: seq<Op>, key: Bytes)
    requires key in Run(INIT, ops).data
    ensures var puts := LivePuts(Log(INIT, ops), key);
            && puts != []
            && var info := Run(INIT, ops).data[key];
               && 1 <= info.version
               && info.version + Skipped(puts) == info.modRevision - info.createRevision + 1 + Repeats(puts)
  {
    StoreIsItsLog(ops);
    assert DeterminesAt(Log(INIT, ops), Run(INIT, ops).data, key);
    LogOrdered(ops);
    LivePutsOrdered(Log(INIT, ops), key);
    CountByRevision(LivePuts(Log(INIT, ops), key));
  }

  /** So the version stays within the distance from create to modification revision plus one if and only if
      the puts that repeat a revision do not outnumber the revisions skipped. */
  lemma VersionBoundIff(ops: seq<Op>, key: Bytes)
    requires key in Run(INIT, ops).data
    ensures var info, puts := Run(INIT, ops).data[key], LivePuts(Log(INIT, ops), key);
            info.version <= info.modRevision - info.createRevision + 1 <==> Repeats(puts) <= Skipped(puts)
  {
    VersionWithinRevisions(ops, key);
  }

  /** No transaction of the run leaves two live puts of the key of its own. */
  ghost predicate PutsOnce(s: State, ops: seq<Op>, key: Bytes)
  {
    ops == [] ||
    (PutsOnce(s, ops[..|ops| - 1], key)
     && |LivePuts(Entries(Run(s, ops[..|ops| - 1]), ops[|ops| - 1]), key)| <= 1)
  }

  lemma {:induction false} LivePutsAppend(first: seq<Entry>, second: seq<Entry>, key: Bytes)
    ensures LivePuts(first + second, key) == LivePuts(second, key)
            || LivePuts(first + second, key) == LivePuts(first, key) + LivePuts(second, key)
  {
    if second == [] {
      assert first + second == first;
      assert LivePuts(first, key) + LivePuts(second, key) == LivePuts(first, key);
    } else {
      var n := |second| - 1;
      assert (first + second)[..|first + second| - 1] == first + second[..n];
      LivePutsAppend(first, second[..n], key);
    }
  }

  lemma RepeatsAppend(puts: seq<Entry>, later: seq<Entry>, bound: int)
    requires forall p :: p in puts + later ==> p.Wrote?
    requires Repeats(puts) == 0 && |later| <= 1
    requires forall p :: p in puts ==> p.revision <= bound
    requires forall p :: p in later ==> p.revision > bound
    ensures Repeats(puts + later) == 0
  {
    var both := puts + later;
    if later == [] {
      assert both == puts;
    } else if puts != [] {
      assert both[..|both| - 1] == puts;
      assert puts[|puts| - 1] in puts && later[0] in later;
    }
  }

  lemma UpToMember(log: seq<Entry>, revision: int)
    requires UpTo(log, revision)
    ensures forall e :: e in log && e.Wrote? ==> e.revision <= revision
  {
  }

  lemma {:induction false} NoRepeats(ops: seq<Op>, key: Bytes)
    requires PutsOnce(INIT, ops, key)
    ensures Repeats(LivePuts(Log(INIT, ops), key)) == 0
  {
    if ops != [] {
      var init, last := ops[..|ops| - 1], ops[|ops| - 1];
      NoRepeats(init, key);
      LogOrdered(init);
      var t := Run(INIT, init);
      var log, entries := Log(INIT, init), Entries(t, last);
      UpToMember(log, t.revision);
      NewEntriesAreNewer(t, last);
      LivePutsAppend(log, entries, key);
      var earlier, later := LivePuts(log, key), LivePuts(entries, key);
      RepeatsAppend(earlier, later, t.revision);
      RepeatsAppend([], later, t.revision);
      assert [] + later == later;
    }
  }

  /** In particular when no Txn puts the key twice without clearing it in between, the version never exceeds the
      distance from create to modification revision plus one. */
  lemma VersionBound(ops: seq<Op>, key: Bytes)
    requires key in Run(INIT, ops).data && PutsOnce(INIT, ops, key)
    ensures var info := Run(INIT, ops).data[key];
            1 <= info.version <= info.modRevision - info.createRevision + 1
  {
    VersionWithinRevisions(ops, key);
    NoRepeats(ops, key);
  }

  /** The exception is real: one Txn that puts a key twice leaves version 2 at a single revision. */
  lemma TxnRepeatsARevision()
    ensures var put := PutOp([1], [], 0, false);
            var info := Lookup(Run(INIT, [Txn([], [put, put], [])]).data, [1]);
            info.Some? && info.value.version == 2 && info.value.createRevision == info.value.modRevision == 2
  {
    var put := PutOp([1], [], 0, false);
    var op := Txn([], [put, put], []);
    var s := INIT.(revision := 2);
    assert [op][..0] == [] && [put, put][..1] == [put] && [put][..0] == [];
    assert ApplyOps(s, 2, [put]) == ApplyOp(ApplyOps(s, 2, [put][..0]), 2, put);
    assert ApplyOps(s, 2, [put, put]) == ApplyOp(ApplyOps(s, 2, [put]), 2, put);
    assert Run(INIT, [op]) == Step(INIT, op) == ApplyOps(s, 2, [put, put]);
  }
}
