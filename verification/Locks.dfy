/** Lock discipline: the mutexes each call takes and gives back, for any number of threads. */
module Locks {
  import opened Collections

  datatype Lock = KvMutex | LeaseMutex | WatchMutex | StreamMutex(watchId: int)

  /** Acquisitions ascend: store before lease table, store before watch table before stream. */
  function Rank(l: Lock): nat
  {
    match l
    case KvMutex => 0
    case LeaseMutex => 1
    case WatchMutex => 1
    case StreamMutex(_) => 2
  }

  predicate Ascends(held: set<Lock>, l: Lock)
  {
    forall h | h in held :: Rank(h) < Rank(l)
  }

  datatype Action = Acquire(lock: Lock) | Release(lock: Lock)

  type Program = seq<Action>

  /** A lock taken is above all those held, a lock given back is held. */
  predicate Allowed(held: set<Lock>, a: Action)
  {
    match a
    case Acquire(l) => Ascends(held, l)
    case Release(l) => l in held
  }

  function Then(held: set<Lock>, a: Action): set<Lock>
  {
    match a
    case Acquire(l) => held + {l}
    case Release(l) => held - {l}
  }

  /** Every action is allowed when its turn comes, and no lock is held at the end. */
  predicate Disciplined(held: set<Lock>, program: Program)
    decreases |program|
  {
    if program == [] then held == {}
    else Allowed(held, program[0]) && Disciplined(Then(held, program[0]), program[1..])
  }

  // ----- The programs of the calls -----

  function Section(l: Lock, body: Program): Program
  {
    [Acquire(l)] + body + [Release(l)]
  }

  /** n calls of AttachKey or DetachKey. */
  function LeaseCalls(n: nat): Program
  {
    Concat(seq(n, _ => Section(LeaseMutex, [])))
  }

  function Send(id: int): Program
  {
    Section(StreamMutex(id), [])
  }

  function Sends(ids: seq<int>): Program
  {
    Concat(seq(|ids|, i requires 0 <= i < |ids| => Send(ids[i])))
  }

  /** `n` responses to the same watcher. */
  function SnapshotSends(id: int, n: nat): Program
  {
    Sends(seq(n, _ => id))
  }

  /** NotifyPut or NotifyDelete reaching the watchers `ids`; the revision is read without a lock. */
  function Notify(ids: seq<int>): Program
  {
    Section(WatchMutex, Sends(ids))
  }

  function Notifies(reached: seq<seq<int>>): Program
  {
    Concat(seq(|reached|, i requires 0 <= i < |reached| => Notify(reached[i])))
  }

  /** Put, Delete or Txn: lease calls, then one notification for each element of `reached`. */
  function Mutation(leaseCalls: nat, reached: seq<seq<int>>): Program
  {
    Section(KvMutex, LeaseCalls(leaseCalls) + Notifies(reached))
  }

  function SilentDeletes(deletes: seq<nat>): Program
  {
    Concat(seq(|deletes|, i requires 0 <= i < |deletes| => Mutation(deletes[i], [])))
  }

  /** A Revoke: either the lease is gone, or there are keys to delete, each with the lease calls it takes. */
  datatype Revocation = Gone | Found(deletes: seq<nat>)

  /** Of a live lease: read the keys, delete each of them, erase the lease. */
  function RevokeProgram(r: Revocation): Program
  {
    match r
    case Gone => Section(LeaseMutex, [])
    case Found(deletes) =>
      Section(LeaseMutex, []) + SilentDeletes(deletes) + Section(LeaseMutex, [])
  }

  function Revokes(revocations: seq<Revocation>): Program
  {
    Concat(seq(|revocations|, i requires 0 <= i < |revocations| => RevokeProgram(revocations[i])))
  }

  datatype Call =
    | Mutate(leaseCalls: nat, reached: seq<seq<int>>)       // Put, Delete, Txn
    | Read                                                  // Get, Range, KeyExists
    | LeaseOnly                                             // Grant, KeepAlive
    | Revoke(revocation: Revocation)
    | Sweep(revocations: seq<Revocation>)                   // CheckExpiration
    | Register(watchId: int, snapshot: bool, events: nat)
    | Cancel(watchId: int, found: bool)

  function ProgramOf(c: Call): Program
  {
    match c
    case Mutate(n, reached) => Mutation(n, reached)
    case Read => Section(KvMutex, [])
    case LeaseOnly => Section(LeaseMutex, [])
    case Revoke(r) => RevokeProgram(r)
    case Sweep(revocations) => Section(LeaseMutex, []) + Revokes(revocations)
    case Register(id, snapshot, events) =>
      Send(id)
      + (if snapshot then Section(KvMutex, []) + SnapshotSends(id, events) else [])
      + Section(WatchMutex, [])
    case Cancel(id, found) => Section(WatchMutex, if found then Send(id) else [])
  }

  // ----- They are disciplined -----

  /** Wherever only locks of rank below `base` are held, the program can be slipped in. */
  ghost predicate Balanced(base: int, program: Program)
  {
    forall held: set<Lock>, rest: Program |
      (forall h | h in held :: Rank(h) < base) && Disciplined(held, rest) :: Disciplined(held, program + rest)
  }

  lemma BalancedEmpty(base: int)
    ensures Balanced(base, [])
  {
    forall rest: Program
      ensures [] + rest == rest
    {
    }
  }

  lemma BalancedBelow(base: int, below: int, program: Program)
    requires Balanced(base, program) && below <= base
    ensures Balanced(below, program)
  {
  }

  lemma BalancedThen(base: int, first: Program, second: Program)
    requires Balanced(base, first) && Balanced(base, second)
    ensures Balanced(base, first + second)
  {
    forall held: set<Lock>, rest: Program |
      (forall h | h in held :: Rank(h) < base) && Disciplined(held, rest)
      ensures Disciplined(held, first + second + rest)
    {
      assert first + second + rest == first + (second + rest);
    }
  }

  lemma BalancedSection(l: Lock, body: Program)
    requires Balanced(Rank(l) + 1, body)
    ensures Balanced(Rank(l), Section(l, body))
  {
    forall held: set<Lock>, rest: Program |
      (forall h | h in held :: Rank(h) < Rank(l)) && Disciplined(held, rest)
      ensures Disciplined(held, Section(l, body) + rest)
    {
      var inside := held + {l};
      var after := [Release(l)] + rest;
      assert after[1..] == rest && inside - {l} == held;
      assert Disciplined(inside, after);
      var program := Section(l, body) + rest;
      assert program[0] == Acquire(l) && program[1..] == body + after;
    }
  }

  lemma {:induction false} BalancedConcat(base: int, parts: seq<Program>)
    requires forall p | p in parts :: Balanced(base, p)
    ensures Balanced(base, Concat(parts))
  {
    if parts == [] {
      BalancedEmpty(base);
    } else {
      assert parts[0] in parts && forall p | p in parts[1..] :: p in parts;
      BalancedConcat(base, parts[1..]);
      BalancedThen(base, parts[0], Concat(parts[1..]));
    }
  }

  lemma BalancedLeaf(l: Lock)
    ensures Balanced(Rank(l), Section(l, []))
  {
    BalancedEmpty(Rank(l) + 1);
    BalancedSection(l, []);
  }

  lemma BalancedSends(ids: seq<int>)
    ensures Balanced(2, Sends(ids))
  {
    var parts := seq(|ids|, i requires 0 <= i < |ids| => Send(ids[i]));
    forall p | p in parts
      ensures Balanced(2, p)
    {
      var i :| 0 <= i < |parts| && parts[i] == p;
      BalancedLeaf(StreamMutex(ids[i]));
    }
    BalancedConcat(2, parts);
  }

  lemma BalancedMutation(n: nat, reached: seq<seq<int>>)
    ensures Balanced(0, Mutation(n, reached))
  {
    var leaseCalls := seq(n, _ => Section(LeaseMutex, []));
    BalancedLeaf(LeaseMutex);
    BalancedConcat(1, leaseCalls);
    var notifies := seq(|reached|, i requires 0 <= i < |reached| => Notify(reached[i]));
    forall p | p in notifies
      ensures Balanced(1, p)
    {
      var i :| 0 <= i < |notifies| && notifies[i] == p;
      BalancedSends(reached[i]);
      BalancedSection(WatchMutex, Sends(reached[i]));
    }
    BalancedConcat(1, notifies);
    BalancedThen(1, LeaseCalls(n), Notifies(reached));
    BalancedSection(KvMutex, LeaseCalls(n) + Notifies(reached));
  }

  lemma BalancedRevoke(r: Revocation)
    ensures Balanced(0, RevokeProgram(r))
  {
    BalancedLeaf(LeaseMutex);
    BalancedBelow(1, 0, Section(LeaseMutex, []));
    if r.Found? {
      var deletes := r.deletes;
      var parts := seq(|deletes|, i requires 0 <= i < |deletes| => Mutation(deletes[i], []));
      forall p | p in parts
        ensures Balanced(0, p)
      {
        var i :| 0 <= i < |parts| && parts[i] == p;
        BalancedMutation(deletes[i], []);
      }
      BalancedConcat(0, parts);
      BalancedThen(0, Section(LeaseMutex, []), Concat(parts));
      BalancedThen(0, Section(LeaseMutex, []) + Concat(parts), Section(LeaseMutex, []));
    }
  }

  lemma BalancedSweep(revocations: seq<Revocation>)
    ensures Balanced(0, ProgramOf(Sweep(revocations)))
  {
    var parts := seq(|revocations|, i requires 0 <= i < |revocations| => RevokeProgram(revocations[i]));
    forall p | p in parts
      ensures Balanced(0, p)
    {
      var i :| 0 <= i < |parts| && parts[i] == p;
      BalancedRevoke(revocations[i]);
    }
    BalancedConcat(0, parts);
    BalancedLeaf(LeaseMutex);
    BalancedBelow(1, 0, Section(LeaseMutex, []));
    BalancedThen(0, Section(LeaseMutex, []), Concat(parts));
  }

  lemma BalancedRegister(id: int, snapshot: bool, events: nat)
    ensures Balanced(0, ProgramOf(Register(id, snapshot, events)))
  {
    BalancedLeaf(StreamMutex(id));
    BalancedBelow(2, 0, Send(id));
    BalancedLeaf(KvMutex);
    var again := seq(events, _ => id);
    BalancedSends(again);
    BalancedBelow(2, 0, Sends(again));
    BalancedThen(0, Section(KvMutex, []), Sends(again));
    BalancedEmpty(0);
    var middle := if snapshot then Section(KvMutex, []) + Sends(again) else [];
    BalancedThen(0, Send(id), middle);
    BalancedLeaf(WatchMutex);
    BalancedBelow(1, 0, Section(WatchMutex, []));
    BalancedThen(0, Send(id) + middle, Section(WatchMutex, []));
  }

  lemma EveryCallIsBalanced(c: Call)
    ensures Balanced(0, ProgramOf(c))
  {
    match c
    case Mutate(n, reached) => BalancedMutation(n, reached);
    case Read => BalancedLeaf(KvMutex);
    case LeaseOnly =>
      BalancedLeaf(LeaseMutex);
      BalancedBelow(1, 0, Section(LeaseMutex, []));
    case Revoke(r) => BalancedRevoke(r);
    case Sweep(revocations) => BalancedSweep(revocations);
    case Register(id, snapshot, events) => BalancedRegister(id, snapshot, events);
    case Cancel(id, found) =>
      BalancedLeaf(StreamMutex(id));
      BalancedEmpty(2);
      BalancedSection(WatchMutex, if found then Send(id) else []);
      BalancedBelow(1, 0, ProgramOf(c));
  }

  /** No call ever re-acquires a mutex it holds, and every call's acquisitions ascend. */
  lemma EveryCallIsDisciplined(c: Call)
    ensures Disciplined({}, ProgramOf(c))
  {
    EveryCallIsBalanced(c);
    assert Disciplined({}, []);
    assert ProgramOf(c) + [] == ProgramOf(c);
  }

  // ----- A thread that records what it does -----

  /** The locks held after `trace`, by a thread that held none before it. */
  function HeldAfter(trace: Program): set<Lock>
  {
    if trace == [] then {} else Then(HeldAfter(trace[..|trace| - 1]), trace[|trace| - 1])
  }

  /** Every action was allowed when it was made. */
  predicate Lawful(trace: Program)
  {
    trace == []
    || (Lawful(trace[..|trace| - 1]) && Allowed(HeldAfter(trace[..|trace| - 1]), trace[|trace| - 1]))
  }

  datatype Recorded = Recorded(trace: Program, held: set<Lock>)

  /** What a thread has done to the mutexes so far, and which it holds. */
  type LockRecord = r: Recorded | Lawful(r.trace) && r.held == HeldAfter(r.trace) witness Recorded([], {})

  lemma LawfulSnoc(trace: Program, a: Action)
    ensures HeldAfter(trace + [a]) == Then(HeldAfter(trace), a)
    ensures Lawful(trace + [a]) <==> Lawful(trace) && Allowed(HeldAfter(trace), a)
  {
    assert (trace + [a])[..|trace|] == trace;
  }

  lemma {:induction false} LawfulThen(trace: Program, rest: Program)
    requires Lawful(trace)
    ensures Disciplined({}, trace + rest) <==> Disciplined(HeldAfter(trace), rest)
    decreases |trace|
  {
    if trace == [] {
      assert trace + rest == rest;
    } else {
      var n := |trace| - 1;
      var later := [trace[n]] + rest;
      assert trace + rest == trace[..n] + later && later[1..] == rest;
      LawfulThen(trace[..n], later);
    }
  }

  /** What a thread that holds no mutex has done is a disciplined program: it is one of those the theorem
      on deadlocks is about. */
  lemma RecordIsDisciplined(r: LockRecord)
    ensures Disciplined({}, r.trace) <==> r.held == {}
  {
    LawfulThen(r.trace, []);
    assert r.trace + [] == r.trace;
  }

  // ----- Which program a call's record is -----

  lemma TookSection(before: Program, l: Lock, body: Program)
    ensures before + [Acquire(l)] + body + [Release(l)] == before + Section(l, body)
  {
  }

  lemma TookLeaf(before: Program, l: Lock)
    ensures before + [Acquire(l)] + [Release(l)] == before + Section(l, [])
  {
  }

  /** From `before` to `after` the thread has made some calls of AttachKey and DetachKey. */
  ghost predicate LeaseSteps(before: Program, after: Program)
  {
    exists n: nat :: after == before + LeaseCalls(n)
  }

  lemma LeaseCallsAdd(n: nat, m: nat)
    ensures LeaseCalls(n + m) == LeaseCalls(n) + LeaseCalls(m)
  {
    var one := Section(LeaseMutex, []);
    ConcatAppend(seq(n, _ => one), seq(m, _ => one));
    assert seq(n, _ => one) + seq(m, _ => one) == seq(n + m, _ => one);
  }

  lemma LeaseStepsNone(p: Program)
    ensures LeaseSteps(p, p)
  {
    assert seq(0, _ => Section(LeaseMutex, [])) == [];
    assert p == p + LeaseCalls(0);
  }

  lemma LeaseStepsOne(before: Program, after: Program)
    requires after == before + Section(LeaseMutex, [])
    ensures LeaseSteps(before, after)
  {
    ConcatOne(Section(LeaseMutex, []));
    assert seq(1, _ => Section(LeaseMutex, [])) == [Section(LeaseMutex, [])];
    assert after == before + LeaseCalls(1);
  }

  lemma LeaseStepsThen(first: Program, second: Program, third: Program)
    requires LeaseSteps(first, second) && LeaseSteps(second, third)
    ensures LeaseSteps(first, third)
  {
    var n: nat :| second == first + LeaseCalls(n);
    var m: nat :| third == second + LeaseCalls(m);
    LeaseCallsAdd(n, m);
    SeqAssociative(first, LeaseCalls(n), LeaseCalls(m));
    assert third == first + LeaseCalls(n + m);
  }

  /** It has reported `m` changes. */
  ghost predicate ReportSteps(before: Program, after: Program, m: nat)
  {
    exists reached: seq<seq<int>> :: |reached| == m && after == before + Notifies(reached)
  }

  lemma ReportStepsNone(p: Program)
    ensures ReportSteps(p, p, 0)
  {
    assert p == p + Notifies([]);
  }

  lemma ReportStepsNext(first: Program, second: Program, m: nat, ids: seq<int>)
    requires ReportSteps(first, second, m)
    ensures ReportSteps(first, second + Notify(ids), m + 1)
  {
    var reached: seq<seq<int>> :| |reached| == m && second == first + Notifies(reached);
    var all := reached + [ids];
    NotifiesSnoc(reached, ids);
    SeqAssociative(first, Notifies(reached), Notify(ids));
    assert second + Notify(ids) == first + Notifies(all);
  }

  lemma NotifiesSnoc(reached: seq<seq<int>>, ids: seq<int>)
    ensures Notifies(reached + [ids]) == Notifies(reached) + Notify(ids)
  {
    var all := reached + [ids];
    var parts := seq(|reached|, i requires 0 <= i < |reached| => Notify(reached[i]));
    ConcatAppend(parts, [Notify(ids)]);
    ConcatOne(Notify(ids));
    assert seq(|all|, i requires 0 <= i < |all| => Notify(all[i])) == parts + [Notify(ids)];
  }

  lemma SendsSnoc(ids: seq<int>, id: int)
    ensures Sends(ids + [id]) == Sends(ids) + Send(id)
  {
    var all := ids + [id];
    var parts := seq(|ids|, i requires 0 <= i < |ids| => Send(ids[i]));
    ConcatAppend(parts, [Send(id)]);
    ConcatOne(Send(id));
    assert seq(|all|, i requires 0 <= i < |all| => Send(all[i])) == parts + [Send(id)];
  }

  /** It has run a Put, Delete or Txn that reported `m` changes. */
  ghost predicate MutationSteps(before: Program, after: Program, m: nat)
  {
    exists n: nat, reached: seq<seq<int>> :: |reached| == m && after == before + Mutation(n, reached)
  }

  lemma MutationDone(before: Program, leased: Program, reported: Program, m: nat)
    requires LeaseSteps(before + [Acquire(KvMutex)], leased) && ReportSteps(leased, reported, m)
    ensures MutationSteps(before, reported + [Release(KvMutex)], m)
  {
    var n: nat :| leased == before + [Acquire(KvMutex)] + LeaseCalls(n);
    var reached: seq<seq<int>> :| |reached| == m && reported == leased + Notifies(reached);
    var body := LeaseCalls(n) + Notifies(reached);
    SeqAssociative(before + [Acquire(KvMutex)], LeaseCalls(n), Notifies(reached));
    TookSection(before, KvMutex, body);
    assert reported + [Release(KvMutex)] == before + Mutation(n, reached);
  }

  /** It has run silent Deletes, one for each of `count` keys. */
  ghost predicate DeleteSteps(before: Program, after: Program, count: nat)
  {
    exists deletes: seq<nat> :: |deletes| == count && after == before + SilentDeletes(deletes)
  }

  lemma DeleteStepsNone(p: Program)
    ensures DeleteSteps(p, p, 0)
  {
    assert p == p + SilentDeletes([]);
  }

  lemma SilentDeletesSnoc(deletes: seq<nat>, n: nat)
    ensures SilentDeletes(deletes + [n]) == SilentDeletes(deletes) + Mutation(n, [])
  {
    hide Mutation;
    var all := deletes + [n];
    var parts := seq(|deletes|, i requires 0 <= i < |deletes| => Mutation(deletes[i], []));
    ConcatAppend(parts, [Mutation(n, [])]);
    ConcatOne(Mutation(n, []));
    assert seq(|all|, i requires 0 <= i < |all| => Mutation(all[i], [])) == parts + [Mutation(n, [])];
  }

  lemma DeleteStepsNext(first: Program, second: Program, third: Program, count: nat)
    requires DeleteSteps(first, second, count) && MutationSteps(second, third, 0)
    ensures DeleteSteps(first, third, count + 1)
  {
    hide SilentDeletes, Mutation;
    var deletes: seq<nat> :| |deletes| == count && second == first + SilentDeletes(deletes);
    var n: nat, reached: seq<seq<int>> :| |reached| == 0 && third == second + Mutation(n, reached);
    assert reached == [];
    SilentDeletesSnoc(deletes, n);
    SeqAssociative(first, SilentDeletes(deletes), Mutation(n, []));
    assert third == first + SilentDeletes(deletes + [n]);
  }

  /** It has run a Revoke that found `count` keys, or none if the lease was gone. */
  ghost predicate RevokeSteps(before: Program, after: Program, found: bool, count: nat)
  {
    exists r: Revocation ::
      && (r.Found? <==> found) && (r.Found? ==> |r.deletes| == count) && after == before + RevokeProgram(r)
  }

  lemma RevokedGone(before: Program)
    ensures RevokeSteps(before, before + Section(LeaseMutex, []), false, 0)
  {
    assert before + Section(LeaseMutex, []) == before + RevokeProgram(Gone);
  }

  lemma RevokedFound(before: Program, deleted: Program, count: nat)
    requires DeleteSteps(before + Section(LeaseMutex, []), deleted, count)
    ensures RevokeSteps(before, deleted + Section(LeaseMutex, []), true, count)
  {
    var deletes: seq<nat> :|
      |deletes| == count && deleted == before + Section(LeaseMutex, []) + SilentDeletes(deletes);
    var leaf := Section(LeaseMutex, []);
    assert before + leaf + SilentDeletes(deletes) + leaf == before + (leaf + SilentDeletes(deletes) + leaf);
    assert deleted + leaf == before + RevokeProgram(Found(deletes));
  }

  /** It has run `count` Revokes one after another. */
  ghost predicate SweepSteps(before: Program, after: Program, count: nat)
  {
    exists revocations: seq<Revocation> :: |revocations| == count && after == before + Revokes(revocations)
  }

  lemma SweepStepsNone(p: Program)
    ensures SweepSteps(p, p, 0)
  {
    assert p == p + Revokes([]);
  }

  lemma SweepStepsNext(first: Program, second: Program, third: Program, count: nat, found: bool, keys: nat)
    requires SweepSteps(first, second, count) && RevokeSteps(second, third, found, keys)
    ensures SweepSteps(first, third, count + 1)
  {
    var revocations: seq<Revocation> :| |revocations| == count && second == first + Revokes(revocations);
    var r: Revocation :| third == second + RevokeProgram(r);
    var all := revocations + [r];
    var parts := seq(|revocations|, i requires 0 <= i < |revocations| => RevokeProgram(revocations[i]));
    ConcatAppend(parts, [RevokeProgram(r)]);
    ConcatOne(RevokeProgram(r));
    assert seq(|all|, i requires 0 <= i < |all| => RevokeProgram(all[i])) == parts + [RevokeProgram(r)];
    SeqAssociative(first, Revokes(revocations), RevokeProgram(r));
    assert third == first + Revokes(all);
  }

  /** It has run one call. */
  ghost predicate Performs(before: Program, after: Program)
  {
    exists c: Call :: after == before + ProgramOf(c)
  }

  /** It has run a notification. */
  ghost predicate NotifySteps(before: Program, after: Program)
  {
    exists ids: seq<int> :: after == before + Notify(ids)
  }

  lemma ReportStepsMore(first: Program, second: Program, third: Program, m: nat)
    requires ReportSteps(first, second, m) && NotifySteps(second, third)
    ensures ReportSteps(first, third, m + 1)
  {
    var ids: seq<int> :| third == second + Notify(ids);
    ReportStepsNext(first, second, m, ids);
  }

  /** It has read the store's keys in range and sent them to watcher `id`. */
  ghost predicate Listed(before: Program, after: Program, id: int)
  {
    exists n: nat :: after == before + Section(KvMutex, []) + SnapshotSends(id, n)
  }

  lemma ListedBy(before: Program, after: Program, id: int, n: nat)
    requires after == before + Section(KvMutex, []) + SnapshotSends(id, n)
    ensures Listed(before, after, id)
  {
  }

  /** It has sent the created response and, if asked to, the snapshot. */
  ghost predicate OpenedSteps(before: Program, after: Program, id: int, snapshot: bool)
  {
    if snapshot then Listed(before + Send(id), after, id) else after == before + Send(id)
  }

  lemma OpenedWith(before: Program, after: Program, id: int)
    requires Listed(before + Send(id), after, id)
    ensures OpenedSteps(before, after, id, true)
  {
  }

  lemma OpenedWithout(before: Program, id: int)
    ensures OpenedSteps(before, before + Send(id), id, false)
  {
  }

  lemma CancelSteps(before: Program, id: int, found: bool)
    ensures before + [Acquire(WatchMutex)] + (if found then Send(id) else []) + [Release(WatchMutex)]
            == before + ProgramOf(Cancel(id, found))
  {
    TookSection(before, WatchMutex, if found then Send(id) else []);
  }

  lemma RegisterPerforms(before: Program, sent: Program, id: int, snapshot: bool)
    requires OpenedSteps(before, sent, id, snapshot)
    ensures Performs(before, sent + Section(WatchMutex, []))
  {
    var last := Section(WatchMutex, []);
    if snapshot {
      var n: nat :| sent == before + Send(id) + Section(KvMutex, []) + SnapshotSends(id, n);
      var kv, sends := Section(KvMutex, []), SnapshotSends(id, n);
      assert before + Send(id) + kv + sends + last == before + (Send(id) + (kv + sends) + last);
      assert sent + last == before + ProgramOf(Register(id, true, n));
    } else {
      assert before + Send(id) + last == before + (Send(id) + [] + last);
      assert sent + last == before + ProgramOf(Register(id, false, 0));
    }
  }

  lemma MutationPerforms(before: Program, after: Program, m: nat)
    requires MutationSteps(before, after, m)
    ensures Performs(before, after)
  {
    var n: nat, reached: seq<seq<int>> :| |reached| == m && after == before + Mutation(n, reached);
    assert after == before + ProgramOf(Mutate(n, reached));
  }

  lemma LeaseOnlyPerforms(before: Program, after: Program)
    requires after == before + Section(LeaseMutex, [])
    ensures Performs(before, after)
  {
    assert after == before + ProgramOf(LeaseOnly);
  }

  lemma CancelPerforms(before: Program, after: Program, id: int, found: bool)
    requires after == before + ProgramOf(Cancel(id, found))
    ensures Performs(before, after)
  {
  }

  lemma RevokePerforms(before: Program, after: Program, found: bool, count: nat)
    requires RevokeSteps(before, after, found, count)
    ensures Performs(before, after)
  {
    var r: Revocation :| after == before + RevokeProgram(r);
    assert after == before + ProgramOf(Revoke(r));
  }

  lemma SweepPerforms(before: Program, after: Program, count: nat)
    requires SweepSteps(before + Section(LeaseMutex, []), after, count)
    ensures Performs(before, after)
  {
    var revocations: seq<Revocation> :|
      |revocations| == count && after == before + Section(LeaseMutex, []) + Revokes(revocations);
    SeqAssociative(before, Section(LeaseMutex, []), Revokes(revocations));
    assert after == before + ProgramOf(Sweep(revocations));
  }

  // ----- Any number of threads -----

  /** Who holds each lock that is taken, and what each thread has left to do. */
  datatype Machine = Machine(holder: map<Lock, int>, threads: map<int, Program>)

  datatype Move =
    | Start(thread: int, program: Program)  // an idle or new thread begins a program
    | Go(thread: int)                       // a thread makes its next action

  predicate Enabled(m: Machine, move: Move)
  {
    match move
    case Start(t, _) => t !in m.threads || m.threads[t] == []
    case Go(t) =>
      && t in m.threads && m.threads[t] != []
      && match m.threads[t][0]
         case Acquire(l) => l !in m.holder
         case Release(l) => l in m.holder && m.holder[l] == t
  }

  function Apply(m: Machine, move: Move): Machine
    requires Enabled(m, move)
  {
    match move
    case Start(t, program) => m.(threads := m.threads[t := program])
    case Go(t) =>
      var threads := m.threads[t := m.threads[t][1..]];
      match m.threads[t][0]
      case Acquire(l) => Machine(m.holder[l := t], threads)
      case Release(l) => Machine(m.holder - {l}, threads)
  }

  ghost predicate Feasible(moves: seq<Move>)
    decreases |moves|, 0
  {
    moves == []
    || (Feasible(moves[..|moves| - 1]) && Enabled(Reached(moves[..|moves| - 1]), moves[|moves| - 1]))
  }

  ghost function Reached(moves: seq<Move>): Machine
    requires Feasible(moves)
    decreases |moves|, 1
  {
    if moves == [] then Machine(map[], map[])
    else Apply(Reached(moves[..|moves| - 1]), moves[|moves| - 1])
  }

  /** Every program begun is disciplined, as those of all calls are. */
  ghost predicate AllDisciplined(moves: seq<Move>)
  {
    forall move | move in moves :: move.Start? ==> Disciplined({}, move.program)
  }

  function HeldBy(m: Machine, t: int): set<Lock>
  {
    set l | l in m.holder && m.holder[l] == t
  }

  ghost predicate Orderly(m: Machine)
  {
    && (forall l | l in m.holder :: m.holder[l] in m.threads)
    && (forall t | t in m.threads :: Disciplined(HeldBy(m, t), m.threads[t]))
  }

  lemma MoveKeepsOrder(m: Machine, move: Move)
    requires Orderly(m) && Enabled(m, move) && AllDisciplined([move])
    ensures Orderly(Apply(m, move))
  {
    var n := Apply(m, move);
    forall t | t in n.threads
      ensures Disciplined(HeldBy(n, t), n.threads[t])
    {
      if t != move.thread {
        assert HeldBy(n, t) == HeldBy(m, t);
      } else {
        match move
        case Start(_, _) =>
          assert HeldBy(n, t) == {};
          assert move in [move];
        case Go(_) =>
          match m.threads[t][0]
          case Acquire(l) => assert HeldBy(n, t) == HeldBy(m, t) + {l};
          case Release(l) => assert HeldBy(n, t) == HeldBy(m, t) - {l};
      }
    }
  }

  lemma {:induction false} ReachableIsOrderly(moves: seq<Move>)
    requires Feasible(moves) && AllDisciplined(moves)
    ensures Orderly(Reached(moves))
  {
    if moves != [] {
      var init, last := moves[..|moves| - 1], moves[|moves| - 1];
      assert last in moves && forall move | move in init :: move in moves;
      ReachableIsOrderly(init);
      MoveKeepsOrder(Reached(init), last);
    }
  }

  /** In every reachable state a thread waits only for a lock above all it holds, so never for one of
      its own, and gives back only what it holds. */
  lemma NeverReacquires(moves: seq<Move>, t: int)
    requires Feasible(moves) && AllDisciplined(moves) && t in Reached(moves).threads && Reached(moves).threads[t] != []
    ensures match Reached(moves).threads[t][0]
            case Acquire(l) => Ascends(HeldBy(Reached(moves), t), l) && l !in HeldBy(Reached(moves), t)
            case Release(l) => l in HeldBy(Reached(moves), t)
  {
    ReachableIsOrderly(moves);
  }

  /** Following whoever holds the lock waited for climbs the order, so it ends at a thread that can go. */
  lemma {:induction false} Runnable(m: Machine, t: int) returns (u: int)
    requires Orderly(m) && t in m.threads && m.threads[t] != []
    ensures Enabled(m, Go(u))
    decreases match m.threads[t][0] case Acquire(l) => 2 - Rank(l) case Release(_) => 3
  {
    if Enabled(m, Go(t)) {
      return t;
    }
    assert m.threads[t][0].Acquire?;
    var l := m.threads[t][0].lock;
    var h := m.holder[l];
    assert l in HeldBy(m, h);
    if Enabled(m, Go(h)) {
      return h;
    }
    u := Runnable(m, h);
  }

  /** No reachable state is deadlocked: while any thread has something left to do, some thread can go. */
  lemma NoDeadlock(moves: seq<Move>, t: int)
    requires Feasible(moves) && AllDisciplined(moves) && t in Reached(moves).threads && Reached(moves).threads[t] != []
    ensures exists u :: Enabled(Reached(moves), Go(u))
  {
    ReachableIsOrderly(moves);
    var u := Runnable(Reached(moves), t);
  }

  // ----- What it rests on -----

  /** Somebody has something left to do, and nobody can go. */
  ghost predicate Stuck(m: Machine)
  {
    && (exists t :: t in m.threads && m.threads[t] != [])
    && forall t :: !Enabled(m, Go(t))
  }

  lemma OneMore(moves: seq<Move>, move: Move)
    requires Feasible(moves) && Enabled(Reached(moves), move)
    ensures Feasible(moves + [move]) && Reached(moves + [move]) == Apply(Reached(moves), move)
  {
    assert (moves + [move])[..|moves|] == moves;
  }

  /** Only these programs are begun. */
  ghost predicate Begins(moves: seq<Move>, programs: set<Program>)
  {
    forall move | move in moves :: move.Start? ==> move.program in programs
  }

  /** A Revoke that kept the lease mutex while it calls back to delete a key. */
  function Hoarding(leaseCalls: nat): Program
  {
    Section(LeaseMutex, Mutation(leaseCalls, []))
  }

  lemma HoardingSteps(leaseCalls: nat)
    ensures var p := Hoarding(leaseCalls);
            |p| >= 4 && p[0] == Acquire(LeaseMutex) && p[1..][0] == Acquire(KvMutex)
            && (leaseCalls > 0 ==> p[1..][1..][0] == Acquire(LeaseMutex))
  {
    if leaseCalls > 0 {
      var parts := seq(leaseCalls, _ => Section(LeaseMutex, []));
      assert Concat(parts) == parts[0] + Concat(parts[1..]);
      assert LeaseCalls(leaseCalls)[0] == Acquire(LeaseMutex);
    }
  }

  lemma PutSteps()
    ensures var p := Mutation(1, []);
            |p| >= 2 && p[0] == Acquire(KvMutex) && p[1..][0] == Acquire(LeaseMutex)
  {
    var parts := seq(1, _ => Section(LeaseMutex, []));
    assert Concat(parts) == parts[0] + Concat(parts[1..]);
    assert LeaseCalls(1)[0] == Acquire(LeaseMutex);
  }

  lemma CrossedIsStuck(m: Machine, first: Program, second: Program)
    requires m == Machine(map[LeaseMutex := 1, KvMutex := 2], map[1 := first, 2 := second])
    requires first != [] && first[0] == Acquire(KvMutex)
    requires second != [] && second[0] == Acquire(LeaseMutex)
    ensures Stuck(m)
  {
    assert 1 in m.threads;
    forall t
      ensures !Enabled(m, Go(t))
    {
      if t in m.threads {
        assert t == 1 || t == 2;
      }
    }
  }

  lemma TwoTakeOne(first: Program, second: Program, l: Lock, k: Lock) returns (moves: seq<Move>)
    requires l != k && |first| > 1 && first[0] == Acquire(l) && |second| > 1 && second[0] == Acquire(k)
    ensures Feasible(moves) && Begins(moves, {first, second})
    ensures Reached(moves) == Machine(map[l := 1, k := 2], map[1 := first[1..], 2 := second[1..]])
  {
    OneMore([], Start(1, first));
    var m1 := Apply(Reached([]), Start(1, first));
    assert m1 == Machine(map[], map[1 := first]);
    moves := [Start(1, first)];
    assert [] + moves == moves;
    OneMore(moves, Start(2, second));
    moves := moves + [Start(2, second)];
    assert Reached(moves) == Machine(map[], map[1 := first, 2 := second]);
    OneMore(moves, Go(1));
    moves := moves + [Go(1)];
    assert Reached(moves) == Machine(map[l := 1], map[1 := first[1..], 2 := second]);
    OneMore(moves, Go(2));
    moves := moves + [Go(2)];
  }

  /** Had Revoke kept the lease mutex while deleting, it could meet a Put of a leased key halfway: each
      holds the mutex the other is waiting for. */
  lemma ReleasingFirstMatters(leaseCalls: nat) returns (moves: seq<Move>)
    ensures Begins(moves, {Hoarding(leaseCalls), Mutation(1, [])})
    ensures Feasible(moves) && Stuck(Reached(moves))
  {
    HoardingSteps(leaseCalls);
    PutSteps();
    var revoke, put := Hoarding(leaseCalls), Mutation(1, []);
    moves := TwoTakeOne(revoke, put, LeaseMutex, KvMutex);
    CrossedIsStuck(Reached(moves), revoke[1..], put[1..]);
  }

  /** And when the key it deletes still names a lease, the Revoke waits for itself. */
  lemma HoardingWaitsForItself(leaseCalls: nat) returns (moves: seq<Move>)
    requires leaseCalls > 0
    ensures Begins(moves, {Hoarding(leaseCalls)})
    ensures Feasible(moves) && Stuck(Reached(moves))
  {
    hide Section, Mutation, Hoarding, Disciplined;
    HoardingSteps(leaseCalls);
    var revoke := Hoarding(leaseCalls);
    moves := [];
    OneMore(moves, Start(1, revoke));
    moves := moves + [Start(1, revoke)];
    OneMore(moves, Go(1));
    moves := moves + [Go(1)];
    OneMore(moves, Go(1));
    moves := moves + [Go(1)];
    assert Reached(moves).threads == map[1 := revoke[1..][1..]];
    assert Reached(moves).holder == map[LeaseMutex := 1, KvMutex := 1];
  }

  /** A put whose watch callback locks the store to read the revision. */
  function Rereading(reached: seq<seq<int>>): Program
  {
    Section(KvMutex, Section(KvMutex, []) + Notifies(reached))
  }

  lemma RereadingSteps(reached: seq<seq<int>>)
    ensures var p := Rereading(reached);
            |p| >= 2 && p[0] == Acquire(KvMutex) && p[1..][0] == Acquire(KvMutex)
  {
  }

  /** Had CurrentRevision locked the store, every reported put would wait for itself. */
  lemma ReadingUnlockedMatters(reached: seq<seq<int>>) returns (moves: seq<Move>)
    ensures Begins(moves, {Rereading(reached)})
    ensures Feasible(moves) && Stuck(Reached(moves))
  {
    hide Section, Notifies, Rereading, Disciplined;
    RereadingSteps(reached);
    var put := Rereading(reached);
    moves := [];
    OneMore(moves, Start(1, put));
    moves := moves + [Start(1, put)];
    OneMore(moves, Go(1));
    moves := moves + [Go(1)];
    assert Reached(moves).threads == map[1 := put[1..]];
    assert Reached(moves).holder == map[KvMutex := 1];
  }
}
