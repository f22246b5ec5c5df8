/** Which calls another thread's Grants can tear. */
module Tearing {
  import opened Collections
  import opened Bytes
  import opened Engine
  import opened History
  import opened Interleaving
  import opened Linearization
  import opened LeaseIndex

  // That is: the calls on the store that some interleaving with lease steps leaves in a state no order of
  // whole calls leaves.

  predicate IsLeaseStep(op: Op)
  {
    op.Grant? || op.KeepAlive? || op.DropLease?
  }

  predicate AreLeaseSteps(ops: seq<Op>)
  {
    forall i | 0 <= i < |ops| :: IsLeaseStep(ops[i])
  }

  // ----- A call's operations with lease steps between them -----

  datatype Item = Meanwhile(step: Op) | Part(op: RequestOp)

  function Weave(s: State, revision: int, items: seq<Item>): State
  {
    if items == [] then s
    else
      var before := Weave(s, revision, items[..|items| - 1]);
      match items[|items| - 1]
      case Meanwhile(step) => Step(before, step)
      case Part(op) => ApplyOp(before, revision, op)
  }

  function Parts(items: seq<Item>): seq<RequestOp>
  {
    if items == [] then []
    else Parts(items[..|items| - 1]) + match items[|items| - 1] case Meanwhile(_) => [] case Part(op) => [op]
  }

  function Leases(items: seq<Item>): seq<Op>
  {
    if items == [] then []
    else Leases(items[..|items| - 1]) + match items[|items| - 1] case Meanwhile(step) => [step] case Part(_) => []
  }

  function GrantsIn(steps: seq<Op>): nat
  {
    if steps == [] then 0
    else GrantsIn(steps[..|steps| - 1]) + if steps[|steps| - 1].Grant? then 1 else 0
  }

  /** For each operation, how many Grants came before it. */
  function Bounds(items: seq<Item>): seq<nat>
  {
    if items == [] then []
    else
      var init := items[..|items| - 1];
      Bounds(init) + match items[|items| - 1] case Meanwhile(_) => [] case Part(_) => [GrantsIn(Leases(init))]
  }

  lemma LastItem(items: seq<Item>)
    requires items != []
    ensures var init := items[..|items| - 1];
            match items[|items| - 1]
            case Meanwhile(step) =>
              && Parts(items) == Parts(init) && Bounds(items) == Bounds(init)
              && Leases(items) == Leases(init) + [step]
              && GrantsIn(Leases(items)) == GrantsIn(Leases(init)) + (if step.Grant? then 1 else 0)
              && (AreLeaseSteps(Leases(items)) <==> AreLeaseSteps(Leases(init)) && IsLeaseStep(step))
            case Part(op) =>
              && Parts(items) == Parts(init) + [op] && Leases(items) == Leases(init)
              && Bounds(items) == Bounds(init) + [GrantsIn(Leases(init))]
  {
    var init := items[..|items| - 1];
    match items[|items| - 1]
    case Meanwhile(step) =>
      var steps := Leases(items);
      assert steps == Leases(init) + [step];
      assert steps[..|steps| - 1] == Leases(init) && steps[|steps| - 1] == step;
      assert forall i | 0 <= i < |Leases(init)| :: steps[i] == Leases(init)[i];
    case Part(_) =>
  }

  lemma {:induction false} BoundsRise(items: seq<Item>)
    ensures |Bounds(items)| == |Parts(items)|
    ensures forall p | 0 <= p < |Bounds(items)| :: Bounds(items)[p] <= GrantsIn(Leases(items))
    ensures forall p, q | 0 <= p <= q < |Bounds(items)| :: Bounds(items)[p] <= Bounds(items)[q]
  {
    if items != [] {
      BoundsRise(items[..|items| - 1]);
      LastItem(items);
    }
  }

  // ----- What the weave leaves in the store -----

  lemma {:induction false} WeaveData(s: State, revision: int, items: seq<Item>)
    requires AreLeaseSteps(Leases(items))
    ensures Weave(s, revision, items).data == ApplyOps(s, revision, Parts(items)).data
    ensures Weave(s, revision, items).revision == s.revision
    ensures Weave(s, revision, items).nextLeaseId == s.nextLeaseId + GrantsIn(Leases(items))
  {
    if items != [] {
      var init := items[..|items| - 1];
      var parts := Parts(items);
      LastItem(items);
      WeaveData(s, revision, init);
      match items[|items| - 1]
      case Meanwhile(step) =>
      case Part(op) =>
        assert parts[..|parts| - 1] == Parts(init);
        SameDataSameEffect(Weave(s, revision, init), ApplyOps(s, revision, Parts(init)), revision, op);
    }
  }

  lemma SameDataSameEffect(a: State, b: State, revision: int, op: RequestOp)
    requires a.data == b.data
    ensures ApplyOp(a, revision, op).data == ApplyOp(b, revision, op).data
    ensures ApplyOp(a, revision, op).nextLeaseId == a.nextLeaseId
    ensures ApplyOp(a, revision, op).revision == a.revision
    ensures ApplyOp(a, revision, op).leases.Keys == a.leases.Keys
  {
  }

  // ----- What it leaves in the lease table -----

  /** The same leases with the same times; the key sets may differ. */
  ghost predicate SameTimes(a: State, b: State)
  {
    && a.nextLeaseId == b.nextLeaseId
    && a.leases.Keys == b.leases.Keys
    && (forall id | id in a.leases && id in b.leases ::
          a.leases[id].(keys := {}) == b.leases[id].(keys := {}))
  }

  lemma StepSameTimes(a: State, b: State, step: Op)
    requires SameTimes(a, b) && IsLeaseStep(step)
    ensures SameTimes(Step(a, step), Step(b, step))
  {
  }

  lemma OpSameTimes(a: State, b: State, revision: int, op: RequestOp)
    requires SameTimes(a, b)
    ensures SameTimes(ApplyOp(a, revision, op), b)
  {
  }

  lemma {:induction false} WeaveTimes(s: State, revision: int, items: seq<Item>)
    requires AreLeaseSteps(Leases(items))
    ensures SameTimes(Weave(s, revision, items), Run(s, Leases(items)))
  {
    if items != [] {
      var init := items[..|items| - 1];
      LastItem(items);
      WeaveTimes(s, revision, init);
      match items[|items| - 1]
      case Meanwhile(step) =>
        RunSnoc(s, Leases(init), step);
        StepSameTimes(Weave(s, revision, init), Run(s, Leases(init)), step);
      case Part(op) =>
        OpSameTimes(Weave(s, revision, init), Run(s, Leases(init)), revision, op);
    }
  }

  predicate OpTouches(op: RequestOp, key: Bytes)
  {
    match op
    case PutOp(k, _, _, _) => k == key
    case DeleteOp(start, end, _) => KeyInRange(key, start, end)
    case _ => false
  }

  /** Operation p is a put, and no later operation writes or clears its key. */
  ghost predicate Survives(ops: seq<RequestOp>, p: int)
  {
    && 0 <= p < |ops| && ops[p].PutOp?
    && forall q | p < q < |ops| :: !OpTouches(ops[q], ops[p].key)
  }

  ghost predicate Untouched(ops: seq<RequestOp>, key: Bytes)
  {
    forall q | 0 <= q < |ops| :: !OpTouches(ops[q], key)
  }

  lemma SurvivesSnoc(ops: seq<RequestOp>, op: RequestOp, p: int)
    ensures Survives(ops + [op], p)
            <==> if p == |ops| then op.PutOp? else Survives(ops, p) && !OpTouches(op, ops[p].key)
  {
    var all := ops + [op];
    assert forall q | 0 <= q < |ops| :: all[q] == ops[q];
    if p != |ops| && Survives(all, p) {
      assert !OpTouches(all[|ops|], all[p].key);
    }
  }

  lemma {:induction false} SurvivorIsStored(s: State, revision: int, ops: seq<RequestOp>, p: int)
    requires Survives(ops, p)
    ensures LeaseOf(ApplyOps(s, revision, ops).data, ops[p].key) == ops[p].lease
    ensures ops[p].key in ApplyOps(s, revision, ops).data
  {
    var init, last := ops[..|ops| - 1], ops[|ops| - 1];
    assert ops == init + [last];
    SurvivesSnoc(init, last, p);
    if p < |init| {
      SurvivorIsStored(s, revision, init, p);
    }
  }

  /** Operation p put `key` under lease `id` for good, and the lease had been granted by then. */
  ghost predicate Attached(s: State, items: seq<Item>, p: int, id: int, key: Bytes)
  {
    && Survives(Parts(items), p) && Parts(items)[p].key == key && Parts(items)[p].lease == id
    && p < |Bounds(items)| && id < s.nextLeaseId + Bounds(items)[p]
  }

  ghost predicate Belongs(s: State, items: seq<Item>, id: int, key: Bytes)
  {
    || (exists p :: Attached(s, items, p, id, key))
    || (id in s.leases && key in s.leases[id].keys && Untouched(Parts(items), key))
  }

  lemma BelongsAfterStep(s: State, items: seq<Item>, step: Op, id: int, key: Bytes)
    ensures Belongs(s, items + [Meanwhile(step)], id, key) <==> Belongs(s, items, id, key)
  {
    assert (items + [Meanwhile(step)])[..|items|] == items;
    assert Parts(items + [Meanwhile(step)]) == Parts(items) && Bounds(items + [Meanwhile(step)]) == Bounds(items);
    if p :| Attached(s, items, p, id, key) {
      assert Attached(s, items + [Meanwhile(step)], p, id, key);
    }
    if p :| Attached(s, items + [Meanwhile(step)], p, id, key) {
      assert Attached(s, items, p, id, key);
    }
  }

  lemma UntouchedSnoc(ops: seq<RequestOp>, op: RequestOp, key: Bytes)
    ensures Untouched(ops + [op], key) <==> Untouched(ops, key) && !OpTouches(op, key)
  {
    assert forall q | 0 <= q < |ops| :: (ops + [op])[q] == ops[q];
    if Untouched(ops + [op], key) {
      assert !OpTouches((ops + [op])[|ops|], key);
    }
  }

  lemma AttachedAfterPart(s: State, items: seq<Item>, op: RequestOp, p: int, id: int, key: Bytes)
    ensures Attached(s, items + [Part(op)], p, id, key)
            <==> if p == |Parts(items)|
                 then op.PutOp? && op.key == key && op.lease == id
                      && id < s.nextLeaseId + GrantsIn(Leases(items))
                 else Attached(s, items, p, id, key) && !OpTouches(op, key)
  {
    hide OpTouches, Survives;
    var all := items + [Part(op)];
    LastItem(all);
    assert all[..|items|] == items;
    BoundsRise(items);
    SurvivesSnoc(Parts(items), op, p);
    assert p == |Parts(items)| ==> Parts(all)[p] == op;
    assert Survives(Parts(items), p) ==> 0 <= p < |Parts(items)| && Parts(all)[p] == Parts(items)[p] by {
      SurvivorInRange(Parts(items), p);
    }
  }

  lemma SurvivorInRange(ops: seq<RequestOp>, p: int)
    ensures Survives(ops, p) ==> 0 <= p < |ops| && ops[p].PutOp?
  {
  }

  lemma BelongsAfterPart(s: State, items: seq<Item>, op: RequestOp, id: int, key: Bytes)
    ensures Belongs(s, items + [Part(op)], id, key)
            <==> if OpTouches(op, key)
                 then op.PutOp? && op.lease == id && id < s.nextLeaseId + GrantsIn(Leases(items))
                 else Belongs(s, items, id, key)
  {
    hide Attached, Parts, Bounds, Leases, Untouched;
    var all := items + [Part(op)];
    var n := |Parts(items)|;
    LastItem(all);
    assert all[..|items|] == items;
    UntouchedSnoc(Parts(items), op, key);
    forall p
      ensures Attached(s, all, p, id, key)
              <==> if p == n then op.PutOp? && op.key == key && op.lease == id
                                  && id < s.nextLeaseId + GrantsIn(Leases(items))
                   else Attached(s, items, p, id, key) && !OpTouches(op, key)
    {
      AttachedAfterPart(s, items, op, p, id, key);
    }
    if Attached(s, items, n, id, key) {
      AttachedInRange(s, items, n, id, key);
    }
    if OpTouches(op, key) && op.PutOp? && op.lease == id && id < s.nextLeaseId + GrantsIn(Leases(items)) {
      assert Attached(s, all, n, id, key);
    }
    if !OpTouches(op, key) && exists p :: Attached(s, items, p, id, key) {
      var p :| Attached(s, items, p, id, key);
      assert Attached(s, all, p, id, key);
    }
  }

  lemma AttachedInRange(s: State, items: seq<Item>, p: int, id: int, key: Bytes)
    requires Attached(s, items, p, id, key)
    ensures p < |Parts(items)|
  {
  }

  lemma BelongsNamesIt(s: State, revision: int, items: seq<Item>, id: int, key: Bytes)
    requires Sound(s) && AreLeaseSteps(Leases(items)) && Belongs(s, items, id, key)
    ensures LeaseOf(Weave(s, revision, items).data, key) == id
  {
    WeaveData(s, revision, items);
    if p :| Attached(s, items, p, id, key) {
      SurvivorIsStored(s, revision, Parts(items), p);
    } else {
      UntouchedStays(s, revision, Parts(items), key);
    }
  }

  lemma {:induction false} UntouchedStays(s: State, revision: int, ops: seq<RequestOp>, key: Bytes)
    requires Untouched(ops, key)
    ensures Lookup(ApplyOps(s, revision, ops).data, key) == Lookup(s.data, key)
  {
    if ops != [] {
      var init, last := ops[..|ops| - 1], ops[|ops| - 1];
      UntouchedStays(s, revision, init, key);
      assert !OpTouches(last, key);
    }
  }

  lemma OneOpMember(u: State, revision: int, op: RequestOp, id: int, key: Bytes)
    requires 0 < id && id in u.leases
    requires key in u.leases[id].keys ==> LeaseOf(u.data, key) == id
    ensures id in ApplyOp(u, revision, op).leases
    ensures key in ApplyOp(u, revision, op).leases[id].keys
            <==> if OpTouches(op, key) then op.PutOp? && op.lease == id else key in u.leases[id].keys
  {
  }

  lemma LeaseStepMember(u: State, step: Op, id: int)
    requires IsLeaseStep(step)
    ensures id in Step(u, step).leases ==>
              if id in u.leases && !(step.Grant? && id == u.nextLeaseId)
              then Step(u, step).leases[id].keys == u.leases[id].keys
              else step.Grant? && id == u.nextLeaseId && Step(u, step).leases[id].keys == {}
  {
  }

  /** Whatever the interleaving, a key is in a live lease's key set exactly if the last operation to touch
      it put it under that lease after the lease was granted, or none touched it and it was there before. */
  lemma {:induction false} WeaveMember(s: State, revision: int, items: seq<Item>, id: int, key: Bytes)
    requires Indexed(false, s) && AreLeaseSteps(Leases(items))
    ensures var t := Weave(s, revision, items);
            id in t.leases ==>
              0 < id < t.nextLeaseId && (key in t.leases[id].keys <==> Belongs(s, items, id, key))
  {
    hide Indexed;
    SoundIsIndexed(s);
    if items == [] {
      assert !exists p :: Attached(s, items, p, id, key);
    } else {
      var init, last := items[..|items| - 1], items[|items| - 1];
      assert items == init + [last];
      LastItem(items);
      WeaveMember(s, revision, init, id, key);
      WeaveData(s, revision, init);
      match last
      case Meanwhile(step) =>
        BelongsAfterStep(s, init, step, id, key);
        var u := Weave(s, revision, init);
        LeaseStepMember(u, step, id);
        if id >= u.nextLeaseId {
          NotYetGranted(s, init, id, key);
        }
      case Part(op) =>
        BelongsAfterPart(s, init, op, id, key);
        var u := Weave(s, revision, init);
        SameDataSameEffect(u, u, revision, op);
        if id in u.leases {
          if Belongs(s, init, id, key) {
            BelongsNamesIt(s, revision, init, id, key);
          }
          OneOpMember(u, revision, op, id, key);
        }
    }
  }

  lemma NotYetGranted(s: State, items: seq<Item>, id: int, key: Bytes)
    requires Indexed(false, s) && id >= s.nextLeaseId + GrantsIn(Leases(items))
    ensures !Belongs(s, items, id, key)
  {
    SoundIsIndexed(s);
    BoundsRise(items);
  }

  // ----- When two interleavings come to the same -----

  /** Two interleavings of the same operations and lease steps come to the same if they agree on which
      of the surviving puts came after the Grant of the lease they name. */
  lemma SameWeave(s: State, revision: int, a: seq<Item>, b: seq<Item>)
    requires Indexed(false, s) && Parts(a) == Parts(b) && Leases(a) == Leases(b) && AreLeaseSteps(Leases(a))
    requires |Bounds(a)| == |Bounds(b)| == |Parts(a)|
    requires forall p | 0 <= p < |Parts(a)| ::
               Survives(Parts(a), p) && s.nextLeaseId <= Parts(a)[p].lease < s.nextLeaseId + GrantsIn(Leases(a)) ==>
                 (Parts(a)[p].lease < s.nextLeaseId + Bounds(a)[p]
                  <==> Parts(a)[p].lease < s.nextLeaseId + Bounds(b)[p])
    ensures Weave(s, revision, a) == Weave(s, revision, b)
  {
    hide Indexed;
    var t, u := Weave(s, revision, a), Weave(s, revision, b);
    WeaveData(s, revision, a);
    WeaveData(s, revision, b);
    WeaveTimes(s, revision, a);
    WeaveTimes(s, revision, b);
    forall id | id in t.leases
      ensures id in u.leases && t.leases[id] == u.leases[id]
    {
      forall key
        ensures key in t.leases[id].keys <==> key in u.leases[id].keys
      {
        WeaveMember(s, revision, a, id, key);
        WeaveMember(s, revision, b, id, key);
        SameBelongs(s, a, b, id, key);
        SameBelongs(s, b, a, id, key);
      }
      assert t.leases[id].keys == u.leases[id].keys;
      assert t.leases[id].(keys := {}) == u.leases[id].(keys := {});
    }
    SameMap(t.leases, u.leases);
  }

  lemma SameBelongs(s: State, a: seq<Item>, b: seq<Item>, id: int, key: Bytes)
    requires Parts(a) == Parts(b) && |Bounds(a)| == |Bounds(b)| == |Parts(a)|
    requires Leases(a) == Leases(b) && id < s.nextLeaseId + GrantsIn(Leases(a))
    requires forall p | 0 <= p < |Parts(a)| ::
               Survives(Parts(a), p) && s.nextLeaseId <= Parts(a)[p].lease < s.nextLeaseId + GrantsIn(Leases(a)) ==>
                 (Parts(a)[p].lease < s.nextLeaseId + Bounds(a)[p]
                  <==> Parts(a)[p].lease < s.nextLeaseId + Bounds(b)[p])
    ensures Belongs(s, a, id, key) ==> Belongs(s, b, id, key)
  {
    if p :| Attached(s, a, p, id, key) {
      assert Attached(s, b, p, id, key);
    }
  }

  // ----- Weaving in portions -----

  lemma {:induction false} WeaveAppend(s: State, revision: int, first: seq<Item>, second: seq<Item>)
    ensures Weave(s, revision, first + second) == Weave(Weave(s, revision, first), revision, second)
    ensures Parts(first + second) == Parts(first) + Parts(second)
    ensures Leases(first + second) == Leases(first) + Leases(second)
  {
    hide Step, ApplyOp;
    if second == [] {
      assert first + second == first;
    } else {
      var n := |second| - 1;
      assert (first + second)[..|first + second| - 1] == first + second[..n];
      WeaveAppend(s, revision, first, second[..n]);
    }
  }

  lemma {:induction false} BoundsAppend(first: seq<Item>, second: seq<Item>)
    requires Leases(second) == []
    ensures Bounds(first + second) == Bounds(first) + seq(|Parts(second)|, _ => GrantsIn(Leases(first)))
    ensures Leases(first + second) == Leases(first)
  {
    if second == [] {
      assert first + second == first;
    } else {
      var n := |second| - 1;
      assert (first + second)[..|first + second| - 1] == first + second[..n];
      LastItem(second);
      BoundsAppend(first, second[..n]);
    }
  }

  function Steps(steps: seq<Op>): seq<Item>
  {
    seq(|steps|, i requires 0 <= i < |steps| => Meanwhile(steps[i]))
  }

  function Whole(ops: seq<RequestOp>): seq<Item>
  {
    seq(|ops|, i requires 0 <= i < |ops| => Part(ops[i]))
  }

  lemma {:induction false} WeaveSteps(s: State, revision: int, steps: seq<Op>)
    ensures Weave(s, revision, Steps(steps)) == Run(s, steps)
    ensures Parts(Steps(steps)) == [] && Leases(Steps(steps)) == steps && Bounds(Steps(steps)) == []
  {
    if steps != [] {
      var n := |steps| - 1;
      assert Steps(steps)[..n] == Steps(steps[..n]);
      WeaveSteps(s, revision, steps[..n]);
      assert steps == steps[..n] + [steps[n]];
    }
  }

  lemma {:induction false} WeaveWhole(s: State, revision: int, ops: seq<RequestOp>)
    ensures Weave(s, revision, Whole(ops)) == ApplyOps(s, revision, ops)
    ensures Parts(Whole(ops)) == ops && Leases(Whole(ops)) == []
  {
    hide Step, ApplyOp;
    if ops != [] {
      var n := |ops| - 1;
      assert Whole(ops)[..n] == Whole(ops[..n]);
      WeaveWhole(s, revision, ops[..n]);
      assert ops == ops[..n] + [ops[n]];
    }
  }

  // ----- Between single mutex sections: the events once a call has begun -----

  /** From `s` on the holder of the store's mutex makes all its pending steps, and others grant, renew
      and erase leases. */
  ghost predicate Finishes(s: Shared, events: seq<Event>)
    decreases |events|
  {
    if events == [] then s.pending == []
    else !events[0].Begin? && Enabled(s, events[0]) && Finishes(Advance(s, events[0]), events[1..])
  }

  ghost function Outcome(s: Shared, events: seq<Event>): State
    requires Finishes(s, events)
    decreases |events|
  {
    if events == [] then s.state else Outcome(Advance(s, events[0]), events[1..])
  }

  function StepsIn(events: seq<Event>): seq<Op>
    decreases |events|
  {
    if events == [] then []
    else (if events[0].Between? then [events[0].lease] else []) + StepsIn(events[1..])
  }

  lemma {:induction false} StepsInAreLeaseSteps(s: Shared, events: seq<Event>)
    requires Finishes(s, events)
    ensures AreLeaseSteps(StepsIn(events))
    decreases |events|
  {
    if events != [] {
      StepsInAreLeaseSteps(Advance(s, events[0]), events[1..]);
    }
  }

  lemma {:induction false} StepsInAppend(first: seq<Event>, second: seq<Event>)
    ensures StepsIn(first + second) == StepsIn(first) + StepsIn(second)
    decreases |first|
  {
    if first == [] {
      assert first + second == second;
    } else {
      assert (first + second)[1..] == first[1..] + second && (first + second)[0] == first[0];
      StepsInAppend(first[1..], second);
      var step: seq<Op> := if first[0].Between? then [first[0].lease] else [];
      SeqAssociative(step, StepsIn(first[1..]), StepsIn(second));
    }
  }

  /** The events end as soon as `n` steps of the holder have been made. */
  predicate Tight(n: nat, events: seq<Event>)
    decreases |events|
  {
    if n == 0 then events == []
    else events != [] && Tight(if events[0].Next? then n - 1 else n, events[1..])
  }

  /** The events of the first portion of what is pending, and those of the rest. */
  lemma {:induction false} SplitEvents(u: State, first: seq<Micro>, second: seq<Micro>, events: seq<Event>)
    returns (ev1: seq<Event>, ev2: seq<Event>)
    requires Finishes(Shared(u, first + second), events)
    ensures events == ev1 + ev2 && Tight(|first|, ev1) && Finishes(Shared(u, first), ev1)
    ensures Finishes(Shared(Outcome(Shared(u, first), ev1), second), ev2)
    ensures Outcome(Shared(u, first + second), events)
            == Outcome(Shared(Outcome(Shared(u, first), ev1), second), ev2)
    decreases |events|
  {
    if first == [] {
      assert first + second == second;
      ev1, ev2 := [], events;
      assert events == [] + events;
    } else {
      var e := events[0];
      if e.Next? {
        assert (first + second)[1..] == first[1..] + second;
        ev1, ev2 := SplitEvents(DoMicro(u, first[0]), first[1..], second, events[1..]);
      } else {
        ev1, ev2 := SplitEvents(Step(u, e.lease), first, second, events[1..]);
      }
      var rest := ev1;
      ev1 := [e] + rest;
      assert ev1[1..] == rest && events == [e] + events[1..];
    }
  }

  predicate NoAttach(ms: seq<Micro>)
  {
    forall i | 0 <= i < |ms| :: !ms[i].Attach?
  }

  lemma {:induction false} CommutesRun(s: State, ms: seq<Micro>, steps: seq<Op>)
    requires NoAttach(ms) && AreLeaseSteps(steps)
    ensures Run(RunMicros(s, ms), steps) == RunMicros(Run(s, steps), ms)
  {
    if steps != [] {
      var n := |steps| - 1;
      CommutesRun(s, ms, steps[..n]);
      assert IsLeaseStep(steps[n]);
      Commutes(Run(s, steps[..n]), ms, steps[n]);
    }
  }

  lemma RunCons(s: State, step: Op, steps: seq<Op>)
    ensures Run(s, [step] + steps) == Run(Step(s, step), steps)
  {
    RunAppend(s, [step], steps);
    assert [step][..0] == [];
  }

  lemma RunNothing(s: State)
    ensures Run(s, []) == s
  {
  }

  /** Steps that attach nothing may all be made first. */
  lemma {:induction false} StepsLast(u: State, ms: seq<Micro>, events: seq<Event>)
    requires Finishes(Shared(u, ms), events) && NoAttach(ms)
    ensures Outcome(Shared(u, ms), events) == Run(RunMicros(u, ms), StepsIn(events))
    decreases |events|
  {
    hide Step, Run;
    if events == [] {
      RunNothing(u);
    } else {
      match events[0]
      case Next =>
        assert NoAttach(ms[1..]);
        StepsLast(DoMicro(u, ms[0]), ms[1..], events[1..]);
        assert [] + StepsIn(events[1..]) == StepsIn(events[1..]);
      case Between(step) =>
        StepsLast(Step(u, step), ms, events[1..]);
        Commutes(u, ms, step);
        RunCons(RunMicros(u, ms), step, StepsIn(events[1..]));
    }
  }

  /** Steps of which only the last attaches may all be made last. */
  lemma {:induction false} StepsFirst(u: State, ms: seq<Micro>, events: seq<Event>)
    requires Finishes(Shared(u, ms), events) && Tight(|ms|, events)
    requires ms != [] ==> NoAttach(ms[..|ms| - 1])
    ensures Outcome(Shared(u, ms), events) == RunMicros(Run(u, StepsIn(events)), ms)
    decreases |events|
  {
    if events != [] {
      match events[0]
      case Next =>
        var m, rest := ms[0], ms[1..];
        assert [] + StepsIn(events[1..]) == StepsIn(events[1..]);
        if rest == [] {
          assert events[1..] == [];
        } else {
          assert rest[..|rest| - 1] == ms[..|ms| - 1][1..];
          StepsFirst(DoMicro(u, m), rest, events[1..]);
          assert NoAttach([m]) by { assert ms[..|ms| - 1][0] == m; }
          StepsInAreLeaseSteps(Shared(DoMicro(u, m), rest), events[1..]);
          CommutesRun(u, [m], StepsIn(events));
          RunOneMicro(u, m);
          RunOneMicro(Run(u, StepsIn(events)), m);
        }
      case Between(step) =>
        StepsFirst(Step(u, step), ms, events[1..]);
        RunCons(u, step, StepsIn(events[1..]));
    }
  }

  lemma {:induction false} LeaseStepsKeepData(s: State, steps: seq<Op>)
    requires AreLeaseSteps(steps)
    ensures Run(s, steps).data == s.data && Run(s, steps).revision == s.revision
    ensures Run(Bumped(s), steps) == Bumped(Run(s, steps))
  {
    if steps != [] {
      LeaseStepsKeepData(s, steps[..|steps| - 1]);
      assert IsLeaseStep(steps[|steps| - 1]);
    }
  }

  lemma OpMicrosAreOp(s: State, data: Data, revision: int, op: RequestOp, order: seq<Bytes>)
    requires s.data == data && ValidOrder(data, op, order)
    ensures RunMicros(s, OpMicros(data, revision, op, order)) == ApplyOp(s, revision, op)
  {
    match op
    case PutOp(key, value, lease, _) => PutMicrosAreWrite(s, revision, key, value, lease);
    case DeleteOp(start, end, _) =>
      DeleteMicrosAreRemove(s, data, order);
      assert (set k | k in order) == InRangeKeys(data, start, end);
    case _ =>
  }

  lemma {:induction false} DeletesAttachNothing(data: Data, order: seq<Bytes>)
    ensures NoAttach(DeleteMicros(data, order))
  {
    if order != [] {
      DeletesAttachNothing(data, order[1..]);
    }
  }

  /** An operation is one step among the others' steps: it takes effect with its AttachKey. */
  lemma OpAmongSteps(u: State, data: Data, revision: int, op: RequestOp, order: seq<Bytes>, events: seq<Event>)
    returns (before: seq<Op>, after: seq<Op>)
    requires u.data == data && ValidOrder(data, op, order)
    requires Finishes(Shared(u, OpMicros(data, revision, op, order)), events)
    ensures StepsIn(events) == before + after && AreLeaseSteps(before) && AreLeaseSteps(after)
    ensures Outcome(Shared(u, OpMicros(data, revision, op, order)), events)
            == Run(ApplyOp(Run(u, before), revision, op), after)
  {
    hide Step, Run, ApplyOp;
    var ms := OpMicros(data, revision, op, order);
    StepsInAreLeaseSteps(Shared(u, ms), events);
    if op.PutOp? {
      var previous := LeaseOf(data, op.key);
      var detach := if previous > 0 then [Detach(previous, op.key)] else [];
      var attach := if op.lease > 0 then [Attach(op.lease, op.key)] else [];
      var store := [Store(op.key, NewInfo(data, revision, op.key, op.value, op.lease))];
      var ev1, ev2 := SplitEvents(u, detach + attach, store, events);
      StepsInAreLeaseSteps(Shared(u, detach + attach), ev1);
      StepsFirst(u, detach + attach, ev1);
      before, after := StepsIn(ev1), StepsIn(ev2);
      var v := Run(u, before);
      StepsInAreLeaseSteps(Shared(RunMicros(v, detach + attach), store), ev2);
      StepsLast(RunMicros(v, detach + attach), store, ev2);
      StepsInAppend(ev1, ev2);
      RunMicrosAppend(v, detach + attach, store);
      LeaseStepsKeepData(u, before);
      OpMicrosAreOp(v, data, revision, op, order);
    } else {
      before, after := [], StepsIn(events);
      DeletesAttachNothing(data, order);
      StepsLast(u, ms, events);
      RunNothing(u);
      OpMicrosAreOp(u, data, revision, op, order);
    }
  }

  lemma ApplyOpData(a: State, b: State, revision: int, op: RequestOp, steps: seq<Op>)
    requires a.data == b.data && AreLeaseSteps(steps)
    ensures Run(ApplyOp(a, revision, op), steps).data == ApplyOp(b, revision, op).data
  {
    SameDataSameEffect(a, b, revision, op);
    LeaseStepsKeepData(ApplyOp(a, revision, op), steps);
  }

  lemma WeavePart(u: State, revision: int, op: RequestOp)
    ensures Weave(u, revision, [Part(op)]) == ApplyOp(u, revision, op)
    ensures Parts([Part(op)]) == [op] && Leases([Part(op)]) == []
  {
    assert [Part(op)][..0] == [];
  }

  lemma WeaveStep(u: State, revision: int, step: Op)
    ensures Weave(u, revision, [Meanwhile(step)]) == Step(u, step)
    ensures Parts([Meanwhile(step)]) == [] && Leases([Meanwhile(step)]) == [step]
  {
    assert [Meanwhile(step)][..0] == [];
  }

  lemma WeaveOne(u: State, revision: int, before: seq<Op>, op: RequestOp, after: seq<Op>, rest: seq<Item>)
    ensures var items := Steps(before) + [Part(op)] + Steps(after) + rest;
            && Parts(items) == [op] + Parts(rest)
            && Leases(items) == before + after + Leases(rest)
            && Weave(u, revision, items)
               == Weave(Run(ApplyOp(Run(u, before), revision, op), after), revision, rest)
  {
    hide Step, Run, ApplyOp, Weave, Parts, Leases;
    var one := [Part(op)];
    WeaveSteps(u, revision, before);
    WeaveAppend(u, revision, Steps(before), one);
    var v := ApplyOp(Run(u, before), revision, op);
    WeavePart(Run(u, before), revision, op);
    WeaveSteps(v, revision, after);
    WeaveAppend(u, revision, Steps(before) + one, Steps(after));
    WeaveAppend(u, revision, Steps(before) + one + Steps(after), rest);
  }

  /** Every interleaving comes to the same as one in which each operation is a single step. */
  lemma {:induction false} Normalise(
    u: State, b: State, revision: int, ops: seq<RequestOp>, orders: seq<seq<Bytes>>, events: seq<Event>)
    returns (items: seq<Item>)
    requires u.data == b.data && ValidOrders(b, revision, ops, orders)
    requires Finishes(Shared(u, OpsMicros(b, revision, ops, orders)), events)
    ensures Parts(items) == ops && Leases(items) == StepsIn(events)
    ensures Weave(u, revision, items) == Outcome(Shared(u, OpsMicros(b, revision, ops, orders)), events)
    decreases |ops|
  {
    hide Step, Run, ApplyOp;
    if ops == [] {
      StepsLast(u, [], events);
      items := Steps(StepsIn(events));
      WeaveSteps(u, revision, StepsIn(events));
    } else {
      var first := OpMicros(b.data, revision, ops[0], orders[0]);
      var next := ApplyOp(b, revision, ops[0]);
      var second := OpsMicros(next, revision, ops[1..], orders[1..]);
      var ev1, ev2 := SplitEvents(u, first, second, events);
      var before, after := OpAmongSteps(u, b.data, revision, ops[0], orders[0], ev1);
      var v := Outcome(Shared(u, first), ev1);
      LeaseStepsKeepData(u, before);
      ApplyOpData(Run(u, before), b, revision, ops[0], after);
      var rest := Normalise(v, next, revision, ops[1..], orders[1..], ev2);
      items := Steps(before) + [Part(ops[0])] + Steps(after) + rest;
      WeaveOne(u, revision, before, ops[0], after, rest);
      StepsInAppend(ev1, ev2);
    }
  }

  // ----- And every such interleaving is possible -----

  function Nexts(n: nat): seq<Event>
  {
    seq(n, _ => Next)
  }

  lemma {:induction false} NextsFirst(u: State, first: seq<Micro>, second: seq<Micro>, rest: seq<Event>)
    requires Finishes(Shared(RunMicros(u, first), second), rest)
    ensures var events := Nexts(|first|) + rest;
            && Finishes(Shared(u, first + second), events)
            && Outcome(Shared(u, first + second), events) == Outcome(Shared(RunMicros(u, first), second), rest)
            && StepsIn(events) == StepsIn(rest)
    decreases |first|
  {
    var events := Nexts(|first|) + rest;
    if first == [] {
      assert events == rest && first + second == second;
    } else {
      NextsFirst(DoMicro(u, first[0]), first[1..], second, rest);
      assert (first + second)[1..] == first[1..] + second;
      assert events[1..] == Nexts(|first| - 1) + rest && events[0] == Next;
    }
  }

  lemma BetweenFirst(u: State, pending: seq<Micro>, step: Op, rest: seq<Event>)
    requires IsLeaseStep(step) && Finishes(Shared(Step(u, step), pending), rest)
    ensures var events := [Between(step)] + rest;
            && Finishes(Shared(u, pending), events)
            && Outcome(Shared(u, pending), events) == Outcome(Shared(Step(u, step), pending), rest)
            && StepsIn(events) == [step] + StepsIn(rest)
  {
    var events := [Between(step)] + rest;
    assert events[1..] == rest;
  }

  lemma OneStepKeepsData(u: State, step: Op)
    requires IsLeaseStep(step)
    ensures Step(u, step).data == u.data
  {
  }

  lemma WeaveFirst(u: State, revision: int, items: seq<Item>)
    requires items != []
    ensures items[0].Meanwhile? ==>
              && Weave(u, revision, items) == Weave(Step(u, items[0].step), revision, items[1..])
              && Parts(items) == Parts(items[1..]) && Leases(items) == [items[0].step] + Leases(items[1..])
    ensures items[0].Part? ==>
              && Weave(u, revision, items) == Weave(ApplyOp(u, revision, items[0].op), revision, items[1..])
              && Parts(items) == [items[0].op] + Parts(items[1..]) && Leases(items) == Leases(items[1..])
  {
    hide Weave, Parts, Leases, Step, ApplyOp;
    var rest := items[1..];
    assert items == [items[0]] + rest;
    WeaveAppend(u, revision, [items[0]], rest);
    match items[0]
    case Meanwhile(step) =>
      WeaveStep(u, revision, step);
      assert [] + Parts(rest) == Parts(rest);
    case Part(op) =>
      WeavePart(u, revision, op);
      assert [] + Leases(rest) == Leases(rest);
  }

  lemma FirstOpMicros(b: State, revision: int, ops: seq<RequestOp>, orders: seq<seq<Bytes>>)
    requires ops != [] && ValidOrders(b, revision, ops, orders)
    ensures |orders| == |ops| && ValidOrder(b.data, ops[0], orders[0])
    ensures ValidOrders(ApplyOp(b, revision, ops[0]), revision, ops[1..], orders[1..])
    ensures OpsMicros(b, revision, ops, orders)
            == OpMicros(b.data, revision, ops[0], orders[0])
               + OpsMicros(ApplyOp(b, revision, ops[0]), revision, ops[1..], orders[1..])
  {
  }

  /** The events carry out the weave. */
  ghost predicate Realises(
    u: State, b: State, revision: int, items: seq<Item>, orders: seq<seq<Bytes>>, events: seq<Event>)
    requires |orders| == |Parts(items)|
  {
    var start := Shared(u, OpsMicros(b, revision, Parts(items), orders));
    Finishes(start, events) && Outcome(start, events) == Weave(u, revision, items) && StepsIn(events) == Leases(items)
  }

  lemma RealiseStep(
    u: State, b: State, revision: int, items: seq<Item>, orders: seq<seq<Bytes>>, events: seq<Event>)
    requires items != [] && items[0].Meanwhile? && IsLeaseStep(items[0].step)
    requires |orders| == |Parts(items[1..])|
    requires Realises(Step(u, items[0].step), b, revision, items[1..], orders, events)
    ensures |orders| == |Parts(items)| && Realises(u, b, revision, items, orders, [Between(items[0].step)] + events)
  {
    hide Weave, Parts, Leases, Step, Finishes, Outcome, StepsIn, OpsMicros;
    WeaveFirst(u, revision, items);
    BetweenFirst(u, OpsMicros(b, revision, Parts(items[1..]), orders), items[0].step, events);
  }

  lemma RealisePart(
    u: State, b: State, revision: int, items: seq<Item>, orders: seq<seq<Bytes>>, events: seq<Event>)
    requires items != [] && items[0].Part? && u.data == b.data
    requires ValidOrders(b, revision, Parts(items), orders)
    requires Parts(items) == [items[0].op] + Parts(items[1..]) && |orders| == |Parts(items)|
    requires Realises(ApplyOp(u, revision, items[0].op), ApplyOp(b, revision, items[0].op), revision, items[1..],
                      orders[1..], events)
    ensures Realises(u, b, revision, items, orders,
                     Nexts(|OpMicros(b.data, revision, items[0].op, orders[0])|) + events)
  {
    hide Weave, Parts, Leases, Step, ApplyOp, OpMicros, RunMicros, Finishes, Outcome, StepsIn, OpsMicros, ValidOrders;
    var op := items[0].op;
    WeaveFirst(u, revision, items);
    FirstOpMicros(b, revision, Parts(items), orders);
    assert Parts(items)[1..] == Parts(items[1..]) && Parts(items)[0] == op;
    var first := OpMicros(b.data, revision, op, orders[0]);
    var next := ApplyOp(b, revision, op);
    OpMicrosAreOp(u, b.data, revision, op, orders[0]);
    NextsFirst(u, first, OpsMicros(next, revision, Parts(items[1..]), orders[1..]), events);
  }

  lemma LaterSteps(items: seq<Item>)
    requires items != [] && AreLeaseSteps(Leases(items))
    ensures AreLeaseSteps(Leases(items[1..]))
    ensures items[0].Meanwhile? ==> IsLeaseStep(items[0].step)
  {
    hide Parts, Leases, Weave;
    WeaveFirst(INIT, 0, items);
    if items[0].Meanwhile? {
      StepsTail(items[0].step, Leases(items[1..]));
    }
  }

  lemma StepsTail(step: Op, rest: seq<Op>)
    requires AreLeaseSteps([step] + rest)
    ensures IsLeaseStep(step) && AreLeaseSteps(rest)
  {
    var steps := [step] + rest;
    assert steps[0] == step && forall i | 0 <= i < |rest| :: rest[i] == steps[i + 1];
  }

  lemma {:induction false} Realise(
    u: State, b: State, revision: int, items: seq<Item>, orders: seq<seq<Bytes>>) returns (events: seq<Event>)
    requires u.data == b.data && AreLeaseSteps(Leases(items))
    requires ValidOrders(b, revision, Parts(items), orders)
    ensures |orders| == |Parts(items)| && Realises(u, b, revision, items, orders, events)
    decreases |items|, 1
  {
    if items == [] {
      events := [];
    } else if items[0].Meanwhile? {
      events := RealiseFromStep(u, b, revision, items, orders);
    } else {
      events := RealiseFromPart(u, b, revision, items, orders);
    }
  }

  lemma {:induction false} RealiseFromStep(
    u: State, b: State, revision: int, items: seq<Item>, orders: seq<seq<Bytes>>) returns (events: seq<Event>)
    requires items != [] && items[0].Meanwhile?
    requires u.data == b.data && AreLeaseSteps(Leases(items))
    requires ValidOrders(b, revision, Parts(items), orders)
    ensures |orders| == |Parts(items)| && Realises(u, b, revision, items, orders, events)
    decreases |items|, 0
  {
    hide Weave, Parts, Leases, Step, ApplyOp, OpMicros, OpsMicros, ValidOrders, ValidOrder, Realises;
    WeaveFirst(u, revision, items);
    LaterSteps(items);
    OneStepKeepsData(u, items[0].step);
    var later := Realise(Step(u, items[0].step), b, revision, items[1..], orders);
    RealiseStep(u, b, revision, items, orders, later);
    events := [Between(items[0].step)] + later;
  }

  lemma {:induction false} RealiseFromPart(
    u: State, b: State, revision: int, items: seq<Item>, orders: seq<seq<Bytes>>) returns (events: seq<Event>)
    requires items != [] && items[0].Part?
    requires u.data == b.data && AreLeaseSteps(Leases(items))
    requires ValidOrders(b, revision, Parts(items), orders)
    ensures |orders| == |Parts(items)| && Realises(u, b, revision, items, orders, events)
    decreases |items|, 0
  {
    hide Weave, Parts, Leases, Step, ApplyOp, OpMicros, OpsMicros, ValidOrders, ValidOrder, Realises;
    var op := items[0].op;
    WeaveFirst(u, revision, items);
    LaterSteps(items);
    assert Parts(items)[0] == op && Parts(items)[1..] == Parts(items[1..]);
    FirstOpMicros(b, revision, Parts(items), orders);
    SameDataSameEffect(u, b, revision, op);
    var later := Realise(ApplyOp(u, revision, op), ApplyOp(b, revision, op), revision, items[1..], orders[1..]);
    RealisePart(u, b, revision, items, orders, later);
    events := Nexts(|OpMicros(b.data, revision, op, orders[0])|) + later;
  }

  // ----- Which calls can be torn -----

  function Placed(s: State, call: Op, steps: seq<Op>, j: nat): State
    requires j <= |steps|
  {
    Run(s, steps[..j] + [call] + steps[j..])
  }

  /** The interleaving of the call with lease steps ends in a state that no place of the whole call among
      those steps leads to. */
  ghost predicate TornBy(s: State, call: Op, orders: seq<seq<Bytes>>, events: seq<Event>)
  {
    var free := Shared(s, []);
    && Enabled(free, Begin(call, orders)) && Finishes(Advance(free, Begin(call, orders)), events)
    && forall j | 0 <= j <= |StepsIn(events)| ::
         Placed(s, call, StepsIn(events), j) != Outcome(Advance(free, Begin(call, orders)), events)
  }

  ghost predicate Tearable(s: State, call: Op)
  {
    exists orders, events :: TornBy(s, call, orders, events)
  }

  /** Two puts that are not overwritten or deleted by a later operation name leases that are yet to be
      granted, the second no earlier to come than the first. */
  ghost predicate TearingPair(ops: seq<RequestOp>, next: int)
  {
    exists i, j :: i < j && Survives(ops, i) && Survives(ops, j) && next <= ops[i].lease <= ops[j].lease
  }

  function PlacedItems(ops: seq<RequestOp>, steps: seq<Op>, j: nat): seq<Item>
    requires j <= |steps|
  {
    Steps(steps[..j]) + Whole(ops) + Steps(steps[j..])
  }

  lemma {:induction false} BoundsAppendSteps(first: seq<Item>, steps: seq<Op>)
    ensures Bounds(first + Steps(steps)) == Bounds(first)
  {
    var all := first + Steps(steps);
    if steps == [] {
      assert all == first;
    } else {
      var n := |steps| - 1;
      assert Steps(steps) == Steps(steps[..n]) + [Meanwhile(steps[n])];
      assert all[..|all| - 1] == first + Steps(steps[..n]);
      BoundsAppendSteps(first, steps[..n]);
    }
  }

  lemma PlacedShape(ops: seq<RequestOp>, steps: seq<Op>, j: nat)
    requires j <= |steps|
    ensures var items := PlacedItems(ops, steps, j);
            && Parts(items) == ops && Leases(items) == steps
            && Bounds(items) == seq(|ops|, _ => GrantsIn(steps[..j]))
  {
    hide Parts, Leases, Bounds, Weave;
    var early, late := steps[..j], steps[j..];
    WeaveSteps(INIT, 0, early);
    WeaveSteps(INIT, 0, late);
    WeaveWhole(INIT, 0, ops);
    WeaveAppend(INIT, 0, Steps(early), Whole(ops));
    WeaveAppend(INIT, 0, Steps(early) + Whole(ops), Steps(late));
    BoundsAppend(Steps(early), Whole(ops));
    BoundsAppendSteps(Steps(early) + Whole(ops), late);
    assert early + late == steps;
  }

  lemma PlacedIsWeave(s: State, call: Op, steps: seq<Op>, j: nat)
    requires (call.Put? || call.Delete? || call.Txn?) && AreLeaseSteps(steps) && j <= |steps|
    ensures Weave(Bumped(s), s.revision + 1, PlacedItems(AsOps(s, call), steps, j)) == Placed(s, call, steps, j)
  {
    hide Step, Run, ApplyOps, Weave;
    var ops, r := AsOps(s, call), s.revision + 1;
    var early, late := steps[..j], steps[j..];
    var u := Run(s, early);
    LeaseStepsKeepData(s, early);
    StepAsOps(u, call);
    WeaveSteps(Bumped(s), r, early);
    WeaveWhole(Bumped(u), r, ops);
    WeaveAppend(Bumped(s), r, Steps(early), Whole(ops));
    WeaveSteps(Step(u, call), r, late);
    WeaveAppend(Bumped(s), r, Steps(early) + Whole(ops), Steps(late));
    RunSnoc(s, early, call);
    RunAppend(s, early + [call], late);
  }

  lemma {:induction false} PrefixWithGrants(steps: seq<Op>, n: nat) returns (j: nat)
    requires n <= GrantsIn(steps)
    ensures j <= |steps| && GrantsIn(steps[..j]) == n
  {
    if n == GrantsIn(steps) {
      assert steps[..|steps|] == steps;
      j := |steps|;
    } else {
      var init := steps[..|steps| - 1];
      j := PrefixWithGrants(init, n);
      assert init[..j] == steps[..j];
    }
  }

  lemma BumpedIndexed(s: State)
    requires Indexed(false, s)
    ensures Indexed(false, Bumped(s))
  {
    SoundIsIndexed(s);
    SoundIsIndexed(Bumped(s));
  }

  /** A surviving put whose lease was granted, but only after it. */
  ghost predicate Missed(s: State, items: seq<Item>, p: int)
  {
    var ops := Parts(items);
    && Survives(ops, p) && p < |Bounds(items)|
    && s.nextLeaseId + Bounds(items)[p] <= ops[p].lease < s.nextLeaseId + GrantsIn(Leases(items))
  }

  lemma {:induction false} FirstMissed(s: State, items: seq<Item>, p: int) returns (q: int)
    requires Missed(s, items, p)
    ensures Missed(s, items, q)
    ensures forall x | Missed(s, items, x) :: Parts(items)[q].lease <= Parts(items)[x].lease
    decreases Parts(items)[p].lease - s.nextLeaseId
  {
    if x :| Missed(s, items, x) && Parts(items)[x].lease < Parts(items)[p].lease {
      q := FirstMissed(s, items, x);
    } else {
      q := p;
    }
  }

  /** Had exactly `c` Grants come before the whole call, the same surviving puts would have been in time. */
  ghost predicate Threshold(s: State, items: seq<Item>, c: int)
    requires |Bounds(items)| == |Parts(items)|
  {
    forall p | 0 <= p < |Parts(items)| && Survives(Parts(items), p)
               && s.nextLeaseId <= Parts(items)[p].lease < s.nextLeaseId + GrantsIn(Leases(items)) ::
      Parts(items)[p].lease < s.nextLeaseId + Bounds(items)[p] <==> Parts(items)[p].lease < s.nextLeaseId + c
  }

  lemma FindThreshold(s: State, items: seq<Item>) returns (c: nat)
    requires !TearingPair(Parts(items), s.nextLeaseId)
    ensures |Bounds(items)| == |Parts(items)| && c <= GrantsIn(Leases(items)) && Threshold(s, items, c)
  {
    hide Parts, Bounds, Leases, GrantsIn;
    BoundsRise(items);
    var ops := Parts(items);
    if p :| Missed(s, items, p) {
      var q := FirstMissed(s, items, p);
      c := ops[q].lease - s.nextLeaseId;
      forall x | 0 <= x < |ops| && Survives(ops, x)
                 && s.nextLeaseId <= ops[x].lease < s.nextLeaseId + GrantsIn(Leases(items))
        ensures ops[x].lease < s.nextLeaseId + Bounds(items)[x] <==> ops[x].lease < s.nextLeaseId + c
      {
        assert Missed(s, items, x) <==> !(ops[x].lease < s.nextLeaseId + Bounds(items)[x]);
        assert Survives(ops, q) && (x > q ==> ops[x].lease < ops[q].lease);
      }
    } else {
      c := GrantsIn(Leases(items));
      forall x | 0 <= x < |ops| && Survives(ops, x)
                 && s.nextLeaseId <= ops[x].lease < s.nextLeaseId + GrantsIn(Leases(items))
        ensures ops[x].lease < s.nextLeaseId + Bounds(items)[x]
      {
        assert !Missed(s, items, x);
      }
    }
  }

  /** Without such a pair there is a place for the whole call: right before the first Grant that came too
      late for one of its puts. */
  lemma NoPairFits(s: State, call: Op, items: seq<Item>) returns (j: nat)
    requires Indexed(false, s) && (call.Put? || call.Delete? || call.Txn?)
    requires Parts(items) == AsOps(s, call) && AreLeaseSteps(Leases(items))
    requires !TearingPair(Parts(items), s.nextLeaseId)
    ensures j <= |Leases(items)|
    ensures Weave(Bumped(s), s.revision + 1, items) == Placed(s, call, Leases(items), j)
  {
    hide Indexed, Step, Run, Weave, Parts, Bounds, Leases, TearingPair, Survives, PlacedItems, AsOps, GrantsIn;
    var c := FindThreshold(s, items);
    var ops, steps := Parts(items), Leases(items);
    j := PrefixWithGrants(steps, c);
    PlacedShape(ops, steps, j);
    BumpedIndexed(s);
    PlacedIsWeave(s, call, steps, j);
    SameWeave(Bumped(s), s.revision + 1, items, PlacedItems(ops, steps, j));
  }

  lemma {:induction false} GrantsAreSteps(n: nat)
    ensures AreLeaseSteps(Grants(n)) && GrantsIn(Grants(n)) == n
  {
    if n > 0 {
      assert Grants(n)[..n - 1] == Grants(n - 1);
      GrantsAreSteps(n - 1);
    }
  }

  /** The call stops after its first m operations while n leases are granted. */
  function Interrupted(ops: seq<RequestOp>, m: nat, n: nat): seq<Item>
    requires m <= |ops|
  {
    Whole(ops[..m]) + Steps(Grants(n)) + Whole(ops[m..])
  }

  lemma InterruptedShape(ops: seq<RequestOp>, m: nat, n: nat)
    requires m <= |ops|
    ensures var items := Interrupted(ops, m, n);
            && Parts(items) == ops && Leases(items) == Grants(n)
            && Bounds(items) == seq(m, _ => 0) + seq(|ops| - m, _ => n)
  {
    hide Parts, Leases, Bounds, Weave;
    var first, second := Whole(ops[..m]), Whole(ops[m..]);
    WeaveWhole(INIT, 0, ops[..m]);
    WeaveWhole(INIT, 0, ops[m..]);
    WeaveSteps(INIT, 0, Grants(n));
    GrantsAreSteps(n);
    WeaveAppend(INIT, 0, first, Steps(Grants(n)));
    WeaveAppend(INIT, 0, first + Steps(Grants(n)), second);
    assert [] + first == first;
    BoundsAppend([], first);
    NothingBound();
    BoundsAppendSteps(first, Grants(n));
    BoundsAppend(first + Steps(Grants(n)), second);
    assert ops[..m] + ops[m..] == ops;
  }

  lemma NothingBound()
    ensures Bounds([]) == [] && Leases([]) == [] && GrantsIn([]) == 0
  {
  }

  /** Only the put that survives can have attached the key. */
  lemma BelongsBySurvivor(s: State, items: seq<Item>, p: int)
    requires Survives(Parts(items), p) && |Bounds(items)| == |Parts(items)|
    requires Indexed(false, s) && s.nextLeaseId <= Parts(items)[p].lease
    ensures Belongs(s, items, Parts(items)[p].lease, Parts(items)[p].key)
            <==> Parts(items)[p].lease < s.nextLeaseId + Bounds(items)[p]
  {
    var ops := Parts(items);
    var id, key := ops[p].lease, ops[p].key;
    SoundIsIndexed(s);
    if Belongs(s, items, id, key) {
      var q :| Attached(s, items, q, id, key);
      if q < p {
        assert OpTouches(ops[p], ops[q].key);
      } else if p < q {
        assert OpTouches(ops[q], ops[p].key);
      }
    }
    if id < s.nextLeaseId + Bounds(items)[p] {
      assert Attached(s, items, p, id, key);
    }
  }

  lemma GrantedIsLive(s: State, revision: int, items: seq<Item>, n: nat, id: int)
    requires Leases(items) == Grants(n) && s.nextLeaseId <= id < s.nextLeaseId + n
    ensures id in Weave(s, revision, items).leases
  {
    GrantsAreSteps(n);
    WeaveTimes(s, revision, items);
    GrantsReach(s, n);
  }

  /** With leases granted between the two, the second put is attached and the first is not; no place for
      the whole call does that. */
  lemma PairIsSplit(s: State, revision: int, a: seq<Item>, b: seq<Item>, n: nat, c: nat, i: int, j: int)
    requires Indexed(false, s) && Parts(a) == Parts(b) && Leases(a) == Leases(b) == Grants(n)
    requires |Bounds(a)| == |Parts(a)| && Bounds(b) == seq(|Parts(a)|, _ => c)
    requires Survives(Parts(a), i) && Survives(Parts(a), j) && i < j
    requires var ops, next := Parts(a), s.nextLeaseId;
             && next <= ops[i].lease <= ops[j].lease < next + n
             && next + Bounds(a)[i] <= ops[i].lease && ops[j].lease < next + Bounds(a)[j]
    ensures Weave(s, revision, a) != Weave(s, revision, b)
  {
    hide Weave, Parts, Leases, Bounds, Indexed;
    var ops := Parts(a);
    GrantsAreSteps(n);
    forall p, items | p in {i, j} && items in {a, b}
      ensures ops[p].lease in Weave(s, revision, items).leases
      ensures ops[p].key in Weave(s, revision, items).leases[ops[p].lease].keys
              <==> ops[p].lease < s.nextLeaseId + Bounds(items)[p]
    {
      GrantedIsLive(s, revision, items, n, ops[p].lease);
      WeaveMember(s, revision, items, ops[p].lease, ops[p].key);
      BelongsBySurvivor(s, items, p);
    }
  }

  lemma PairTears(s: State, call: Op)
    requires Indexed(false, s) && (call.Put? || call.Delete? || call.Txn?)
    requires TearingPair(AsOps(s, call), s.nextLeaseId)
    ensures Tearable(s, call)
  {
    hide Weave, Parts, Leases, Bounds, Indexed, Step, Run, ApplyOps, ValidOrders, OpsMicros, Finishes, Outcome;
    var ops, r, b := AsOps(s, call), s.revision + 1, Bumped(s);
    var i, j :| i < j && Survives(ops, i) && Survives(ops, j) && s.nextLeaseId <= ops[i].lease <= ops[j].lease;
    var n := ops[j].lease - s.nextLeaseId + 1;
    var items := Interrupted(ops, i + 1, n);
    InterruptedShape(ops, i + 1, n);
    GrantsAreSteps(n);
    BumpedIndexed(s);
    var orders := SomeOrders(b, r, ops);
    var events := Realise(b, b, r, items, orders);
    forall k | 0 <= k <= |StepsIn(events)|
      ensures Placed(s, call, StepsIn(events), k) != Outcome(Shared(b, OpsMicros(b, r, ops, orders)), events)
    {
      PlacedShape(ops, Grants(n), k);
      PlacedIsWeave(s, call, Grants(n), k);
      PairIsSplit(b, r, items, PlacedItems(ops, Grants(n), k), n, GrantsIn(Grants(n)[..k]), i, j);
    }
    assert TornBy(s, call, orders, events);
  }

  /** A call can be torn if and only if two of its puts that no later operation overwrites or deletes name
      leases yet to be granted, the second the same lease or one granted later than the first: the Grants of
      both can then come between the two puts. Every other call, whatever lease steps come between its own,
      ends as if it had been made whole somewhere among them. */
  lemma TearableIff(s: State, call: Op)
    requires Indexed(false, s) && (call.Put? || call.Delete? || call.Txn?)
    ensures Tearable(s, call) <==> TearingPair(AsOps(s, call), s.nextLeaseId)
  {
    hide Weave, Parts, Leases, Bounds, Indexed, Step, Run, ApplyOps, OpsMicros, Finishes, Outcome;
    if TearingPair(AsOps(s, call), s.nextLeaseId) {
      PairTears(s, call);
    } else if Tearable(s, call) {
      var orders, events :| TornBy(s, call, orders, events);
      var b, r, ops := Bumped(s), s.revision + 1, AsOps(s, call);
      var items := Normalise(b, b, r, ops, orders, events);
      StepsInAreLeaseSteps(Shared(b, OpsMicros(b, r, ops, orders)), events);
      var j := NoPairFits(s, call, items);
      assert false;
    }
  }

  // ----- Whole interleavings -----

  lemma {:induction false} TailFinishes(events: seq<Event>, m: nat)
    requires Possible(events) && m <= |events| && After(events).pending == []
    requires forall i | m <= i < |events| :: !events[i].Begin?
    ensures Possible(events[..m]) && Finishes(After(events[..m]), events[m..])
    ensures Outcome(After(events[..m]), events[m..]) == After(events).state
    decreases |events| - m
  {
    hide Enabled, Advance;
    PrefixPossible(events, m);
    if m == |events| {
      assert events[..m] == events;
    } else {
      TailFinishes(events, m + 1);
      assert events[m..][0] == events[m] && events[m..][1..] == events[m + 1..];
    }
  }

  lemma {:induction false} LastBegin(events: seq<Event>) returns (b: int)
    ensures -1 <= b < |events| && (b >= 0 ==> events[b].Begin?)
    ensures forall i | b < i < |events| :: !events[i].Begin?
  {
    if events == [] {
      b := -1;
    } else if events[|events| - 1].Begin? {
      b := |events| - 1;
    } else {
      b := LastBegin(events[..|events| - 1]);
    }
  }

  lemma {:induction false} AtomicTail(events: seq<Event>, m: nat)
    requires m <= |events| && forall i | m <= i < |events| :: !events[i].Begin?
    ensures AtomicOps(events) == AtomicOps(events[..m]) + StepsIn(events[m..])
    decreases |events| - m
  {
    if m == |events| {
      assert events[..m] == events;
    } else {
      AtomicTail(events, m + 1);
      assert events[..m + 1][..m] == events[..m] && events[..m + 1][m] == events[m];
      assert AtomicOps(events[..m + 1]) == AtomicOps(events[..m]) + AtomicOp(events[m]);
      assert events[m..][0] == events[m] && events[m..][1..] == events[m + 1..];
      assert StepsIn(events[m..]) == AtomicOp(events[m]) + StepsIn(events[m + 1..]);
      SeqAssociative(AtomicOps(events[..m]), AtomicOp(events[m]), StepsIn(events[m + 1..]));
    }
  }

  function LeaseStepsOf(ops: seq<Op>): seq<Op>
  {
    if ops == [] then []
    else LeaseStepsOf(ops[..|ops| - 1]) + if IsLeaseStep(ops[|ops| - 1]) then [ops[|ops| - 1]] else []
  }

  function WritesOf(ops: seq<Op>): seq<Op>
  {
    if ops == [] then []
    else WritesOf(ops[..|ops| - 1]) + if IsLeaseStep(ops[|ops| - 1]) then [] else [ops[|ops| - 1]]
  }

  /** The same Puts, Deletes and Txns in the same order, and the same lease steps in the same order; only how
      the two are merged may differ. */
  predicate Remerged(a: seq<Op>, b: seq<Op>)
  {
    LeaseStepsOf(a) == LeaseStepsOf(b) && WritesOf(a) == WritesOf(b)
  }

  lemma {:induction false} OfAppend(first: seq<Op>, second: seq<Op>)
    ensures LeaseStepsOf(first + second) == LeaseStepsOf(first) + LeaseStepsOf(second)
    ensures WritesOf(first + second) == WritesOf(first) + WritesOf(second)
  {
    if second == [] {
      assert first + second == first;
    } else {
      var n := |second| - 1;
      assert (first + second)[..|first + second| - 1] == first + second[..n];
      OfAppend(first, second[..n]);
    }
  }

  lemma {:induction false} OfSteps(steps: seq<Op>)
    requires AreLeaseSteps(steps)
    ensures LeaseStepsOf(steps) == steps && WritesOf(steps) == []
  {
    if steps != [] {
      var n := |steps| - 1;
      assert IsLeaseStep(steps[n]) && steps == steps[..n] + [steps[n]];
      OfSteps(steps[..n]);
    }
  }

  lemma OfOne(call: Op)
    requires !IsLeaseStep(call)
    ensures LeaseStepsOf([call]) == [] && WritesOf([call]) == [call]
  {
    assert [call][..0] == [];
  }

  lemma MovedCall(before: seq<Op>, before': seq<Op>, call: Op, steps: seq<Op>, j: nat)
    requires Remerged(before, before') && AreLeaseSteps(steps) && j <= |steps| && !IsLeaseStep(call)
    ensures Remerged(before + (steps[..j] + [call] + steps[j..]), before' + [call] + steps)
  {
    hide LeaseStepsOf, WritesOf;
    var early, late := steps[..j], steps[j..];
    assert early + late == steps;
    OfSteps(early);
    OfSteps(late);
    OfSteps(steps);
    OfOne(call);
    OfAppend(early, [call]);
    OfAppend(early + [call], late);
    OfAppend(before, early + [call] + late);
    OfAppend(before', [call]);
    OfAppend(before' + [call], steps);
  }

  /** No call of the run can be torn. */
  ghost predicate NeverTorn(events: seq<Event>)
    requires Possible(events)
  {
    events == []
    || (NeverTorn(events[..|events| - 1])
        && var s := After(events[..|events| - 1]).state;
           events[|events| - 1].Begin? ==> !TearingPair(AsOps(s, events[|events| - 1].call), s.nextLeaseId))
  }

  lemma {:induction false} NeverTornPrefix(events: seq<Event>, m: nat)
    requires Possible(events) && NeverTorn(events) && m < |events| && events[m].Begin?
    ensures Possible(events[..m]) && NeverTorn(events[..m])
    ensures var s := After(events[..m]).state; !TearingPair(AsOps(s, events[m].call), s.nextLeaseId)
    decreases |events|
  {
    hide Enabled, Advance, TearingPair;
    var init := events[..|events| - 1];
    if m < |init| {
      NeverTornPrefix(init, m);
      assert init[..m] == events[..m] && init[m] == events[m];
    } else {
      assert init == events[..m];
    }
  }

  /** Every interleaving none of whose calls can be torn ends, whenever the store's mutex is free, in the
      state of a run of whole calls, with the writes in the order of the mutex and the lease steps in
      theirs. */
  lemma {:induction false} SerializableUnlessTorn(events: seq<Event>) returns (ops: seq<Op>)
    requires Possible(events) && After(events).pending == [] && NeverTorn(events)
    ensures Run(INIT, ops) == After(events).state && Remerged(ops, AtomicOps(events))
  {
    hide Step, Run, Advance, OpsMicros, NeverTorn, TearingPair, Remerged, ApplyOps, Indexed, Sound;
    hide Possible, After, Finishes, Outcome, StepsIn, AtomicOps, AreLeaseSteps, ValidOrders;
    var b := LastBegin(events);
    TailFinishes(events, b + 1);
    AtomicTail(events, b + 1);
    var rest := events[b + 1..];
    StepsInAreLeaseSteps(After(events[..b + 1]), rest);
    if b < 0 {
      assert events[..0] == [];
      AtStart();
      StepsLast(INIT, [], rest);
      ops := StepsIn(rest);
      assert AtomicOps(events) == [] + ops == ops;
      SameMerge(ops);
    } else {
      var init, call := events[..b], events[b].call;
      PrefixPossible(events, b);
      NeverTornPrefix(events, b);
      assert events[..b + 1] == init + [events[b]];
      var before := SerializableUnlessTorn(init);
      var s := After(init).state;
      var j := OneCall(init, events[b], rest);
      var steps := StepsIn(rest);
      ops := before + (steps[..j] + [call] + steps[j..]);
      RunAppend(INIT, before, steps[..j] + [call] + steps[j..]);
      MovedCall(before, AtomicOps(init), call, steps, j);
      OneAtomic(init, events[b]);
    }
  }

  lemma AtStart()
    ensures Possible([]) && After([]) == Shared(INIT, []) && AtomicOps([]) == [] && RunMicros(INIT, []) == INIT
  {
  }

  lemma OneAtomic(init: seq<Event>, e: Event)
    requires e.Begin?
    ensures AtomicOps(init + [e]) == AtomicOps(init) + [e.call]
  {
    assert (init + [e])[..|init|] == init;
  }

  lemma SameMerge(ops: seq<Op>)
    ensures Remerged(ops, ops)
  {
  }

  lemma OneCall(init: seq<Event>, e: Event, rest: seq<Event>) returns (j: nat)
    requires Possible(init) && e.Begin? && Enabled(After(init), e)
    requires !TearingPair(AsOps(After(init).state, e.call), After(init).state.nextLeaseId)
    requires Finishes(Advance(After(init), e), rest)
    ensures j <= |StepsIn(rest)|
    ensures Outcome(Advance(After(init), e), rest) == Placed(After(init).state, e.call, StepsIn(rest), j)
  {
    hide Step, Run, OpsMicros, TearingPair, Finishes, Outcome, Weave, After, Possible;
    InvariantHolds(false, init);
    var s := After(init).state;
    assert After(init) == Shared(s, []);
    var b, r, ops := Bumped(s), s.revision + 1, AsOps(s, e.call);
    StepsInAreLeaseSteps(Advance(After(init), e), rest);
    var items := Normalise(b, b, r, ops, e.orders, rest);
    j := NoPairFits(s, e.call, items);
  }
}
