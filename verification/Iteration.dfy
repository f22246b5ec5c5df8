/** Lemmas for the loops of Components: walking a hash map, sorting, erasing and notifying one by one.

    Each takes one turn of a loop, or its end, to the definitions the loop's method is proved against. */
module Iteration {
  import opened Collections
  import opened Bytes
  import opened Engine
  import opened History
  import opened Ranges
  import opened Watch
  import opened Transactions
  import LeaseIndex

  // ----- Enumerating a hash map -----

  lemma NonEmpty(ids: set<int>)
    requires ids != {}
    ensures exists id :: id in ids
  {
    assert ids == {} <== forall id :: id !in ids;
  }

  lemma EnumerateNext<T(!new)>(order: seq<T>, elements: set<T>, x: T)
    requires Enumerates(order, elements) && x !in elements
    ensures Enumerates(order + [x], elements + {x})
  {
    assert forall y :: y in order + [x] <==> y in order || y == x;
    forall i, j | 0 <= i < j < |order + [x]|
      ensures (order + [x])[i] != (order + [x])[j]
    {
      assert order + [x] != [] && (j < |order| || order[i] in order);
    }
  }

  // ----- Erasing keys one by one -----

  ghost function SetOf(keys: seq<Bytes>): set<Bytes>
  {
    set k | k in keys
  }

  lemma RemoveNext(s: State, keys: seq<Bytes>, i: nat)
    requires i < |keys|
    ensures Remove(Remove(s, SetOf(keys[..i])), {keys[i]}) == Remove(s, SetOf(keys[..i + 1]))
  {
    RemoveUnion(s, SetOf(keys[..i]), {keys[i]});
    assert keys[..i + 1] == keys[..i] + [keys[i]];
    assert SetOf(keys[..i + 1]) == SetOf(keys[..i]) + {keys[i]};
  }

  // ----- std::sort by key -----

  function Insert(info: KeyInfo, sorted: seq<KeyInfo>): seq<KeyInfo>
  {
    if sorted == [] || Less(info.kv.key, sorted[0].kv.key) then [info] + sorted
    else [sorted[0]] + Insert(info, sorted[1..])
  }

  /** Stands for std::sort with the comparison of keys. */
  function SortByKey(infos: seq<KeyInfo>): seq<KeyInfo>
  {
    if infos == [] then [] else Insert(infos[0], SortByKey(infos[1..]))
  }

  function KeysOf(infos: seq<KeyInfo>): seq<Bytes>
  {
    seq(|infos|, i requires 0 <= i < |infos| => infos[i].kv.key)
  }

  lemma {:induction false} InsertSorts(info: KeyInfo, sorted: seq<KeyInfo>)
    requires Ascending(KeysOf(sorted)) && forall x :: x in sorted ==> x.kv.key != info.kv.key
    ensures Ascending(KeysOf(Insert(info, sorted)))
    ensures forall x :: x in Insert(info, sorted) <==> x == info || x in sorted
  {
    var keys := KeysOf(sorted);
    var all := KeysOf(Insert(info, sorted));
    if sorted == [] || Less(info.kv.key, sorted[0].kv.key) {
      assert all == [info.kv.key] + keys;
      forall j | 0 < j < |all|
        ensures Less(info.kv.key, all[j])
      {
        if j > 1 {
          LessTransitive(info.kv.key, keys[0], keys[j - 1]);
        }
      }
    } else {
      assert KeysOf(sorted[1..]) == keys[1..];
      InsertSorts(info, sorted[1..]);
      assert sorted[0] in sorted;
      LessTotal(info.kv.key, sorted[0].kv.key);
      var rest := Insert(info, sorted[1..]);
      assert all == [keys[0]] + KeysOf(rest);
      forall j | 0 < j < |all|
        ensures Less(keys[0], all[j])
      {
        var x := rest[j - 1];
        assert x in rest;
        if x != info {
          var i :| 0 <= i < |sorted[1..]| && sorted[1..][i] == x;
          assert keys[i + 1] == x.kv.key;
        }
      }
      assert sorted == [sorted[0]] + sorted[1..];
    }
  }

  predicate DistinctKeys(infos: seq<KeyInfo>)
  {
    forall i, j :: 0 <= i < j < |infos| ==> infos[i].kv.key != infos[j].kv.key
  }

  lemma {:induction false} SortSorts(infos: seq<KeyInfo>)
    requires DistinctKeys(infos)
    ensures Ascending(KeysOf(SortByKey(infos)))
    ensures forall x :: x in SortByKey(infos) <==> x in infos
  {
    if infos != [] {
      SortSorts(infos[1..]);
      forall x | x in SortByKey(infos[1..])
        ensures x.kv.key != infos[0].kv.key
      {
        var i :| 0 <= i < |infos[1..]| && infos[1..][i] == x;
      }
      InsertSorts(infos[0], SortByKey(infos[1..]));
      assert infos == [infos[0]] + infos[1..];
    }
  }

  /** Sorting the matching records, in whatever order they were found, lists the matching keys. */
  lemma SortLists(data: Data, infos: seq<KeyInfo>, keys: set<Bytes>)
    requires KeyedByItself(data) && DistinctKeys(infos)
    requires forall k :: k in keys ==> k in data
    requires forall x :: x in infos <==> x.kv.key in keys && data[x.kv.key] == x
    ensures KeysOf(SortByKey(infos)) == Sorted(keys)
    ensures forall i | 0 <= i < |SortByKey(infos)| ::
              Sorted(keys)[i] in data && SortByKey(infos)[i] == data[Sorted(keys)[i]]
  {
    SortSorts(infos);
    var sorted := SortByKey(infos);
    var listed := KeysOf(sorted);
    forall k
      ensures k in listed <==> k in keys
    {
      if k in keys {
        assert data[k] in infos;
        var i :| 0 <= i < |sorted| && sorted[i] == data[k];
        assert listed[i] == k;
      }
      if k in listed {
        var i :| 0 <= i < |listed| && listed[i] == k;
        assert sorted[i] in sorted;
      }
    }
    SortedUnique(listed, keys);
    forall i | 0 <= i < |sorted|
      ensures Sorted(keys)[i] in data && sorted[i] == data[Sorted(keys)[i]]
    {
      assert sorted[i] in sorted;
    }
  }

  lemma EmittedIsRange(
    data: Data, keys: seq<Bytes>, infos: seq<KeyInfo>, limit: int, countOnly: bool, keysOnly: bool, kvs: seq<KeyValue>)
    requires KeysOf(infos) == keys
    requires forall i | 0 <= i < |infos| :: keys[i] in data && infos[i] == data[keys[i]]
    requires |kvs| == |Limited(infos, limit)|
    requires forall i | 0 <= i < |kvs| :: kvs[i] == Shown(infos[i], countOnly, keysOnly)
    ensures forall k :: k in Limited(keys, limit) ==> k in data
    ensures kvs == ShowAll(data, Limited(keys, limit), countOnly, keysOnly)
  {
    assert |keys| == |infos|;
    forall k | k in Limited(keys, limit)
      ensures k in data
    {
      var i :| 0 <= i < |Limited(keys, limit)| && Limited(keys, limit)[i] == k;
      assert keys[i] == k;
    }
  }

  lemma BumpedWellFormed(s: State)
    requires WellFormed(s)
    ensures WellFormed(Bumped(s)) && s.revision + 1 > 1
  {
  }

  lemma AnswersNext(s: State, revision: int, ops: seq<RequestOp>, responses: seq<ResponseOp>, last: ResponseOp)
    requires ops != [] && AnswersAll(s, revision, ops[..|ops| - 1], responses)
    requires Answers(ApplyOps(s, revision, ops[..|ops| - 1]), ops[|ops| - 1], last)
    ensures AnswersAll(s, revision, ops, responses + [last])
  {
    hide Answers, ApplyOps;
    var n := |ops| - 1;
    forall i | 0 <= i < |ops|
      ensures Answers(ApplyOps(s, revision, ops[..i]), ops[i], (responses + [last])[i])
    {
      if i < n {
        assert ops[..n][..i] == ops[..i] && ops[..n][i] == ops[i];
      }
    }
  }

  // ----- Walking the map for a deletion -----

  ghost function Walked(data: Data, start: Bytes, end: Bytes, rest: set<Bytes>): set<Bytes>
  {
    set k | k in data && k !in rest && KeyInRange(k, start, end)
  }

  lemma WalkedNext(data: Data, start: Bytes, end: Bytes, rest: set<Bytes>, k: Bytes)
    requires k in rest && k in data
    ensures k !in Walked(data, start, end, rest)
    ensures Walked(data, start, end, rest - {k})
            == Walked(data, start, end, rest) + if KeyInRange(k, start, end) then {k} else {}
  {
  }

  ghost predicate Paired(data: Data, order: seq<Bytes>, pairs: seq<(Bytes, int)>)
  {
    && |pairs| == |order|
    && (forall k :: k in order ==> k in data)
    && forall i | 0 <= i < |pairs| :: pairs[i] == (order[i], LeaseOf(data, order[i]))
  }

  /** The streams once the watchers in `done` have been notified. */
  ghost function Partly(
    sent: map<int, seq<WatchResponse>>, watchers: map<int, Watcher>, done: set<int>, n: Notice)
    : map<int, seq<WatchResponse>>
  {
    map id | id in sent :: sent[id] + if id in done && id in watchers then Deliver(watchers[id], [n]) else []
  }

  lemma PartlyNone(sent: map<int, seq<WatchResponse>>, watchers: map<int, Watcher>, n: Notice)
    ensures Partly(sent, watchers, watchers.Keys - watchers.Keys, n) == sent
  {
    assert forall id | id in sent :: sent[id] + [] == sent[id];
    SameMap(Partly(sent, watchers, watchers.Keys - watchers.Keys, n), sent);
  }

  lemma PartlyNext(wm: Watching, done: set<int>, n: Notice, id: int)
    requires Consistent(wm) && id in wm.watchers && id !in done
    ensures var before := Partly(wm.sent, wm.watchers, done, n);
            var w := wm.watchers[id];
            && id in before && w.watchId == id
            && Partly(wm.sent, wm.watchers, done + {id}, n)
               == if Receives(w, n) then before[id := before[id] + [Respond(w, n)]] else before
  {
    var w := wm.watchers[id];
    var before := Partly(wm.sent, wm.watchers, done, n);
    var after := if Receives(w, n) then before[id := before[id] + [Respond(w, n)]] else before;
    var next := Partly(wm.sent, wm.watchers, done + {id}, n);
    assert [n][..0] == [];
    assert Deliver(w, [n]) == [] + if Receives(w, n) then [Respond(w, n)] else [];
    assert wm.sent[id] + [] == wm.sent[id];
    forall x | x in wm.sent
      ensures next[x] == after[x]
    {
    }
    SameMap(next, after);
  }

  lemma PartlyAll(wm: Watching, n: Notice)
    requires Consistent(wm)
    ensures Partly(wm.sent, wm.watchers, wm.watchers.Keys - {}, n) == NotifyAll(wm, [n]).sent
  {
    SameMap(Partly(wm.sent, wm.watchers, wm.watchers.Keys - {}, n), NotifyAll(wm, [n]).sent);
  }

  // ----- Revoking one lease after another -----

  lemma RevokeKeys(s: State, id: int, order: seq<Bytes>)
    ensures Run(s, LeaseIndex.RevokeScript(id, order)).leases.Keys == s.leases.Keys - {id}
  {
    var script := LeaseIndex.RevokeScript(id, order);
    assert script[..|script| - 1] == LeaseIndex.Deletes(order);
    LeaseIndex.RunDeletes(s, order);
  }

  // ----- The server -----

  lemma ActNext(sys: System, history: seq<Action>, a: Action)
    requires ValidActions(sys, history) && ValidAction(ActAll(sys, history), a)
    ensures ValidActions(sys, history + [a])
    ensures ActAll(sys, history + [a]) == Act(ActAll(sys, history), a)
  {
    assert (history + [a])[..|history|] == history;
  }

  function Silently(ops: seq<Op>): seq<Action>
  {
    seq(|ops|, i requires 0 <= i < |ops| => Do(ops[i]))
  }

  predicate Silent(ops: seq<Op>)
  {
    forall op | op in ops :: op.DropLease? || (op.Delete? && !op.collect)
  }

  /** Calls that report nothing leave every stream alone. */
  lemma {:induction false} ActSilently(sys: System, ops: seq<Op>)
    requires Silent(ops)
    ensures ValidActions(sys, Silently(ops))
    ensures ActAll(sys, Silently(ops)) == System(Run(sys.state, ops), sys.watching)
  {
    hide Step, NotifyAll;
    if ops != [] {
      var n := |ops| - 1;
      assert ops[n] in ops && forall op | op in ops[..n] :: op in ops;
      ActSilently(sys, ops[..n]);
      assert Silently(ops) == Silently(ops[..n]) + [Do(ops[n])];
      ActNext(sys, Silently(ops[..n]), Do(ops[n]));
      NotifyNothing(sys.watching);
    }
  }

  lemma RevokeIsSilent(id: int, order: seq<Bytes>)
    ensures Silent(LeaseIndex.RevokeScript(id, order))
  {
  }

  lemma {:induction false} SweepIsSilent(ids: seq<int>, orders: seq<seq<Bytes>>)
    requires |orders| == |ids|
    ensures Silent(LeaseIndex.SweepScript(ids, orders))
  {
    if ids != [] {
      var n := |ids| - 1;
      SweepIsSilent(ids[..n], orders[..n]);
      RevokeIsSilent(ids[n], orders[n]);
    }
  }
}
