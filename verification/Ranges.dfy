/** Range reads: what the hash map's iteration order cannot change, paging, and what Delete returns. */
module Ranges {
  import opened Collections
  import opened Bytes
  import opened Engine
  import opened History

  predicate Ascending(keys: seq<Bytes>)
  {
    forall i, j :: 0 <= i < j < |keys| ==> Less(keys[i], keys[j])
  }

  ghost predicate Least(m: Bytes, s: set<Bytes>)
  {
    m in s && forall x :: x in s - {m} ==> Less(m, x)
  }

  lemma {:induction false} LeastExists(s: set<Bytes>)
    requires s != {}
    ensures exists m :: Least(m, s)
  {
    var m :| m in s;
    var rest := s - {m};
    if rest == {} {
      assert Least(m, s);
    } else {
      LeastExists(rest);
      var n :| Least(n, rest);
      LessTotal(m, n);
      if Less(m, n) {
        forall x | x in rest
          ensures Less(m, x)
        {
          if x != n { LessTransitive(m, n, x); }
        }
        assert Least(m, s);
      } else {
        assert Least(n, s);
      }
    }
  }

  /** The elements of a finite set in ascending order. */
  ghost function Sorted(s: set<Bytes>): (keys: seq<Bytes>)
    ensures Ascending(keys) && forall k :: k in keys <==> k in s
    ensures |keys| == |s|
  {
    if s == {} then []
    else
      LeastExists(s);
      var m :| Least(m, s);
      [m] + Sorted(s - {m})
  }

  lemma EmptyTogether(keys: seq<Bytes>, s: set<Bytes>)
    requires forall k :: k in keys <==> k in s
    ensures keys == [] <==> s == {}
  {
    if keys != [] {
      assert keys[0] in s;
    }
    if s != {} {
      var x :| x in s;
      assert x in keys;
    }
  }

  /** There is only one such listing, so no choice made on the way to it can show. */
  lemma {:induction false} SortedUnique(keys: seq<Bytes>, s: set<Bytes>)
    requires Ascending(keys) && forall k :: k in keys <==> k in s
    ensures keys == Sorted(s)
  {
    var other := Sorted(s);
    EmptyTogether(keys, s);
    EmptyTogether(other, s);
    if s != {} {
      HeadIsLeast(keys, other[0]);
      HeadIsLeast(other, keys[0]);
      LessTrichotomy(keys[0], other[0]);
      var m := keys[0];
      TailIsRest(keys, s);
      TailIsRest(other, s);
      SortedUnique(keys[1..], s - {m});
      SortedUnique(other[1..], s - {m});
    }
  }

  lemma HeadIsLeast(keys: seq<Bytes>, x: Bytes)
    requires Ascending(keys) && x in keys
    ensures AtMost(keys[0], x)
  {
    var i :| 0 <= i < |keys| && keys[i] == x;
    LessTrichotomy(keys[0], x);
  }

  lemma TailIsRest(keys: seq<Bytes>, s: set<Bytes>)
    requires keys != [] && Ascending(keys) && forall k :: k in keys <==> k in s
    ensures Ascending(keys[1..]) && forall k :: k in keys[1..] <==> k in s - {keys[0]}
  {
    LessIrreflexive(keys[0]);
    forall k
      ensures k in keys[1..] <==> k in s - {keys[0]}
    {
      if k in s - {keys[0]} {
        var i :| 0 <= i < |keys| && keys[i] == k;
        assert keys[1..][i - 1] == k;
      }
    }
  }

  // ----- Range -----

  predicate KeyedByItself(data: Data)
  {
    forall k | k in data :: data[k].kv.key == k
  }

  lemma WellFormedKeys(s: State)
    requires WellFormed(s)
    ensures KeyedByItself(s.data)
  {
  }

  function Limited<T>(all: seq<T>, limit: int): seq<T>
  {
    if 0 < limit < |all| then all[..limit] else all
  }

  function Shown(info: KeyInfo, countOnly: bool, keysOnly: bool): KeyValue
  {
    if countOnly then EMPTY_KEY_VALUE
    else if keysOnly then EMPTY_KEY_VALUE.(key := info.kv.key)
    else info.kv
  }

  function ShowAll(data: Data, keys: seq<Bytes>, countOnly: bool, keysOnly: bool): seq<KeyValue>
    requires forall k :: k in keys ==> k in data
  {
    seq(|keys|, i requires 0 <= i < |keys| => Shown(data[keys[i]], countOnly, keysOnly))
  }

  /** What Range returns, for every order in which the hash map may be walked. */
  ghost function RangeResult(
    data: Data, start: Bytes, end: Bytes, limit: int, countOnly: bool, keysOnly: bool): seq<KeyValue>
  {
    var keys := Limited(Sorted(InRangeKeys(data, start, end)), limit);
    assert forall k :: k in keys ==> k in Sorted(InRangeKeys(data, start, end));
    ShowAll(data, keys, countOnly, keysOnly)
  }

  /** Unlimited: exactly the records in range, in strictly ascending key order. */
  lemma RangeIsSortedFilter(s: State, start: Bytes, end: Bytes)
    requires WellFormed(s)
    ensures var all := RangeResult(s.data, start, end, 0, false, false);
            && (forall i, j :: 0 <= i < j < |all| ==> Less(all[i].key, all[j].key))
            && (forall kv :: kv in all <==>
                  kv.key in s.data && s.data[kv.key].kv == kv && KeyInRange(kv.key, start, end))
  {
    var keys := Sorted(InRangeKeys(s.data, start, end));
    var all := RangeResult(s.data, start, end, 0, false, false);
    forall kv: KeyValue | kv.key in s.data && s.data[kv.key].kv == kv && KeyInRange(kv.key, start, end)
      ensures kv in all
    {
      assert kv.key in keys;
      var i :| 0 <= i < |keys| && keys[i] == kv.key;
      assert all[i] == kv;
    }
    forall kv | kv in all
      ensures kv.key in s.data && s.data[kv.key].kv == kv && KeyInRange(kv.key, start, end)
    {
      var i :| 0 <= i < |all| && all[i] == kv;
      assert keys[i] in keys;
    }
    forall i | 0 <= i < |all|
      ensures all[i].key == keys[i]
    {
      assert keys[i] in keys;
    }
  }

  lemma ShowAllModes(data: Data, keys: seq<Bytes>)
    requires KeyedByItself(data) && forall k :: k in keys ==> k in data
    ensures ShowAll(data, keys, false, true)
            == seq(|keys|, i requires 0 <= i < |keys| =>
                     EMPTY_KEY_VALUE.(key := ShowAll(data, keys, false, false)[i].key))
    ensures forall keysOnly :: ShowAll(data, keys, true, keysOnly) == seq(|keys|, _ => EMPTY_KEY_VALUE)
  {
  }

  lemma LimitedPrefix(data: Data, keys: seq<Bytes>, limit: int)
    requires forall k :: k in keys ==> k in data
    ensures forall k :: k in Limited(keys, limit) ==> k in keys
    ensures ShowAll(data, Limited(keys, limit), false, false) == Limited(ShowAll(data, keys, false, false), limit)
  {
  }

  /** An entry of a count-only answer: nothing set. */
  predicate Blank(kv: KeyValue)
  {
    && kv.key == [] && kv.value == [] && kv.lease == 0
    && kv.createRevision == 0 && kv.modRevision == 0 && kv.version == 0
  }

  /** An entry of a keys-only answer: the key, and nothing else set. */
  predicate KeyAlone(kv: KeyValue, key: Bytes)
  {
    && kv.key == key && kv.value == [] && kv.lease == 0
    && kv.createRevision == 0 && kv.modRevision == 0 && kv.version == 0
  }

  /** A positive limit keeps the first entries, and only as many; no limit, or a negative one, keeps all.
      Keys-only answers are the same entries cut down to their keys, count-only answers, keys-only or not,
      the same number of blank ones. */
  lemma RangeModes(data: Data, start: Bytes, end: Bytes, limit: int)
    requires KeyedByItself(data)
    ensures var all := RangeResult(data, start, end, 0, false, false);
            var full := RangeResult(data, start, end, limit, false, false);
            var keysOnly := RangeResult(data, start, end, limit, false, true);
            && full == Limited(all, limit)
            && full <= all && (limit <= 0 ==> full == all) && (limit > 0 ==> |full| <= limit)
            && (|full| == limit || full == all)
            && |keysOnly| == |full| && (forall i | 0 <= i < |full| :: KeyAlone(keysOnly[i], full[i].key))
            && forall b ::
                 && |RangeResult(data, start, end, limit, true, b)| == |full|
                 && forall i | 0 <= i < |full| :: Blank(RangeResult(data, start, end, limit, true, b)[i])
  {
    var keys := Sorted(InRangeKeys(data, start, end));
    LimitedPrefix(data, keys, limit);
    ShowAllModes(data, Limited(keys, limit));
  }

  /** The prefix query of the documentation: with the end "prefix plus one" a Range, a Delete and a watch
      select exactly the stored keys that start with the prefix p·b·ff. */
  lemma PrefixSelects(data: Data, p: Bytes, b: byte, ff: Bytes)
    requires b < 255 && (forall i :: 0 <= i < |ff| ==> ff[i] == 255) && (p == [] || p[0] != 0)
    ensures InRangeKeys(data, p + [b] + ff, p + [b + 1]) == set k | k in data && p + [b] + ff <= k
  {
    forall k | k in data
      ensures KeyInRange(k, p + [b] + ff, p + [b + 1]) <==> p + [b] + ff <= k
    {
      PrefixRange(k, p, b, ff);
    }
  }

  // ----- Splitting a range -----

  lemma KeysSplit(data: Data, start: Bytes, mid: Bytes, end: Bytes)
    requires mid != [] && mid[0] != 0 && AtMost(start, mid)
    requires end != [] && (end[0] == 0 || AtMost(mid, end))
    ensures InRangeKeys(data, start, end) == InRangeKeys(data, start, mid) + InRangeKeys(data, mid, end)
    ensures InRangeKeys(data, start, mid) !! InRangeKeys(data, mid, end)
  {
    forall k | k in data
      ensures KeyInRange(k, start, end) <==> KeyInRange(k, start, mid) || KeyInRange(k, mid, end)
      ensures !(KeyInRange(k, start, mid) && KeyInRange(k, mid, end))
    {
      RangeSplits(k, start, mid, end);
    }
  }

  lemma ListsJoin(first: set<Bytes>, second: set<Bytes>)
    requires forall a, b :: a in first && b in second ==> Less(a, b)
    ensures Sorted(first + second) == Sorted(first) + Sorted(second)
  {
    var joined := Sorted(first) + Sorted(second);
    forall i, j | 0 <= i < j < |joined|
      ensures Less(joined[i], joined[j])
    {
      if i < |Sorted(first)| <= j {
        assert joined[i] in Sorted(first) && joined[j] in Sorted(second);
      }
    }
    assert forall k :: k in joined <==> k in Sorted(first) || k in Sorted(second);
    SortedUnique(joined, first + second);
  }

  /** A Range over [start, end) is the Range over [start, mid) followed by the Range over [mid, end), whatever
      is shown of each record. */
  lemma RangeJoins(
    data: Data, start: Bytes, mid: Bytes, end: Bytes, countOnly: bool, keysOnly: bool)
    requires mid != [] && mid[0] != 0 && AtMost(start, mid)
    requires end != [] && (end[0] == 0 || AtMost(mid, end))
    ensures RangeResult(data, start, end, 0, countOnly, keysOnly)
            == RangeResult(data, start, mid, 0, countOnly, keysOnly)
               + RangeResult(data, mid, end, 0, countOnly, keysOnly)
  {
    var first, second := InRangeKeys(data, start, mid), InRangeKeys(data, mid, end);
    KeysSplit(data, start, mid, end);
    forall a, b | a in first && b in second
      ensures Less(a, b)
    {
      LessThenAtMost(a, mid, b);
    }
    ListsJoin(first, second);
    hide InRangeKeys, KeyInRange, Sorted;
    ListedArePresent(data, start, mid);
    ListedArePresent(data, mid, end);
    ShowAllJoins(data, Sorted(first), Sorted(second), countOnly, keysOnly);
  }

  lemma ShowAllJoins(data: Data, first: seq<Bytes>, second: seq<Bytes>, countOnly: bool, keysOnly: bool)
    requires forall k :: k in first ==> k in data
    requires forall k :: k in second ==> k in data
    ensures forall k :: k in first + second ==> k in data
    ensures ShowAll(data, first + second, countOnly, keysOnly)
            == ShowAll(data, first, countOnly, keysOnly) + ShowAll(data, second, countOnly, keysOnly)
  {
    assert forall i :: 0 <= i < |second| ==> (first + second)[|first| + i] == second[i];
  }

  // ----- Paging -----

  lemma AscendingSplit(keys: seq<Bytes>, m: nat, k: Bytes)
    requires Ascending(keys) && 1 <= m <= |keys|
    ensures Ascending(keys[m..])
    ensures k in keys[m..] <==> k in keys && Less(keys[m - 1], k)
  {
    if k in keys[m..] {
      var i :| m <= i < |keys| && keys[i] == k;
    }
    if k in keys && Less(keys[m - 1], k) {
      var i :| 0 <= i < |keys| && keys[i] == k;
      LessTrichotomy(k, keys[m - 1]);
      LessIrreflexive(k);
      assert i >= m;
      assert keys[m..][i - m] == k;
    }
  }

  function PageSize(n: int, total: nat): nat
    requires 0 < n
  {
    if n < total then n else total
  }

  /** The keys above the last key of a page are the rest of the listing. */
  lemma AfterPage(data: Data, start: Bytes, end: Bytes, keys: seq<Bytes>, m: nat)
    requires end != [] && keys == Sorted(InRangeKeys(data, start, end)) && 1 <= m <= |keys|
    ensures Sorted(InRangeKeys(data, keys[m - 1] + [0], end)) == keys[m..]
  {
    var last := keys[m - 1];
    assert last in keys;
    var rest := InRangeKeys(data, last + [0], end);
    forall k
      ensures k in keys[m..] <==> k in rest
    {
      ResumeAfter(k, start, end, last);
      AscendingSplit(keys, m, k);
    }
    AscendingSplit(keys, m, last);
    SortedUnique(keys[m..], rest);
  }

  ghost function NextStart(data: Data, start: Bytes, end: Bytes, n: int): Bytes
    requires RangeResult(data, start, end, n, false, false) != []
  {
    var page := RangeResult(data, start, end, n, false, false);
    page[|page| - 1].key + [0]
  }

  lemma NextPage(data: Data, start: Bytes, end: Bytes, n: int, keys: seq<Bytes>)
    requires end != [] && 0 < n && KeyedByItself(data)
    requires RangeResult(data, start, end, n, false, false) != [] && keys == Sorted(InRangeKeys(data, start, end))
    ensures 1 <= PageSize(n, |keys|) <= |keys|
    ensures Sorted(InRangeKeys(data, NextStart(data, start, end, n), end)) == keys[PageSize(n, |keys|)..]
    ensures |InRangeKeys(data, NextStart(data, start, end, n), end)| < |InRangeKeys(data, start, end)|
  {
    hide Less, KeyInRange, Ascending, InRangeKeys, RangeResult, NextStart;
    PageEnds(data, start, end, n, keys);
    AfterPage(data, start, end, keys, PageSize(n, |keys|));
  }

  lemma PageEnds(data: Data, start: Bytes, end: Bytes, n: int, keys: seq<Bytes>)
    requires 0 < n && KeyedByItself(data)
    requires RangeResult(data, start, end, n, false, false) != [] && keys == Sorted(InRangeKeys(data, start, end))
    ensures 1 <= PageSize(n, |keys|) <= |keys|
    ensures NextStart(data, start, end, n) == keys[PageSize(n, |keys|) - 1] + [0]
  {
    hide Less, KeyInRange, Ascending, InRangeKeys, Sorted;
    ListedArePresent(data, start, end);
    var m := PageSize(n, |keys|);
    assert keys[m - 1] in keys;
  }

  lemma ListedArePresent(data: Data, start: Bytes, end: Bytes)
    ensures forall k :: k in Sorted(InRangeKeys(data, start, end)) ==> k in data
  {
  }

  /** The pages a client reads that asks for n entries, then again from its last key followed by a
      zero byte, until a page comes back empty. */
  ghost function Pages(data: Data, start: Bytes, end: Bytes, n: int): seq<seq<KeyValue>>
    requires end != [] && 0 < n && KeyedByItself(data)
    decreases |InRangeKeys(data, start, end)|
  {
    var page := RangeResult(data, start, end, n, false, false);
    if page == [] then []
    else
      NextPage(data, start, end, n, Sorted(InRangeKeys(data, start, end)));
      [page] + Pages(data, NextStart(data, start, end, n), end, n)
  }

  lemma ShowAllAppend(data: Data, first: seq<Bytes>, second: seq<Bytes>)
    requires forall k :: k in first + second ==> k in data
    ensures forall k :: k in first ==> k in data
    ensures forall k :: k in second ==> k in data
    ensures ShowAll(data, first + second, false, false)
            == ShowAll(data, first, false, false) + ShowAll(data, second, false, false)
  {
    assert forall k :: k in first || k in second ==> k in first + second;
    assert forall i :: 0 <= i < |second| ==> (first + second)[|first| + i] == second[i];
  }

  lemma PageThenRest(data: Data, start: Bytes, end: Bytes, n: int)
    requires end != [] && 0 < n && KeyedByItself(data)
    requires RangeResult(data, start, end, n, false, false) != []
    ensures RangeResult(data, start, end, 0, false, false)
            == RangeResult(data, start, end, n, false, false)
               + RangeResult(data, NextStart(data, start, end, n), end, 0, false, false)
  {
    hide Less, KeyInRange, Ascending, Sorted, InRangeKeys;
    var keys := Sorted(InRangeKeys(data, start, end));
    var m := PageSize(n, |keys|);
    var next := NextStart(data, start, end, n);
    NextPage(data, start, end, n, keys);
    ListedArePresent(data, start, end);
    assert keys == keys[..m] + keys[m..];
    ShowAllAppend(data, keys[..m], keys[m..]);
  }

  /** The pages of an unchanged store put together are the unlimited range: each key exactly once. */
  lemma {:induction false} PagesMakeTheRange(data: Data, start: Bytes, end: Bytes, n: int)
    requires end != [] && 0 < n && KeyedByItself(data)
    ensures Concat(Pages(data, start, end, n)) == RangeResult(data, start, end, 0, false, false)
    decreases |InRangeKeys(data, start, end)|
  {
    var page := RangeResult(data, start, end, n, false, false);
    if page != [] {
      var next := NextStart(data, start, end, n);
      NextPage(data, start, end, n, Sorted(InRangeKeys(data, start, end)));
      PagesMakeTheRange(data, next, end, n);
      PageThenRest(data, start, end, n);
      var rest := Pages(data, next, end, n);
      assert Pages(data, start, end, n) == [page] + rest;
      assert ([page] + rest)[1..] == rest;
    }
  }

  // ----- Delete -----

  /** The records collected before a deletion. */
  function Collected(data: Data, order: seq<Bytes>): seq<KeyValue>
    requires forall k :: k in order ==> k in data
  {
    seq(|order|, i requires 0 <= i < |order| => data[order[i]].kv)
  }

  /** Putting collected records back, mirror fields and all. */
  function Restore(data: Data, kvs: seq<KeyValue>): Data
  {
    if kvs == [] then data
    else
      var kv := kvs[|kvs| - 1];
      Restore(data, kvs[..|kvs| - 1])[kv.key := KeyInfo(kv, kv.createRevision, kv.modRevision, kv.version)]
  }

  lemma {:induction false} RestoreCollected(s: State, kept: set<Bytes>, order: seq<Bytes>)
    requires WellFormed(s) && kept <= s.data.Keys && forall k :: k in order ==> k in s.data
    ensures Restore(map k | k in kept :: s.data[k], Collected(s.data, order))
            == map k | k in kept + (set x | x in order) :: s.data[k]
  {
    if order != [] {
      var n := |order| - 1;
      RestoreCollected(s, kept, order[..n]);
      var all := Collected(s.data, order);
      assert all[..n] == Collected(s.data, order[..n]);
      assert order == order[..n] + [order[n]];
      assert order[n] in order;
    } else {
      assert kept + (set x | x in order) == kept;
    }
  }

  lemma {:induction false} DistinctLength<T(!new)>(order: seq<T>, elements: set<T>)
    requires Enumerates(order, elements)
    ensures |order| == |elements|
  {
    if order == [] {
      assert elements == {};
    } else {
      var n := |order| - 1;
      assert order == order[..n] + [order[n]];
      assert order[n] in order;
      forall x
        ensures x in order[..n] <==> x in elements - {order[n]}
      {
        if x in order[..n] {
          var i :| 0 <= i < n && order[i] == x;
        }
      }
      DistinctLength(order[..n], elements - {order[n]});
    }
  }

  lemma CollectedKeys(s: State, order: seq<Bytes>)
    requires WellFormed(s) && forall k :: k in order ==> k in s.data
    ensures forall i :: 0 <= i < |order| ==> Collected(s.data, order)[i].key == order[i]
    ensures forall kv: KeyValue :: kv in Collected(s.data, order) <==>
              kv.key in order && s.data[kv.key].kv == kv
  {
    var returned := Collected(s.data, order);
    forall i | 0 <= i < |order|
      ensures returned[i].key == order[i]
    {
      assert order[i] in order;
    }
    forall kv: KeyValue | kv.key in order && s.data[kv.key].kv == kv
      ensures kv in returned
    {
      var i :| 0 <= i < |order| && order[i] == kv.key;
      assert returned[i] == kv;
    }
  }

  lemma SplitSize(data: Data, kept: Data, gone: set<Bytes>)
    requires data.Keys == kept.Keys + gone && kept.Keys !! gone
    ensures |data| == |kept| + |gone|
  {
    assert |data.Keys| == |kept.Keys| + |gone|;
  }

  /** What a collecting Delete returns is duplicate-free and is exactly the records in range, and none
      of them is left in the store. */
  lemma DeleteReturnsTheRange(s: State, start: Bytes, end: Bytes, order: seq<Bytes>)
    requires WellFormed(s) && Enumerates(order, InRangeKeys(s.data, start, end))
    ensures forall k :: k in order ==> k in s.data
    ensures var returned := Collected(s.data, order);
            && (forall i, j :: 0 <= i < j < |returned| ==> returned[i].key != returned[j].key)
            && (forall kv: KeyValue :: kv in returned <==>
                  kv.key in s.data && s.data[kv.key].kv == kv && KeyInRange(kv.key, start, end))
            && (forall kv: KeyValue :: kv in returned ==>
                  kv.key !in Step(s, Delete(start, end, true, order)).data)
  {
    CollectedKeys(s, order);
  }

  lemma RemovedAndKept(s: State, gone: set<Bytes>, order: seq<Bytes>)
    requires WellFormed(s) && gone <= s.data.Keys && Enumerates(order, gone)
    ensures forall k :: k in order ==> k in s.data
    ensures Restore(s.data - gone, Collected(s.data, order)) == s.data
    ensures |order| == |s.data| - |s.data - gone|
  {
    hide WellFormed;
    var kept := s.data - gone;
    assert kept == map k | k in kept.Keys :: s.data[k];
    assert kept.Keys + (set x | x in order) == s.data.Keys;
    assert (map k | k in s.data.Keys :: s.data[k]) == s.data;
    RestoreCollected(s, kept.Keys, order);
    DistinctLength(order, gone);
    SplitSize(s.data, kept, gone);
  }

  /** Every other record is untouched, the two parts rebuild the old store, mirror fields and all, and
      the reported count is the drop in size. */
  lemma DeletePartitions(s: State, start: Bytes, end: Bytes, order: seq<Bytes>)
    requires WellFormed(s) && Enumerates(order, InRangeKeys(s.data, start, end))
    ensures forall k :: k in order ==> k in s.data
    ensures var t := Step(s, Delete(start, end, true, order));
            && Restore(t.data, Collected(s.data, order)) == s.data
            && |order| == |s.data| - |t.data|
  {
    RemovedAndKept(s, InRangeKeys(s.data, start, end), order);
  }

  // ----- Size accounting -----

  function CreatedByOps(s: State, revision: int, ops: seq<RequestOp>): nat
  {
    if ops == [] then 0
    else
      var before, last := ApplyOps(s, revision, ops[..|ops| - 1]), ops[|ops| - 1];
      CreatedByOps(s, revision, ops[..|ops| - 1]) + if last.PutOp? && last.key !in before.data then 1 else 0
  }

  function RemovedByOps(s: State, revision: int, ops: seq<RequestOp>): nat
  {
    if ops == [] then 0
    else
      var before, last := ApplyOps(s, revision, ops[..|ops| - 1]), ops[|ops| - 1];
      RemovedByOps(s, revision, ops[..|ops| - 1])
      + if last.DeleteOp? then |InRangeKeys(before.data, last.key, last.rangeEnd)| else 0
  }

  lemma {:induction false} OpsSize(s: State, revision: int, ops: seq<RequestOp>)
    ensures |ApplyOps(s, revision, ops).data| + RemovedByOps(s, revision, ops)
            == |s.data| + CreatedByOps(s, revision, ops)
  {
    if ops != [] {
      var init, last := ops[..|ops| - 1], ops[|ops| - 1];
      OpsSize(s, revision, init);
      var before, after := ApplyOps(s, revision, init), ApplyOps(s, revision, ops);
      match last
      case PutOp(key, _, _, _) =>
        assert after.data.Keys == before.data.Keys + {key};
      case DeleteOp(key, rangeEnd, _) =>
        var gone := InRangeKeys(before.data, key, rangeEnd);
        assert before.data.Keys == after.data.Keys + gone && after.data.Keys !! gone;
      case _ =>
    }
  }

  function Created(s: State, ops: seq<Op>): nat
  {
    if ops == [] then 0
    else
      var t := Run(s, ops[..|ops| - 1]);
      Created(s, ops[..|ops| - 1])
      + CreatedByOps(Bumped(t), t.revision + 1, AsOps(t, ops[|ops| - 1]))
  }

  function Removed(s: State, ops: seq<Op>): nat
  {
    if ops == [] then 0
    else
      var t := Run(s, ops[..|ops| - 1]);
      Removed(s, ops[..|ops| - 1])
      + RemovedByOps(Bumped(t), t.revision + 1, AsOps(t, ops[|ops| - 1]))
  }

  /** Over any run the store's size is the number of creating puts minus the number of keys removed. */
  lemma {:induction false} SizeIsCreatedMinusRemoved(ops: seq<Op>)
    ensures |Run(INIT, ops).data| == Created(INIT, ops) - Removed(INIT, ops)
  {
    hide Write, Remove;
    if ops != [] {
      var init, last := ops[..|ops| - 1], ops[|ops| - 1];
      SizeIsCreatedMinusRemoved(init);
      var t := Run(INIT, init);
      OpsSize(Bumped(t), t.revision + 1, AsOps(t, last));
      if last.Put? || last.Delete? || last.Txn? {
        StepAsOps(t, last);
      }
    }
  }
}
