/** Byte strings under the order std::string comparison gives them, and the key ranges built on it. */
module Bytes {

  newtype byte = x: int | 0 <= x < 256

  type Bytes = seq<byte>

  /** a < b for std::string: unsigned bytes, lexicographic, a proper prefix comes first. */
  predicate Less(a: Bytes, b: Bytes)
  {
    if b == [] then false
    else if a == [] then true
    else a[0] < b[0] || (a[0] == b[0] && Less(a[1..], b[1..]))
  }

  predicate AtMost(a: Bytes, b: Bytes)
  {
    !Less(b, a)
  }

  /** KVStore::KeyInRange and WatchManager::KeyMatchesWatcher: an empty end selects the single key,
      an end whose first byte is zero selects every key from start on. */
  predicate KeyInRange(key: Bytes, start: Bytes, end: Bytes)
  {
    if Less(key, start) then false
    else if end == [] then key == start
    else if end[0] == 0 then AtMost(start, key)
    else Less(key, end)
  }

  // ----- Less is a strict total order -----

  lemma {:induction false} LessIrreflexive(a: Bytes)
    ensures !Less(a, a)
  {
    if a != [] {
      LessIrreflexive(a[1..]);
    }
  }

  lemma {:induction false} LessTransitive(a: Bytes, b: Bytes, c: Bytes)
    requires Less(a, b) && Less(b, c)
    ensures Less(a, c)
  {
    if a != [] && a[0] == b[0] && b[0] == c[0] {
      LessTransitive(a[1..], b[1..], c[1..]);
    }
  }

  lemma {:induction false} LessTotal(a: Bytes, b: Bytes)
    ensures Less(a, b) || a == b || Less(b, a)
  {
    if a != [] && b != [] && a[0] == b[0] {
      LessTotal(a[1..], b[1..]);
      assert a == [a[0]] + a[1..] && b == [b[0]] + b[1..];
    }
  }

  /** Exactly one of the three holds, so AtMost is the reflexive closure of Less. */
  lemma LessTrichotomy(a: Bytes, b: Bytes)
    ensures AtMost(a, b) <==> Less(a, b) || a == b
    ensures !(Less(a, b) && Less(b, a))
  {
    LessTotal(a, b);
    LessIrreflexive(a);
    if Less(a, b) && Less(b, a) {
      LessTransitive(a, b, a);
    }
  }

  /** Position i is the first at which the two differ, and a has the smaller byte there. */
  predicate SmallerAt(a: Bytes, b: Bytes, i: int)
  {
    0 <= i < |a| && i < |b| && a[..i] == b[..i] && a[i] < b[i]
  }

  lemma SmallerAtNext(a: Bytes, b: Bytes, i: nat)
    requires a != [] && b != [] && a[0] == b[0]
    ensures SmallerAt(a, b, i + 1) <==> SmallerAt(a[1..], b[1..], i)
  {
    if i < |a[1..]| && i < |b[1..]| {
      assert a[..i + 1] == [a[0]] + a[1..][..i] && b[..i + 1] == [b[0]] + b[1..][..i];
      assert a[1..][..i] == a[..i + 1][1..] && b[1..][..i] == b[..i + 1][1..];
    }
  }

  lemma PrefixNext(a: Bytes, b: Bytes)
    requires a != [] && b != [] && a[0] == b[0]
    ensures a < b <==> a[1..] < b[1..]
  {
    assert a == [a[0]] + a[1..] && b == [b[0]] + b[1..];
  }

  /** The order read off positions: the first difference decides, or a ends first. */
  lemma {:induction false} LessByFirstDifference(a: Bytes, b: Bytes)
    ensures Less(a, b) <==> a < b || exists i :: SmallerAt(a, b, i)
  {
    if a != [] && b != [] {
      if a[0] == b[0] {
        LessByFirstDifference(a[1..], b[1..]);
        PrefixNext(a, b);
        if i :| SmallerAt(a[1..], b[1..], i) {
          SmallerAtNext(a, b, i);
        }
        if i :| SmallerAt(a, b, i) {
          assert i > 0;
          SmallerAtNext(a, b, i - 1);
        }
      } else if a[0] < b[0] {
        assert SmallerAt(a, b, 0);
      } else {
        forall i
          ensures !SmallerAt(a, b, i)
        {
          if i > 0 && i < |a| && i < |b| {
            assert a[..i][0] == a[0] && b[..i][0] == b[0];
          }
        }
      }
    }
  }

  // ----- What a range selects -----

  /** a < b read off positions: a is a proper prefix of b, or has the smaller byte at the first difference. */
  ghost predicate Below(a: Bytes, b: Bytes)
  {
    a < b || exists i :: SmallerAt(a, b, i)
  }

  /** Nothing below the start is in range. From the start on: with an empty end the start alone, with an end
      whose first byte is zero every key, with any other end every key below it. */
  lemma RangeByPositions(key: Bytes, start: Bytes, end: Bytes)
    ensures Below(key, start) ==> !KeyInRange(key, start, end)
    ensures !Below(key, start) && end == [] ==> (KeyInRange(key, start, end) <==> key == start)
    ensures !Below(key, start) && end != [] && end[0] == 0 ==> KeyInRange(key, start, end)
    ensures !Below(key, start) && end != [] && end[0] != 0 ==> (KeyInRange(key, start, end) <==> Below(key, end))
  {
    LessByFirstDifference(key, start);
    LessByFirstDifference(key, end);
  }

  lemma LessThenAtMost(a: Bytes, b: Bytes, c: Bytes)
    ensures Less(a, b) && AtMost(b, c) ==> Less(a, c)
    ensures AtMost(a, b) && Less(b, c) ==> Less(a, c)
    ensures AtMost(a, b) && AtMost(b, c) ==> AtMost(a, c)
  {
    LessTrichotomy(a, b);
    LessTrichotomy(b, c);
    LessTrichotomy(a, c);
    if Less(a, b) && Less(b, c) {
      LessTransitive(a, b, c);
    }
  }

  /** A range splits at any point that can stand as an end: the keys of [start, end) are those of
      [start, mid) and those of [mid, end), and none is in both. The end may be one without upper bound. */
  lemma RangeSplits(key: Bytes, start: Bytes, mid: Bytes, end: Bytes)
    requires mid != [] && mid[0] != 0 && AtMost(start, mid)
    requires end != [] && (end[0] == 0 || AtMost(mid, end))
    ensures KeyInRange(key, start, end) <==> KeyInRange(key, start, mid) || KeyInRange(key, mid, end)
    ensures !(KeyInRange(key, start, mid) && KeyInRange(key, mid, end))
  {
    LessThenAtMost(key, start, mid);
    LessThenAtMost(key, mid, end);
    LessThenAtMost(start, mid, key);
    LessTrichotomy(key, mid);
  }

  ghost predicate SelectsOnly(key: Bytes, start: Bytes, end: Bytes)
  {
    forall k: Bytes :: KeyInRange(k, start, end) <==> k == key
  }

  /** From a key to its immediate successor there is the key alone, if and only if the key does not start
      with a zero byte (nor is empty): else that successor is read as "no upper bound". */
  lemma SuccessorRangeExactly(start: Bytes)
    ensures SelectsOnly(start, start, start + [0]) <==> start != [] && start[0] != 0
  {
    if start != [] && start[0] != 0 {
      forall k: Bytes
        ensures KeyInRange(k, start, start + [0]) <==> k == start
      {
        ZeroByteSuccessor(start, k);
        LessTrichotomy(start, k);
      }
    } else {
      var other: Bytes := [1];
      assert (start + [0])[0] == 0;
      assert KeyInRange(other, start, start + [0]) && other != start;
    }
  }

  // ----- k·0 is the immediate successor of k -----

  lemma {:induction false} ZeroByteSuccessor(k: Bytes, x: Bytes)
    ensures Less(k, x) <==> AtMost(k + [0], x)
  {
    if x == [] {
    } else if k == [] {
      assert (k + [0])[1..] == [] && !Less(x[1..], []);
    } else {
      assert (k + [0])[1..] == k[1..] + [0];
      ZeroByteSuccessor(k[1..], x[1..]);
    }
  }

  /** Reading on from the last key returned leaves exactly the keys of the range above it. */
  lemma ResumeAfter(x: Bytes, start: Bytes, end: Bytes, last: Bytes)
    requires end != [] && KeyInRange(last, start, end)
    ensures KeyInRange(x, last + [0], end) <==> KeyInRange(x, start, end) && Less(last, x)
  {
    ZeroByteSuccessor(last, x);
    LessTrichotomy(start, last);
    if Less(last, x) && Less(start, last) {
      LessTransitive(start, last, x);
    }
    LessTrichotomy(start, x);
  }

  // ----- Prefix queries -----

  /** A string of 255s is a lower bound of exactly its own extensions. */
  lemma {:induction false} AllOnesBelow(ff: Bytes, x: Bytes)
    requires forall i :: 0 <= i < |ff| ==> ff[i] == 255
    ensures AtMost(ff, x) <==> ff <= x
  {
    if ff != [] && x != [] {
      AllOnesBelow(ff[1..], x[1..]);
      assert ff == [ff[0]] + ff[1..] && x == [x[0]] + x[1..];
    }
  }

  /** The half-open interval from p·b·ff to p·(b+1), where ff is any run of 255s, is the set of
      extensions of p·b·ff: p·(b+1) is that prefix "plus one". */
  lemma {:induction false} PrefixInterval(key: Bytes, p: Bytes, b: byte, ff: Bytes)
    requires b < 255 && forall i :: 0 <= i < |ff| ==> ff[i] == 255
    ensures AtMost(p + [b] + ff, key) && Less(key, p + [b + 1]) <==> p + [b] + ff <= key
  {
    var low, high := p + [b] + ff, p + [b + 1];
    if key == [] {
    } else if p == [] {
      assert low == [b] + ff && high == [b + 1];
      assert low[1..] == ff && high[1..] == [];
      AllOnesBelow(ff, key[1..]);
      assert key == [key[0]] + key[1..];
    } else {
      assert low[1..] == p[1..] + [b] + ff && high[1..] == p[1..] + [b + 1];
      PrefixInterval(key[1..], p[1..], b, ff);
      assert key == [key[0]] + key[1..] && low == [p[0]] + low[1..];
    }
  }

  /** Range, Delete and Watch with the end "prefix plus one" select exactly the keys with the prefix. */
  lemma PrefixRange(key: Bytes, p: Bytes, b: byte, ff: Bytes)
    requires b < 255 && forall i :: 0 <= i < |ff| ==> ff[i] == 255
    requires p == [] || p[0] != 0
    ensures KeyInRange(key, p + [b] + ff, p + [b + 1]) <==> p + [b] + ff <= key
  {
    PrefixInterval(key, p, b, ff);
  }

  ghost predicate SelectsPrefix(prefix: Bytes, end: Bytes)
  {
    forall key: Bytes :: KeyInRange(key, prefix, end) <==> prefix <= key
  }

  /** They do so if and only if p does not start with a zero byte: an end that starts with one is read
      as "no upper bound". */
  lemma PrefixRangeExactly(p: Bytes, b: byte, ff: Bytes)
    requires b < 255 && forall i :: 0 <= i < |ff| ==> ff[i] == 255
    ensures SelectsPrefix(p + [b] + ff, p + [b + 1]) <==> p == [] || p[0] != 0
  {
    if p == [] || p[0] != 0 {
      var prefix, end := p + [b] + ff, p + [b + 1];
      forall key: Bytes
        ensures KeyInRange(key, prefix, end) <==> prefix <= key
      {
        PrefixRange(key, p, b, ff);
      }
    } else {
      var beyond: Bytes := [1];
      assert (p + [b + 1])[0] == 0 && (p + [b] + ff)[0] == 0;
      assert KeyInRange(beyond, p + [b] + ff, p + [b + 1]) && !(p + [b] + ff <= beyond);
    }
  }
}
