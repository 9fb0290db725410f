/**
 * Python's `list.sort(key=k, reverse=True)`: a stable sort into non-increasing key order.
 * Elements with equal keys keep their relative order, which is what `sorted` and
 * `Counter.most_common` guarantee and what the recommenders and the attendance alerts rely on.
 */
module Ranking {
  import PyList

  predicate NonIncreasing<T>(s: seq<T>, key: T -> int)
  {
    forall i, j :: 0 <= i < j < |s| ==> key(s[i]) >= key(s[j])
  }

  /** The elements of `s` whose key is `v`, in their order in `s`. */
  function WithKey<T>(s: seq<T>, key: T -> int, v: int): seq<T>
  {
    if s == [] then []
    else (if key(s[0]) == v then [s[0]] else []) + WithKey(s[1..], key, v)
  }

  /** Puts `x` in front of the first element whose key is not larger than its own. */
  function Insert<T>(x: T, s: seq<T>, key: T -> int): (r: seq<T>)
    ensures |r| == |s| + 1
  {
    if s == [] || key(s[0]) <= key(x) then [x] + s
    else [s[0]] + Insert(x, s[1..], key)
  }

  /** `sorted(s, key=key, reverse=True)`. */
  function SortDesc<T>(s: seq<T>, key: T -> int): (r: seq<T>)
    ensures |r| == |s|
  {
    if s == [] then [] else Insert(s[0], SortDesc(s[1..], key), key)
  }

  lemma {:induction false} InsertPermutes<T>(x: T, s: seq<T>, key: T -> int)
    ensures multiset(Insert(x, s, key)) == multiset(s) + multiset{x}
    decreases |s|
  {
    if s != [] && key(s[0]) > key(x) {
      InsertPermutes(x, s[1..], key);
      assert s == [s[0]] + s[1..];
    }
  }

  /** Sorting only rearranges: the result holds exactly the input's elements. */
  lemma {:induction false} SortDescPermutes<T>(s: seq<T>, key: T -> int)
    ensures multiset(SortDesc(s, key)) == multiset(s)
    decreases |s|
  {
    if s != [] {
      SortDescPermutes(s[1..], key);
      InsertPermutes(s[0], SortDesc(s[1..], key), key);
      assert s == [s[0]] + s[1..];
    }
  }

  lemma {:induction false} InsertSorted<T>(x: T, s: seq<T>, key: T -> int)
    requires NonIncreasing(s, key)
    ensures NonIncreasing(Insert(x, s, key), key)
    ensures forall i :: 0 <= i < |Insert(x, s, key)| ==>
      key(Insert(x, s, key)[i]) == key(x) || exists j :: 0 <= j < |s| && key(Insert(x, s, key)[i]) == key(s[j])
    decreases |s|
  {
    var r := Insert(x, s, key);
    if s == [] || key(s[0]) <= key(x) {
      forall i | 0 <= i < |r| && i > 0
        ensures key(r[i]) == key(s[i - 1])
      {
      }
    } else {
      var t := s[1..];
      assert NonIncreasing(t, key);
      InsertSorted(x, t, key);
      var rt := Insert(x, t, key);
      forall i | 0 <= i < |rt|
        ensures key(rt[i]) <= key(s[0])
      {
        if key(rt[i]) != key(x) {
          var j :| 0 <= j < |t| && key(rt[i]) == key(t[j]);
          assert t[j] == s[j + 1];
        }
      }
      forall i | 0 <= i < |r|
        ensures key(r[i]) == key(x) || exists j :: 0 <= j < |s| && key(r[i]) == key(s[j])
      {
        if i == 0 {
          assert key(r[0]) == key(s[0]);
        } else if key(r[i]) != key(x) {
          assert r[i] == rt[i - 1];
          var j :| 0 <= j < |t| && key(rt[i - 1]) == key(t[j]);
          assert t[j] == s[j + 1];
        }
      }
    }
  }

  /** The result is in non-increasing key order. */
  lemma {:induction false} SortDescSorted<T>(s: seq<T>, key: T -> int)
    ensures NonIncreasing(SortDesc(s, key), key)
    decreases |s|
  {
    if s != [] {
      SortDescSorted(s[1..], key);
      InsertSorted(s[0], SortDesc(s[1..], key), key);
    }
  }

  lemma {:induction false} WithKeyAppend<T>(a: seq<T>, b: seq<T>, key: T -> int, v: int)
    ensures WithKey(a + b, key, v) == WithKey(a, key, v) + WithKey(b, key, v)
    decreases |a|
  {
    if a == [] {
      assert a + b == b;
    } else {
      var h := if key(a[0]) == v then [a[0]] else [];
      assert (a + b)[0] == a[0];
      assert (a + b)[1..] == a[1..] + b;
      WithKeyAppend(a[1..], b, key, v);
      var x, y := WithKey(a[1..], key, v), WithKey(b, key, v);
      assert h + (x + y) == (h + x) + y;
    }
  }

  lemma {:induction false} WithKeyInsert<T>(x: T, s: seq<T>, key: T -> int, v: int)
    ensures WithKey(Insert(x, s, key), key, v) ==
      (if key(x) == v then [x] else []) + WithKey(s, key, v)
    decreases |s|
  {
    if s == [] || key(s[0]) <= key(x) {
      assert ([x] + s)[1..] == s;
    } else {
      WithKeyInsert(x, s[1..], key, v);
      var r := Insert(x, s, key);
      assert r[1..] == Insert(x, s[1..], key);
    }
  }

  /** Stability: the elements sharing a key appear in the same order before and after sorting. */
  lemma {:induction false} SortDescStable<T>(s: seq<T>, key: T -> int, v: int)
    ensures WithKey(SortDesc(s, key), key, v) == WithKey(s, key, v)
    decreases |s|
  {
    if s != [] {
      SortDescStable(s[1..], key, v);
      WithKeyInsert(s[0], SortDesc(s[1..], key), key, v);
    }
  }

  /** Truncating a list keeps, for every key, a prefix of the elements with that key. */
  lemma {:induction false} WithKeyOfPrefix<T>(s: seq<T>, k: nat, key: T -> int, v: int)
    requires k <= |s|
    ensures WithKey(s[..k], key, v) <= WithKey(s, key, v)
  {
    assert s == s[..k] + s[k..];
    WithKeyAppend(s[..k], s[k..], key, v);
  }

  /** What a ranking promises about its source list `s`: non-increasing keys, only elements of
      `s`, and, for every key, the elements with that key in their original order. */
  ghost predicate RankedFrom<T>(r: seq<T>, s: seq<T>, key: T -> int)
  {
    && NonIncreasing(r, key)
    && multiset(r) <= multiset(s)
    && (forall v :: WithKey(r, key, v) <= WithKey(s, key, v))
  }

  /** `sorted(s, key=key, reverse=True)[:limit]`: a ranking of `s` that keeps at most `limit`
      elements when `limit` is not negative (a negative limit drops that many from the end). */
  lemma SortedSliceRanked<T>(s: seq<T>, key: T -> int, limit: int)
    ensures RankedFrom(PyList.SliceTo(SortDesc(s, key), limit), s, key)
    ensures limit >= 0 ==> |PyList.SliceTo(SortDesc(s, key), limit)| <= limit
    ensures limit >= |s| ==> PyList.SliceTo(SortDesc(s, key), limit) == SortDesc(s, key)
  {
    var r := SortDesc(s, key);
    var t := PyList.SliceTo(r, limit);
    var k := |t|;
    assert t == r[..k];
    SortDescSorted(s, key);
    SortDescPermutes(s, key);
    assert r == r[..k] + r[k..];
    assert multiset(r[..k]) <= multiset(r);
    forall v
      ensures WithKey(t, key, v) <= WithKey(s, key, v)
    {
      WithKeyOfPrefix(r, k, key, v);
      SortDescStable(s, key, v);
    }
  }

  /** An element the truncation dropped ranks no higher than anything it kept, and it was
      dropped only because the slice is full. */
  lemma SortedSliceTop<T>(s: seq<T>, key: T -> int, limit: int, x: T)
    requires x in s
    requires x !in PyList.SliceTo(SortDesc(s, key), limit)
    ensures forall i :: 0 <= i < |PyList.SliceTo(SortDesc(s, key), limit)| ==>
      key(PyList.SliceTo(SortDesc(s, key), limit)[i]) >= key(x)
    ensures limit >= 0 ==> |PyList.SliceTo(SortDesc(s, key), limit)| == limit
  {
    var r := SortDesc(s, key);
    var t := PyList.SliceTo(r, limit);
    assert t == r[..|t|];
    SortDescSorted(s, key);
    SortDescPermutes(s, key);
    assert x in multiset(s);
    assert x in r;
    assert r == t + r[|t|..];
    assert x in r[|t|..];
    var m :| 0 <= m < |r| - |t| && r[|t|..][m] == x;
    assert r[|t| + m] == x;
  }
}
