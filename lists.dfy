/** Python's `list.sort(key=..., reverse=True)`: a stable sort into
    descending order of a real-valued key. Python documents that the sort is
    stable and that `reverse=True` keeps equal elements in their original
    order; `SortDesc` is an insertion sort with that behaviour, and the
    lemmas below prove the three things a caller relies on: the result is
    in descending key order, it is a permutation of the input, and elements
    with equal keys keep their relative order. */
module Lists {

  /** `s` is in descending order of `key`. */
  predicate SortedDesc<T>(s: seq<T>, key: T -> real)
  {
    forall i, j :: 0 <= i < j < |s| ==> key(s[i]) >= key(s[j])
  }

  /** Every element of `s` has a key of at most `b`. */
  predicate AllAtMost<T>(s: seq<T>, key: T -> real, b: real)
  {
    forall i :: 0 <= i < |s| ==> key(s[i]) <= b
  }

  /** Puts `x` in front of the first element whose key is not larger than
      its own, so that it precedes the elements with an equal key. */
  function Insert<T>(x: T, s: seq<T>, key: T -> real): (r: seq<T>)
    ensures |r| == |s| + 1
  {
    if s == [] then [x]
    else if key(x) >= key(s[0]) then [x] + s
    else [s[0]] + Insert(x, s[1..], key)
  }

  /** Inserting adds exactly `x` to the elements. */
  lemma {:induction false} InsertPermutes<T>(x: T, s: seq<T>, key: T -> real)
    ensures multiset(Insert(x, s, key)) == multiset(s) + multiset{x}
  {
    if s != [] && key(x) < key(s[0]) {
      InsertPermutes(x, s[1..], key);
      assert s == [s[0]] + s[1..];
    }
  }

  /** Inserting an element under a bound keeps every key under it. */
  lemma {:induction false} InsertBounded<T>(x: T, s: seq<T>, key: T -> real, b: real)
    requires key(x) <= b && AllAtMost(s, key, b)
    ensures AllAtMost(Insert(x, s, key), key, b)
  {
    if s != [] && key(x) < key(s[0]) {
      InsertBounded(x, s[1..], key, b);
      var t := Insert(x, s[1..], key);
      assert Insert(x, s, key) == [s[0]] + t;
    }
  }

  /** Inserting into a sorted sequence keeps it sorted. */
  lemma {:induction false} InsertSorted<T>(x: T, s: seq<T>, key: T -> real)
    requires SortedDesc(s, key)
    ensures SortedDesc(Insert(x, s, key), key)
  {
    if s != [] && key(x) < key(s[0]) {
      var t := Insert(x, s[1..], key);
      InsertSorted(x, s[1..], key);
      InsertBounded(x, s[1..], key, key(s[0]));
      assert Insert(x, s, key) == [s[0]] + t;
      ConsSorted(s[0], t, key);
    }
  }

  /** A sorted sequence under `key(y)` stays sorted with `y` in front. */
  lemma ConsSorted<T>(y: T, t: seq<T>, key: T -> real)
    requires SortedDesc(t, key) && AllAtMost(t, key, key(y))
    ensures SortedDesc([y] + t, key)
  {
    var r := [y] + t;
    forall i, j | 0 <= i < j < |r| ensures key(r[i]) >= key(r[j]) {
      assert r[j] == t[j - 1];
      if i > 0 {
        assert r[i] == t[i - 1];
      }
    }
  }

  /** The sort behind `items.sort(key=key, reverse=True)`. */
  function SortDesc<T>(s: seq<T>, key: T -> real): (r: seq<T>)
    ensures |r| == |s|
  {
    if s == [] then [] else Insert(s[0], SortDesc(s[1..], key), key)
  }

  /** The sort orders by descending key and permutes its input. */
  lemma {:induction false} SortDescCorrect<T>(s: seq<T>, key: T -> real)
    ensures SortedDesc(SortDesc(s, key), key)
    ensures multiset(SortDesc(s, key)) == multiset(s)
  {
    if s != [] {
      SortDescCorrect(s[1..], key);
      InsertSorted(s[0], SortDesc(s[1..], key), key);
      InsertPermutes(s[0], SortDesc(s[1..], key), key);
      assert s == [s[0]] + s[1..];
    }
  }

  /** The elements of `s` whose key is exactly `k`, in their order in `s`. */
  function KeyRun<T>(s: seq<T>, key: T -> real, k: real): seq<T>
  {
    if s == [] then []
    else (if key(s[0]) == k then [s[0]] else []) + KeyRun(s[1..], key, k)
  }

  /** The run of a sequence that starts with `y`. */
  lemma KeyRunCons<T>(y: T, rest: seq<T>, key: T -> real, k: real)
    ensures KeyRun([y] + rest, key, k) == (if key(y) == k then [y] else []) + KeyRun(rest, key, k)
  {
    assert ([y] + rest)[0] == y && ([y] + rest)[1..] == rest;
  }

  /** Inserting `x` puts it in front of every element with an equal key. */
  lemma {:induction false} InsertKeyRun<T>(x: T, s: seq<T>, key: T -> real, k: real)
    ensures KeyRun(Insert(x, s, key), key, k)
         == (if key(x) == k then [x] else []) + KeyRun(s, key, k)
  {
    if s == [] {
      KeyRunCons(x, [], key, k);
      assert [x] + [] == [x];
    } else if key(x) >= key(s[0]) {
      KeyRunCons(x, s, key, k);
    } else {
      var t := Insert(x, s[1..], key);
      assert Insert(x, s, key) == [s[0]] + t;
      assert s == [s[0]] + s[1..];
      KeyRunCons(s[0], t, key, k);
      KeyRunCons(s[0], s[1..], key, k);
      InsertKeyRun(x, s[1..], key, k);
      if key(x) == k {
        assert key(s[0]) != k;
      }
    }
  }

  /** Stability: sorting keeps the relative order of elements with equal
      keys. */
  lemma {:induction false} SortDescStable<T>(s: seq<T>, key: T -> real, k: real)
    ensures KeyRun(SortDesc(s, key), key, k) == KeyRun(s, key, k)
  {
    if s != [] {
      SortDescStable(s[1..], key, k);
      InsertKeyRun(s[0], SortDesc(s[1..], key), key, k);
    }
  }

  /** Every element of a sorted sequence is an element of the input, and
      conversely. */
  lemma SortDescMembership<T>(s: seq<T>, key: T -> real, x: T)
    ensures x in SortDesc(s, key) <==> x in s
  {
    var r := SortDesc(s, key);
    SortDescCorrect(s, key);
    assert x in r <==> x in multiset(r);
    assert x in s <==> x in multiset(s);
  }
}
