/** `Array.prototype.sort` with a comparator of the form `key(a) - key(b)`.
    The sort is stable (ECMAScript 2019 and later), and for such a comparator
    every stable sort produces the same array, so the model uses insertion
    sort.
 */
module Sorting {

  /** Keys never decrease along `s`. */
  predicate Sorted<T>(s: seq<T>, key: T -> int) {
    forall i, j :: 0 <= i < j < |s| ==> key(s[i]) <= key(s[j])
  }

  /** Puts `x` in front of the first element whose key is at least its own. */
  function Insert<T>(x: T, s: seq<T>, key: T -> int): (r: seq<T>)
    ensures multiset(r) == multiset(s) + multiset{x}
    ensures |r| == |s| + 1
    ensures r[0] == x || (s != [] && r[0] == s[0])
  {
    if s == [] then [x]
    else if key(x) <= key(s[0]) then [x] + s
    else
      assert s == [s[0]] + s[1..];
      [s[0]] + Insert(x, s[1..], key)
  }

  /** A row whose key is at most the first key of sorted rows can go in front. */
  lemma {:induction false} ConsSorted<T>(h: T, rest: seq<T>, key: T -> int)
    requires Sorted(rest, key)
    requires rest != [] ==> key(h) <= key(rest[0])
    ensures Sorted([h] + rest, key)
  {
    var r := [h] + rest;
    forall i, j | 0 <= i < j < |r|
      ensures key(r[i]) <= key(r[j])
    {
      assert r[j] == rest[j - 1];
      if i > 0 {
        assert r[i] == rest[i - 1];
      }
    }
  }

  /** Inserting into sorted rows keeps them sorted. */
  lemma {:induction false} InsertSorted<T>(x: T, s: seq<T>, key: T -> int)
    requires Sorted(s, key)
    ensures Sorted(Insert(x, s, key), key)
  {
    if s != [] && key(x) > key(s[0]) {
      var rest := Insert(x, s[1..], key);
      InsertSorted(x, s[1..], key);
      ConsSorted(s[0], rest, key);
    }
  }

  /** The array sorted by ascending key, rows with equal keys in input order. */
  function SortBy<T>(s: seq<T>, key: T -> int): (r: seq<T>)
    ensures multiset(r) == multiset(s)
    ensures Sorted(r, key)
  {
    if s == [] then []
    else
      assert s == [s[0]] + s[1..];
      var rest := SortBy(s[1..], key);
      InsertSorted(s[0], rest, key);
      Insert(s[0], rest, key)
  }

  /** The rows of `s` whose key is `k`, in order. */
  function SameKey<T>(s: seq<T>, key: T -> int, k: int): seq<T> {
    if s == [] then []
    else (if key(s[0]) == k then [s[0]] else []) + SameKey(s[1..], key, k)
  }

  /** `SameKey` of a row put in front. */
  lemma {:induction false} SameKeyCons<T>(x: T, s: seq<T>, key: T -> int, k: int)
    ensures SameKey([x] + s, key, k) == (if key(x) == k then [x] else []) + SameKey(s, key, k)
  {
    assert ([x] + s)[1..] == s;
  }

  /** Inserting a row adds it to the rows of its key at the front, and
      leaves every other key's rows alone. */
  lemma {:induction false} InsertSameKey<T>(x: T, s: seq<T>, key: T -> int, k: int)
    ensures SameKey(Insert(x, s, key), key, k)
         == (if key(x) == k then [x] else []) + SameKey(s, key, k)
  {
    if s == [] || key(x) <= key(s[0]) {
      assert Insert(x, s, key) == [x] + s;
      SameKeyCons(x, s, key, k);
    } else {
      var rest := Insert(x, s[1..], key);
      assert Insert(x, s, key) == [s[0]] + rest;
      SameKeyCons(s[0], rest, key, k);
      InsertSameKey(x, s[1..], key, k);
      assert s == [s[0]] + s[1..];
      SameKeyCons(s[0], s[1..], key, k);
      var others := SameKey(s[1..], key, k);
      if key(x) == k {
        assert SameKey(s, key, k) == others;
        assert SameKey(Insert(x, s, key), key, k) == [x] + others;
      } else if key(s[0]) == k {
        assert SameKey(Insert(x, s, key), key, k) == [s[0]] + others;
      }
    }
  }

  /** Stability: among rows with equal keys the sort keeps the input order. */
  lemma {:induction false} SortStable<T>(s: seq<T>, key: T -> int, k: int)
    ensures SameKey(SortBy(s, key), key, k) == SameKey(s, key, k)
  {
    if s != [] {
      SortStable(s[1..], key, k);
      InsertSameKey(s[0], SortBy(s[1..], key), key, k);
    }
  }

  /** The rows after the first of sorted rows are sorted. */
  lemma {:induction false} SortedTail<T>(s: seq<T>, key: T -> int)
    requires s != [] && Sorted(s, key)
    ensures Sorted(s[1..], key)
    ensures |s| > 1 ==> key(s[0]) <= key(s[1])
  {
    forall i, j | 0 <= i < j < |s| - 1
      ensures key(s[1..][i]) <= key(s[1..][j])
    {
      assert s[1..][i] == s[i + 1] && s[1..][j] == s[j + 1];
    }
  }

  /** Sorting rows that are already in key order changes nothing. */
  lemma {:induction false} SortSortedUnchanged<T>(s: seq<T>, key: T -> int)
    requires Sorted(s, key)
    ensures SortBy(s, key) == s
  {
    if s != [] {
      SortedTail(s, key);
      SortSortedUnchanged(s[1..], key);
      assert s == [s[0]] + s[1..];
    }
  }

  /** Appending a row appends it to its key's group. */
  lemma {:induction false} SameKeyAppend<T>(s: seq<T>, x: T, key: T -> int, k: int)
    ensures SameKey(s + [x], key, k) == SameKey(s, key, k) + (if key(x) == k then [x] else [])
  {
    var tail := if key(x) == k then [x] else [];
    if s == [] {
      SameKeyCons(x, [], key, k);
      assert [] + [x] == [x] + [];
    } else {
      var head := if key(s[0]) == k then [s[0]] else [];
      assert s + [x] == [s[0]] + (s[1..] + [x]);
      SameKeyCons(s[0], s[1..] + [x], key, k);
      SameKeyAppend(s[1..], x, key, k);
      assert s == [s[0]] + s[1..];
      SameKeyCons(s[0], s[1..], key, k);
      assert head + (SameKey(s[1..], key, k) + tail) == (head + SameKey(s[1..], key, k)) + tail;
    }
  }

  /** A row with key `k` makes the group of `k` non-empty, and the group's
      first row is a row of `s` with that key. */
  lemma {:induction false} SameKeyHead<T>(s: seq<T>, key: T -> int, k: int, i: nat)
    requires i < |s| && key(s[i]) == k
    ensures |SameKey(s, key, k)| > 0 && SameKey(s, key, k)[0] in s && key(SameKey(s, key, k)[0]) == k
  {
    if key(s[0]) != k {
      SameKeyHead(s[1..], key, k, i - 1);
    }
  }

  /** When `k` is the smallest key, the sorted array starts with the first
      row of key `k` in input order. */
  lemma {:induction false} SortHeadIsFirstOfLeastKey<T>(s: seq<T>, key: T -> int, k: int, i: nat)
    requires i < |s| && key(s[i]) == k
    requires forall j :: 0 <= j < |s| ==> k <= key(s[j])
    ensures |SortBy(s, key)| > 0 && |SameKey(s, key, k)| > 0
    ensures SortBy(s, key)[0] == SameKey(s, key, k)[0]
  {
    var r := SortBy(s, key);
    assert s[i] in multiset(r);
    var m :| 0 <= m < |r| && r[m] == s[i];
    assert r[0] in multiset(s);
    var n :| 0 <= n < |s| && s[n] == r[0];
    assert key(r[0]) == k;
    SortStable(s, key, k);
    SameKeyHead(s, key, k, i);
    assert SameKey(r, key, k) == [r[0]] + SameKey(r[1..], key, k);
  }

  /** No row with key `k`, no group of `k`. */
  lemma {:induction false} SameKeyNone<T>(s: seq<T>, key: T -> int, k: int)
    requires forall j :: 0 <= j < |s| ==> key(s[j]) != k
    ensures SameKey(s, key, k) == []
  {
    if s != [] {
      SameKeyNone(s[1..], key, k);
    }
  }

  /** Appending a row whose key is below every other row's key puts it
      first. */
  lemma {:induction false} AppendLeastIsHead<T>(s: seq<T>, x: T, key: T -> int)
    requires forall j :: 0 <= j < |s| ==> key(x) < key(s[j])
    ensures |SortBy(s + [x], key)| > 0 && SortBy(s + [x], key)[0] == x
  {
    var rows := s + [x];
    var k := key(x);
    assert rows[|s|] == x;
    forall j | 0 <= j < |rows|
      ensures k <= key(rows[j])
    {
      if j < |s| {
        assert rows[j] == s[j];
      }
    }
    SortHeadIsFirstOfLeastKey(rows, key, k, |s|);
    SameKeyAppend(s, x, key, k);
    SameKeyNone(s, key, k);
    assert SameKey(rows, key, k) == [x];
  }

  /** Appending a row whose key ties the smallest key leaves the head of
      the sorted array with an earlier row. */
  lemma {:induction false} AppendTieKeepsHead<T>(s: seq<T>, x: T, key: T -> int, k: int, i: nat)
    requires i < |s| && key(s[i]) == k && key(x) == k
    requires forall j :: 0 <= j < |s| ==> k <= key(s[j])
    ensures |SortBy(s + [x], key)| > 0 && SortBy(s + [x], key)[0] in s
    ensures |SameKey(s, key, k)| > 0 && SortBy(s + [x], key)[0] == SameKey(s, key, k)[0]
  {
    var rows := s + [x];
    assert rows[i] == s[i];
    forall j | 0 <= j < |rows|
      ensures k <= key(rows[j])
    {
      if j < |s| {
        assert rows[j] == s[j];
      }
    }
    SortHeadIsFirstOfLeastKey(rows, key, k, i);
    SameKeyAppend(s, x, key, k);
    SameKeyHead(s, key, k, i);
    var group := SameKey(s, key, k);
    assert SameKey(rows, key, k) == group + [x];
    assert (group + [x])[0] == group[0];
  }
}
