/** Array methods the store applies to `Array.from(map.values())`:
    `find` and `filter`, both in iteration order. */
module Seqs {
  import opened Wrappers

  /** `rows.findIndex(p)`, with "no match" as `None`. */
  function FindIndex<T>(rows: seq<T>, p: T -> bool): (r: Option<nat>)
    ensures r.Some? ==> r.value < |rows| && p(rows[r.value])
    ensures r.Some? ==> forall j :: 0 <= j < r.value ==> !p(rows[j])
    ensures r.None? <==> forall j :: 0 <= j < |rows| ==> !p(rows[j])
  {
    if rows == [] then None
    else if p(rows[0]) then Some(0)
    else
      match FindIndex(rows[1..], p)
      case Some(i) => Some(i + 1)
      case None => None
  }

  /** `rows.find(p)`: the first row satisfying `p`, or `undefined`. */
  function Find<T>(rows: seq<T>, p: T -> bool): (r: Option<T>)
    ensures r.None? <==> forall j :: 0 <= j < |rows| ==> !p(rows[j])
    ensures r.Some? ==> exists i :: 0 <= i < |rows| && rows[i] == r.value && FirstMatch(rows, p, i)
  {
    match FindIndex(rows, p)
    case Some(i) => assert FirstMatch(rows, p, i); Some(rows[i])
    case None => None
  }

  /** Row `i` satisfies `p` and no earlier row does. */
  predicate FirstMatch<T>(rows: seq<T>, p: T -> bool, i: nat) {
    i < |rows| && p(rows[i]) && forall j :: 0 <= j < i ==> !p(rows[j])
  }

  /** `rows.filter(p)`: the rows satisfying `p`, in their original order. */
  function Filter<T(!new)>(rows: seq<T>, p: T -> bool): (r: seq<T>)
    ensures |r| <= |rows|
    ensures forall x :: x in r <==> x in rows && p(x)
    ensures multiset(r) <= multiset(rows)
  {
    if rows == [] then []
    else
      assert rows == [rows[0]] + rows[1..];
      (if p(rows[0]) then [rows[0]] else []) + Filter(rows[1..], p)
  }

  /** A filter that every row passes keeps the whole sequence. */
  lemma {:induction false} FilterAll<T(!new)>(rows: seq<T>, p: T -> bool)
    requires forall j :: 0 <= j < |rows| ==> p(rows[j])
    ensures Filter(rows, p) == rows
  {
    if rows != [] {
      FilterAll(rows[1..], p);
    }
  }

  /** Filtering after appending one row filters the old rows and then the new one. */
  lemma {:induction false} FilterAppend<T(!new)>(rows: seq<T>, x: T, p: T -> bool)
    ensures Filter(rows + [x], p) == Filter(rows, p) + (if p(x) then [x] else [])
  {
    if rows == [] {
      assert [] + [x] == [x];
    } else {
      assert (rows + [x])[1..] == rows[1..] + [x];
      FilterAppend(rows[1..], x, p);
    }
  }

  /** Ids that strictly increase along `rows`. */
  predicate Ascending<T>(rows: seq<T>, id: T -> int) {
    forall i, j :: 0 <= i < j < |rows| ==> id(rows[i]) < id(rows[j])
  }

  /** Filtering keeps rows in their relative order, so ascending ids stay ascending. */
  lemma {:induction false} FilterAscending<T(!new)>(rows: seq<T>, p: T -> bool, id: T -> int)
    requires Ascending(rows, id)
    ensures Ascending(Filter(rows, p), id)
  {
    if rows != [] {
      FilterAscending(rows[1..], p, id);
      var rest := Filter(rows[1..], p);
      forall y | y in rest
        ensures id(rows[0]) < id(y)
      {
        var k :| 0 <= k < |rows[1..]| && rows[1..][k] == y;
        assert rows[k + 1] == y;
      }
    }
  }
}
