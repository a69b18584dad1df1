/** One entity kind's storage in `MemStorage`: a `Map<number, T>` keyed by
    each record's own id, plus the counter that hands out the next id.
    A JavaScript `Map` iterates in insertion order, so the map is kept as
    the sequence of its records in insertion order.
 */
module Table {
  import opened Wrappers
  import Seqs

  datatype Table<T> = Table(rows: seq<T>, next: int)

  /** A fresh map with its counter at 1, as the constructor leaves it. */
  function Empty<T>(): Table<T> {
    Table([], 1)
  }

  /** The invariant every table keeps: the counter is at least 1, every id
      lies in `[1, next)`, and ids strictly increase in insertion order, so
      each key is held by one record only. */
  predicate Keyed<T>(t: Table<T>, id: T -> int) {
    && 1 <= t.next
    && (forall i :: 0 <= i < |t.rows| ==> 1 <= id(t.rows[i]) < t.next)
    && Seqs.Ascending(t.rows, id)
  }

  /** `const id = counter++; map.set(id, record)`. */
  function Add<T>(t: Table<T>, record: T): Table<T> {
    Table(t.rows + [record], t.next + 1)
  }

  /** Storing a record under the counter's value keeps the invariant, and
      that id was held by no earlier record: nothing is overwritten. */
  lemma {:induction false} AddKeepsKeyed<T>(t: Table<T>, id: T -> int, record: T)
    requires Keyed(t, id) && id(record) == t.next
    ensures Keyed(Add(t, record), id)
    ensures forall i :: 0 <= i < |t.rows| ==> id(t.rows[i]) != id(record)
  {
  }

  /** `items.forEach(x => { const id = counter++; map.set(id, build(x, id)) })`. */
  function AddAll<I, T>(t: Table<T>, items: seq<I>, build: (I, int) -> T): (r: Table<T>)
    ensures r.next == t.next + |items|
    ensures |r.rows| == |t.rows| + |items| && r.rows[..|t.rows|] == t.rows
    ensures forall i :: 0 <= i < |items| ==> r.rows[|t.rows| + i] == build(items[i], t.next + i)
    decreases |items|
  {
    if items == [] then t
    else
      var r := AddAll(Add(t, build(items[0], t.next)), items[1..], build);
      assert forall i :: 1 <= i < |items| ==> items[1..][i - 1] == items[i];
      r
  }

  /** Loading items one by one through the counter keeps the invariant
      when every built record carries the id it was given. */
  lemma {:induction false} AddAllKeepsKeyed<I, T>(t: Table<T>, items: seq<I>, build: (I, int) -> T, id: T -> int)
    requires Keyed(t, id)
    requires forall x, n :: id(build(x, n)) == n
    ensures Keyed(AddAll(t, items, build), id)
    decreases |items|
  {
    if items != [] {
      AddKeepsKeyed(t, id, build(items[0], t.next));
      AddAllKeepsKeyed(Add(t, build(items[0], t.next)), items[1..], build, id);
    }
  }

  /** Loading into a fresh table gives the i-th item id `i + 1` and leaves
      the counter one past the number of items. */
  lemma {:induction false} AddAllFromEmpty<I, T>(items: seq<I>, build: (I, int) -> T, id: T -> int)
    requires forall x, n :: id(build(x, n)) == n
    ensures Keyed(AddAll(Empty(), items, build), id)
    ensures AddAll(Empty(), items, build).next == |items| + 1
    ensures forall i :: 0 <= i < |items| ==> AddAll(Empty(), items, build).rows[i] == build(items[i], i + 1)
  {
    AddAllKeepsKeyed(Empty(), items, build, id);
    var r := AddAll(Empty(), items, build);
    forall i | 0 <= i < |items|
      ensures r.rows[i] == build(items[i], i + 1)
    {
      assert r.rows[0 + i] == build(items[i], 1 + i);
    }
  }

  /** `map.get(key)`. Ids are unique (`Keyed`), so the first match is the only one. */
  function Get<T>(t: Table<T>, id: T -> int, key: int): (r: Option<T>)
    ensures r.Some? ==> r.value in t.rows && id(r.value) == key
    ensures r.None? <==> forall i :: 0 <= i < |t.rows| ==> id(t.rows[i]) != key
  {
    Seqs.Find(t.rows, (x: T) => id(x) == key)
  }

  /** After storing a record under the counter's value, looking that id up
      finds it, and every other id finds what it found before. */
  lemma {:induction false} GetAfterAdd<T>(t: Table<T>, id: T -> int, record: T, key: int)
    requires Keyed(t, id) && id(record) == t.next
    ensures Get(Add(t, record), id, key) == if key == t.next then Some(record) else Get(t, id, key)
  {
    AddKeepsKeyed(t, id, record);
    var t' := Add(t, record);
    var r := Get(t', id, key);
    if key == t.next {
      assert t'.rows[|t.rows|] == record;
    } else if Get(t, id, key).Some? {
      var g := Get(t, id, key).value;
      var i :| 0 <= i < |t.rows| && t.rows[i] == g;
      assert t'.rows[i] == g;
      GetUnique(t', id, key, r.value, Get(t, id, key).value);
    }
  }

  /** Two records found under the same id are the same record. */
  lemma {:induction false} GetUnique<T>(t: Table<T>, id: T -> int, key: int, a: T, b: T)
    requires Keyed(t, id) && a in t.rows && b in t.rows && id(a) == key && id(b) == key
    ensures a == b
  {
    var i :| 0 <= i < |t.rows| && t.rows[i] == a;
    var j :| 0 <= j < |t.rows| && t.rows[j] == b;
    assert !(i < j) && !(j < i);
  }
}
