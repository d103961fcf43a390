/**
 * A JavaScript `Map` with string keys as the finance route uses it: `set`
 * overwrites the value of a present key where it stands and appends a new
 * key at the end, and `values()` yields the values in insertion order.
 */
module OrderedMap {

  datatype Entry<V> = Entry(key: string, value: V)

  ghost predicate UniqueKeys<V>(m: seq<Entry<V>>) {
    forall i, j :: 0 <= i < j < |m| ==> m[i].key != m[j].key
  }

  /**
   * `map.set(k, v)` on a map (whose keys are unique): afterwards `k` maps to
   * `v`, every other entry is kept, nothing else is added, and keys stay unique.
   */
  function Put<V(==)>(m: seq<Entry<V>>, k: string, v: V): (r: seq<Entry<V>>)
    requires UniqueKeys(m)
    ensures Entry(k, v) in r
    ensures forall i :: 0 <= i < |r| ==> r[i] == Entry(k, v) || (r[i] in m && r[i].key != k)
    ensures forall i :: 0 <= i < |m| && m[i].key != k ==> m[i] in r
    ensures UniqueKeys(r)
  {
    if m == [] then [Entry(k, v)]
    else if m[0].key == k then
      var r := [Entry(k, v)] + m[1..];
      assert forall i :: 1 <= i < |r| ==> r[i] == m[i];
      r
    else
      var rest := Put(m[1..], k, v);
      var r := [m[0]] + rest;
      assert forall i :: 1 <= i < |r| ==> r[i] == rest[i - 1];
      forall i | 0 <= i < |rest|
        ensures rest[i].key != m[0].key
      {
        if rest[i] != Entry(k, v) {
          var j :| 0 <= j < |m[1..]| && m[1..][j] == rest[i];
          assert m[j + 1] == rest[i];
        }
      }
      r
  }

  lemma UniqueKeysTail<V>(m: seq<Entry<V>>)
    requires UniqueKeys(m) && m != []
    ensures UniqueKeys(m[1..])
  {
    forall a, b | 0 <= a < b < |m[1..]|
      ensures m[1..][a].key != m[1..][b].key
    {
      assert m[1..][a] == m[a + 1] && m[1..][b] == m[b + 1];
    }
  }

  /** `set` on a present key overwrites its entry where it stands. */
  lemma {:induction false} PutReplacesInPlace<V>(m: seq<Entry<V>>, k: string, v: V, j: nat)
    requires UniqueKeys(m)
    requires j < |m| && m[j].key == k
    ensures Put(m, k, v) == m[..j] + [Entry(k, v)] + m[j + 1..]
  {
    var e := Entry(k, v);
    if j == 0 {
      assert Put(m, k, v) == [e] + m[1..];
    } else {
      assert m[0].key != k;
      var rest := m[1..];
      UniqueKeysTail(m);
      assert rest[j - 1] == m[j];
      PutReplacesInPlace(rest, k, v, j - 1);
      assert Put(m, k, v) == [m[0]] + Put(rest, k, v);
      SpliceCons(m, e, j);
    }
  }

  lemma SpliceCons<T>(m: seq<T>, e: T, j: nat)
    requires 0 < j < |m|
    ensures [m[0]] + (m[1..][..j - 1] + [e] + m[1..][j..]) == m[..j] + [e] + m[j + 1..]
  {
    assert m[1..][..j - 1] == m[1..j] && m[1..][j..] == m[j + 1..];
    assert [m[0]] + m[1..j] == m[..j];
  }

  /** `set` on a new key appends its entry at the end. */
  lemma {:induction false} PutAppends<V>(m: seq<Entry<V>>, k: string, v: V)
    requires UniqueKeys(m)
    requires forall j :: 0 <= j < |m| ==> m[j].key != k
    ensures Put(m, k, v) == m + [Entry(k, v)]
  {
    if m != [] {
      assert m[0].key != k;
      UniqueKeysTail(m);
      assert forall j :: 0 <= j < |m[1..]| ==> m[1..][j] == m[j + 1];
      PutAppends(m[1..], k, v);
      assert [m[0]] + (m[1..] + [Entry(k, v)]) == m + [Entry(k, v)];
    }
  }

  /** `Array.from(map.values())`. */
  function Values<V>(m: seq<Entry<V>>): (r: seq<V>)
    ensures |r| == |m|
    ensures forall i :: 0 <= i < |m| ==> r[i] == m[i].value
  {
    if m == [] then [] else [m[0].value] + Values(m[1..])
  }
}
