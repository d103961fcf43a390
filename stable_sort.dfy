/**
 * `Array.prototype.sort(compare)`. ECMAScript requires the sort to be stable,
 * so for a consistent comparator its result is the one sequence that is a
 * permutation of the input, ordered by the comparator, and keeps equivalent
 * elements in input order. `le(a, b)` stands for `compare(a, b) <= 0`.
 */
module StableSort {
  import opened Seqs

  /** The comparator is consistent: a total preorder. */
  ghost predicate TotalPreorder<T(!new)>(le: (T, T) -> bool) {
    && (forall a, b :: le(a, b) || le(b, a))
    && (forall a, b, c :: le(a, b) && le(b, c) ==> le(a, c))
  }

  ghost predicate SortedBy<T>(s: seq<T>, le: (T, T) -> bool) {
    forall i, j :: 0 <= i < j < |s| ==> le(s[i], s[j])
  }

  /** Places `x` before the first element that it may precede. */
  function Insert<T>(x: T, s: seq<T>, le: (T, T) -> bool): seq<T> {
    if s == [] || le(x, s[0]) then [x] + s
    else [s[0]] + Insert(x, s[1..], le)
  }

  /** Stable insertion sort. */
  function Sort<T>(s: seq<T>, le: (T, T) -> bool): seq<T> {
    if s == [] then [] else Insert(s[0], Sort(s[1..], le), le)
  }

  /** Inserting adds exactly `x`. */
  lemma {:induction false} InsertPermutes<T>(x: T, s: seq<T>, le: (T, T) -> bool)
    ensures multiset(Insert(x, s, le)) == multiset(s) + multiset{x}
  {
    if s != [] && !le(x, s[0]) {
      InsertPermutes(x, s[1..], le);
      assert s == [s[0]] + s[1..];
    }
  }

  /** The result of sorting is a permutation of the input. */
  lemma {:induction false} SortPermutes<T>(s: seq<T>, le: (T, T) -> bool)
    ensures multiset(Sort(s, le)) == multiset(s)
    ensures |Sort(s, le)| == |s|
  {
    if s != [] {
      SortPermutes(s[1..], le);
      InsertPermutes(s[0], Sort(s[1..], le), le);
      assert s == [s[0]] + s[1..];
    }
    assert |Sort(s, le)| == |multiset(Sort(s, le))|;
  }

  /** Sorting neither adds nor loses an element. */
  lemma SortMembers<T>(s: seq<T>, le: (T, T) -> bool, x: T)
    ensures x in Sort(s, le) <==> x in s
  {
    SortPermutes(s, le);
    assert x in Sort(s, le) <==> x in multiset(Sort(s, le));
    assert x in s <==> x in multiset(s);
  }

  lemma {:induction false} InsertSorted<T(!new)>(x: T, s: seq<T>, le: (T, T) -> bool)
    requires TotalPreorder(le) && SortedBy(s, le)
    ensures SortedBy(Insert(x, s, le), le)
  {
    if s == [] || le(x, s[0]) {
    } else {
      var tail := Insert(x, s[1..], le);
      InsertSorted(x, s[1..], le);
      InsertPermutes(x, s[1..], le);
      forall y | y in tail
        ensures le(s[0], y)
      {
        assert y in multiset(tail);
        if y != x {
          assert y in multiset(s[1..]);
          var k :| 0 <= k < |s[1..]| && s[1..][k] == y;
          assert s[k + 1] == y;
        }
      }
      var r := [s[0]] + tail;
      forall i, j | 0 <= i < j < |r|
        ensures le(r[i], r[j])
      {
        if i == 0 {
          assert r[j] == tail[j - 1] && r[j] in tail;
        } else {
          assert r[i] == tail[i - 1] && r[j] == tail[j - 1];
        }
      }
    }
  }

  /** Under a consistent comparator the result is ordered by it. */
  lemma {:induction false} SortSorted<T(!new)>(s: seq<T>, le: (T, T) -> bool)
    requires TotalPreorder(le)
    ensures SortedBy(Sort(s, le), le)
  {
    if s != [] {
      SortSorted(s[1..], le);
      InsertSorted(s[0], Sort(s[1..], le), le);
    }
  }

  lemma {:induction false} InsertStable<T>(x: T, s: seq<T>, le: (T, T) -> bool, p: T -> bool)
    requires forall a, b :: p(a) && p(b) ==> le(a, b)
    ensures Filter(p, Insert(x, s, le)) == (if p(x) then [x] else []) + Filter(p, s)
  {
    if s == [] || le(x, s[0]) {
      InsertUnfold(x, s, le);
      FilterCons(p, x, s);
    } else {
      InsertStable(x, s[1..], le, p);
      assert p(x) ==> !p(s[0]);
      InsertStableBehind(x, s, le, p);
    }
  }

  /** The step of `InsertStable` where `x` goes past the first element. */
  lemma InsertStableBehind<T>(x: T, s: seq<T>, le: (T, T) -> bool, p: T -> bool)
    requires s != [] && !le(x, s[0]) && (p(x) ==> !p(s[0]))
    requires Filter(p, Insert(x, s[1..], le)) == (if p(x) then [x] else []) + Filter(p, s[1..])
    ensures Filter(p, Insert(x, s, le)) == (if p(x) then [x] else []) + Filter(p, s)
  {
    var rest := Insert(x, s[1..], le);
    InsertUnfold(x, s, le);
    assert [s[0]] + s[1..] == s;
    FilterCons(p, s[0], rest);
    FilterCons(p, s[0], s[1..]);
    if p(x) {
      assert Filter(p, [s[0]] + rest) == Filter(p, rest);
      assert Filter(p, s) == Filter(p, s[1..]);
    } else {
      assert Filter(p, rest) == Filter(p, s[1..]);
    }
  }

  /** The two cases of `Insert`. */
  lemma InsertUnfold<T>(x: T, s: seq<T>, le: (T, T) -> bool)
    ensures s == [] || le(x, s[0]) ==> Insert(x, s, le) == [x] + s
    ensures s != [] && !le(x, s[0]) ==> Insert(x, s, le) == [s[0]] + Insert(x, s[1..], le)
  {
  }

  /** Filtering keeps a sorted sequence sorted. */
  lemma {:induction false} FilterSorted<T>(s: seq<T>, le: (T, T) -> bool, p: T -> bool)
    requires SortedBy(s, le)
    ensures SortedBy(Filter(p, s), le)
  {
    if s != [] {
      FilterSorted(s[1..], le, p);
      var rest := Filter(p, s[1..]);
      FilterCons(p, s[0], s[1..]);
      assert [s[0]] + s[1..] == s;
      forall j | 0 <= j < |rest|
        ensures le(s[0], rest[j])
      {
        var k :| 0 <= k < |s[1..]| && s[1..][k] == rest[j];
        assert s[k + 1] == rest[j];
      }
    }
  }

  /** When `x` and `y` do not both pass `p`, putting `y` in front of the rest does not disturb where `x` lands in the filtered sequence. */
  lemma FilterSwap<T>(p: T -> bool, x: T, y: T, u: seq<T>, v: seq<T>)
    requires p(x) ==> !p(y)
    requires Filter(p, u) == (if p(x) then [x] else []) + Filter(p, v)
    ensures Filter(p, [y] + u) == (if p(x) then [x] else []) + Filter(p, [y] + v)
  {
    FilterCons(p, y, u);
    FilterCons(p, y, v);
  }

  /**
   * Stability: when every two elements satisfying `p` are equivalent under the
   * comparator, those elements come out in their input order.
   */
  lemma {:induction false} SortStable<T>(s: seq<T>, le: (T, T) -> bool, p: T -> bool)
    requires forall a, b :: p(a) && p(b) ==> le(a, b)
    ensures Filter(p, Sort(s, le)) == Filter(p, s)
  {
    if s != [] {
      SortStable(s[1..], le, p);
      InsertStable(s[0], Sort(s[1..], le), le, p);
    }
  }
}
