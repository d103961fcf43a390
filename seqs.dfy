/** `Array.prototype.filter` and `slice` over immutable sequences. */
module Seqs {

  /** `s.filter(p)`: the elements satisfying `p`, in their original order. */
  function Filter<T>(p: T -> bool, s: seq<T>): (r: seq<T>)
    ensures |r| <= |s|
    ensures forall i :: 0 <= i < |r| ==> r[i] in s && p(r[i])
    ensures forall i :: 0 <= i < |s| && p(s[i]) ==> s[i] in r
  {
    if s == [] then [] else (if p(s[0]) then [s[0]] else []) + Filter(p, s[1..])
  }

  lemma {:induction false} FilterAppend<T>(p: T -> bool, a: seq<T>, b: seq<T>)
    ensures Filter(p, a + b) == Filter(p, a) + Filter(p, b)
  {
    if a == [] {
      assert a + b == b;
    } else {
      assert (a + b)[1..] == a[1..] + b;
      FilterAppend(p, a[1..], b);
    }
  }

  /** Filtering one more element at the end adds it exactly when it passes. */
  lemma FilterSnoc<T>(p: T -> bool, s: seq<T>, x: T)
    ensures Filter(p, s + [x]) == Filter(p, s) + (if p(x) then [x] else [])
  {
    FilterAppend(p, s, [x]);
    assert [x][1..] == [];
  }

  /** Filtering an element in front of a sequence. */
  lemma FilterCons<T>(p: T -> bool, x: T, s: seq<T>)
    ensures Filter(p, [x] + s) == (if p(x) then [x] else []) + Filter(p, s)
  {
    assert ([x] + s)[1..] == s;
  }

  /** A value is in the filtered sequence exactly when it is in the input and passes. */
  lemma FilterMembers<T>(p: T -> bool, s: seq<T>, x: T)
    ensures x in Filter(p, s) <==> x in s && p(x)
  {
    if x in Filter(p, s) {
      var i :| 0 <= i < |Filter(p, s)| && Filter(p, s)[i] == x;
    }
    if x in s && p(x) {
      var i :| 0 <= i < |s| && s[i] == x;
    }
  }

  /** Filtering keeps everything when everything passes. */
  lemma {:induction false} FilterAll<T>(p: T -> bool, s: seq<T>)
    requires forall i :: 0 <= i < |s| ==> p(s[i])
    ensures Filter(p, s) == s
  {
    if s != [] {
      FilterAll(p, s[1..]);
      assert s == [s[0]] + s[1..];
    }
  }

  /** `s.map(f)`. */
  function MapSeq<A, B>(f: A -> B, s: seq<A>): (r: seq<B>)
    ensures |r| == |s|
    ensures forall i :: 0 <= i < |s| ==> r[i] == f(s[i])
  {
    seq(|s|, i requires 0 <= i < |s| => f(s[i]))
  }

  lemma MapSeqAppend<A, B>(f: A -> B, a: seq<A>, b: seq<A>)
    ensures MapSeq(f, a + b) == MapSeq(f, a) + MapSeq(f, b)
  {
  }

  /** `s.filter(p).map(f)` holds the images of exactly the elements satisfying `p`. */
  lemma MapFilterExactly<A, B>(f: A -> B, p: A -> bool, s: seq<A>)
    ensures forall i :: 0 <= i < |s| && p(s[i]) ==> f(s[i]) in MapSeq(f, Filter(p, s))
    ensures forall y :: y in MapSeq(f, Filter(p, s)) ==> exists i :: 0 <= i < |s| && p(s[i]) && y == f(s[i])
  {
    var kept := Filter(p, s);
    var out := MapSeq(f, kept);
    forall i | 0 <= i < |s| && p(s[i])
      ensures f(s[i]) in out
    {
      var k :| 0 <= k < |kept| && kept[k] == s[i];
      assert out[k] == f(s[i]);
    }
    forall y | y in out
      ensures exists i :: 0 <= i < |s| && p(s[i]) && y == f(s[i])
    {
      var k :| 0 <= k < |out| && out[k] == y;
      assert kept[k] in s;
      var i :| 0 <= i < |s| && s[i] == kept[k];
    }
  }

  /** No element occurs twice. */
  ghost predicate Distinct<T>(s: seq<T>) {
    forall i, j :: 0 <= i < j < |s| ==> s[i] != s[j]
  }

  /** In a sequence without repeats every value occurs at most once. */
  lemma {:induction false} DistinctOccursOnce<T>(s: seq<T>, x: T)
    requires Distinct(s)
    ensures multiset(s)[x] <= 1
  {
    if s != [] {
      assert s == [s[0]] + s[1..];
      DistinctOccursOnce(s[1..], x);
      if s[0] == x {
        assert x !in s[1..];
        assert multiset(s[1..])[x] == 0;
      }
    }
  }

  /** A rearrangement of a sequence without repeats has none either. */
  lemma DistinctPermutation<T>(s: seq<T>, t: seq<T>)
    requires Distinct(s) && multiset(s) == multiset(t)
    ensures Distinct(t)
  {
    forall i, j | 0 <= i < j < |t|
      ensures t[i] != t[j]
    {
      if t[i] == t[j] {
        var x := t[i];
        assert t == t[..i] + [x] + t[i + 1..j] + [x] + t[j + 1..];
        assert multiset(t)[x] >= 2;
        DistinctOccursOnce(s, x);
      }
    }
  }

  /** `s.map((x, index) => f(x, index))`. */
  function MapIndexed<A, B>(s: seq<A>, f: (A, nat) -> B): (r: seq<B>)
    ensures |r| == |s|
    ensures forall k :: 0 <= k < |s| ==> r[k] == f(s[k], k)
  {
    if s == [] then []
    else MapIndexed(s[..|s| - 1], f) + [f(s[|s| - 1], |s| - 1)]
  }

  /** Mapping one more element appends its image under the next index. */
  lemma MapIndexedSnoc<A, B>(s: seq<A>, x: A, f: (A, nat) -> B)
    ensures MapIndexed(s + [x], f) == MapIndexed(s, f) + [f(x, |s|)]
  {
    assert (s + [x])[..|s|] == s;
  }

  /**
   * The position of the last element satisfying `p`, or -1 when there is
   * none: what a `Map.set` per hit leaves under one key.
   */
  function LastMatch<T>(s: seq<T>, p: T -> bool): (r: int)
    ensures -1 <= r < |s|
    ensures r >= 0 ==> p(s[r]) && forall j :: r < j < |s| ==> !p(s[j])
    ensures r == -1 ==> forall j :: 0 <= j < |s| ==> !p(s[j])
  {
    if s == [] then -1
    else if p(s[|s| - 1]) then |s| - 1
    else LastMatch(s[..|s| - 1], p)
  }

  /** One more element is the last match when it satisfies `p`; otherwise the last match stays. */
  lemma LastMatchSnoc<T>(s: seq<T>, x: T, p: T -> bool)
    ensures LastMatch(s + [x], p) == if p(x) then |s| else LastMatch(s, p)
  {
    assert (s + [x])[..|s|] == s;
  }

  /** An element that does not satisfy `p` can be removed without changing which element is the last match. */
  lemma {:induction false} LastMatchSkips<T>(a: seq<T>, x: T, b: seq<T>, p: T -> bool)
    requires !p(x)
    ensures LastMatch(a + [x] + b, p) < 0 <==> LastMatch(a + b, p) < 0
    ensures LastMatch(a + [x] + b, p) >= 0 ==> (a + [x] + b)[LastMatch(a + [x] + b, p)] == (a + b)[LastMatch(a + b, p)]
    decreases |b|
  {
    if b == [] {
      assert a + [x] + b == a + [x];
      assert a + b == a;
      LastMatchSnoc(a, x, p);
    } else {
      var init := b[..|b| - 1];
      var y := b[|b| - 1];
      LastMatchSkips(a, x, init, p);
      assert a + [x] + b == (a + [x] + init) + [y];
      assert a + b == (a + init) + [y];
      LastMatchSnoc(a + [x] + init, y, p);
      LastMatchSnoc(a + init, y, p);
      var i := LastMatch(a + [x] + init, p);
      if !p(y) && i >= 0 {
        assert (a + [x] + b)[i] == (a + [x] + init)[i];
        assert (a + b)[LastMatch(a + init, p)] == (a + init)[LastMatch(a + init, p)];
      }
    }
  }

  /** A prefix one longer is the prefix followed by the next element. */
  lemma PrefixSnoc<T>(s: seq<T>, i: nat)
    requires i < |s|
    ensures s[..i + 1] == s[..i] + [s[i]]
  {
  }

  /** `s.slice(0, n)`. */
  function Take<T>(s: seq<T>, n: nat): seq<T> {
    if n <= |s| then s[..n] else s
  }
}
