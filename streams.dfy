/** The three java.util.stream stages the scheduling pipeline uses (filter, map,
    flatMap), as functions over finite sequences in encounter order. */
module Streams {

  /** Stream.filter: the elements `p` accepts, in encounter order. */
  function Filter<T>(p: T -> bool, s: seq<T>): (r: seq<T>)
    ensures |r| <= |s|
    ensures forall i :: 0 <= i < |r| ==> r[i] in s && p(r[i])
    ensures forall i :: 0 <= i < |s| && p(s[i]) ==> s[i] in r
  {
    if s == [] then [] else (if p(s[0]) then [s[0]] else []) + Filter(p, s[1..])
  }

  /** Stream.map: `f` applied to every element, in encounter order. */
  function Map<A, B>(f: A -> B, s: seq<A>): (r: seq<B>)
    ensures |r| == |s|
    ensures forall i :: 0 <= i < |s| ==> r[i] == f(s[i])
  {
    if s == [] then [] else [f(s[0])] + Map(f, s[1..])
  }

  /** Stream.flatMap: the sequences `f` yields for the elements, concatenated in encounter order. */
  function FlatMap<A, B>(f: A -> seq<B>, s: seq<A>): (r: seq<B>)
    ensures forall i :: 0 <= i < |s| ==> multiset(f(s[i])) <= multiset(r)
  {
    if s == [] then [] else f(s[0]) + FlatMap(f, s[1..])
  }

  /** When every expansion has `n` elements, the flattened stream has `n` per element. */
  lemma {:induction false} FlatMapUniform<A, B>(f: A -> seq<B>, s: seq<A>, n: nat)
    requires forall i :: 0 <= i < |s| ==> |f(s[i])| == n
    ensures |FlatMap(f, s)| == n * |s|
  {
    if s != [] {
      FlatMapUniform(f, s[1..], n);
      assert FlatMap(f, s) == f(s[0]) + FlatMap(f, s[1..]);
      assert n * |s| == n + n * (|s| - 1);
    }
  }

  /** Filtering a concatenation filters each part. */
  lemma {:induction false} FilterAppend<T>(p: T -> bool, a: seq<T>, b: seq<T>)
    ensures Filter(p, a + b) == Filter(p, a) + Filter(p, b)
  {
    if a == [] {
      assert a + b == b;
    } else {
      assert (a + b)[1..] == a[1..] + b;
      FilterAppend(p, a[1..], b);
    }
  }

  /** A sequence none of whose elements is accepted filters to nothing. */
  lemma {:induction false} FilterNone<T>(p: T -> bool, s: seq<T>)
    requires forall i :: 0 <= i < |s| ==> !p(s[i])
    ensures Filter(p, s) == []
  {
    if s != [] {
      FilterNone(p, s[1..]);
    }
  }

  /** A sequence all of whose elements are accepted filters to itself. */
  lemma {:induction false} FilterAll<T>(p: T -> bool, s: seq<T>)
    requires forall i :: 0 <= i < |s| ==> p(s[i])
    ensures Filter(p, s) == s
  {
    if s != [] {
      FilterAll(p, s[1..]);
      assert s == [s[0]] + s[1..];
    }
  }

  /** Filtering twice with the same predicate is filtering once. */
  lemma FilterIdempotent<T>(p: T -> bool, s: seq<T>)
    ensures Filter(p, Filter(p, s)) == Filter(p, s)
  {
    var r := Filter(p, s);
    assert forall i :: 0 <= i < |r| ==> r[i] in r;
    FilterAll(p, r);
  }

  /** Filtering keeps the order of what it keeps: a relation that holds between every
      earlier and later element of `s` holds between those of the result. */
  lemma {:induction false} FilterKeepsOrder<T>(p: T -> bool, s: seq<T>, before: (T, T) -> bool)
    requires forall i, j :: 0 <= i < j < |s| ==> before(s[i], s[j])
    ensures forall i, j :: 0 <= i < j < |Filter(p, s)| ==> before(Filter(p, s)[i], Filter(p, s)[j])
  {
    if s != [] {
      var tail := s[1..];
      FilterKeepsOrder(p, tail, before);
      var rest := Filter(p, tail);
      forall i | 0 <= i < |rest|
        ensures before(s[0], rest[i])
      {
        var j :| 0 <= j < |tail| && tail[j] == rest[i];
        assert tail[j] == s[j + 1];
      }
    }
  }
}
