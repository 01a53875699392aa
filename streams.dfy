/** The java.util.stream operations the exercises compose, over finite,
    already materialised sequences: filter, map, flatMap, distinct and limit,
    together with Predicate.and.  Every operation is sequential and keeps
    encounter order. */
module Streams {

  function Min(a: int, b: int): int
  {
    if a <= b then a else b
  }

  /** a can be obtained from b by deleting elements (order kept). */
  ghost predicate IsSubseq<T(!new)>(a: seq<T>, b: seq<T>)
    decreases |b|
  {
    if a == [] then true
    else if b == [] then false
    else (a[0] == b[0] && IsSubseq(a[1..], b[1..])) || IsSubseq(a, b[1..])
  }

  /** No element occurs twice. */
  predicate NoDup<T(==,!new)>(s: seq<T>)
  {
    forall i, j :: 0 <= i < j < |s| ==> s[i] != s[j]
  }

  // ---------------------------------------------------------------------
  // filter and Predicate.and
  // ---------------------------------------------------------------------

  /** Stream.filter: the elements satisfying p, in encounter order. */
  function Filter<T(!new)>(s: seq<T>, p: T -> bool): (r: seq<T>)
    ensures |r| <= |s|
    ensures forall x :: x in r <==> x in s && p(x)
  {
    if s == [] then []
    else
      assert s == [s[0]] + s[1..];
      if p(s[0]) then [s[0]] + Filter(s[1..], p) else Filter(s[1..], p)
  }

  /** Predicate.and: both predicates hold (the second is only consulted when
      the first holds, which makes no difference for total predicates). */
  function And<T(!new)>(p: T -> bool, q: T -> bool): (r: T -> bool)
    ensures forall x :: r(x) == (p(x) && q(x))
  {
    x => p(x) && q(x)
  }

  lemma {:induction false} FilterAppend<T(!new)>(a: seq<T>, b: seq<T>, p: T -> bool)
    ensures Filter(a + b, p) == Filter(a, p) + Filter(b, p)
  {
    if a != [] {
      assert (a + b)[0] == a[0] && (a + b)[1..] == a[1..] + b;
      FilterAppend(a[1..], b, p);
    } else {
      assert a + b == b;
    }
  }

  /** The result of filter is a subsequence of its input. */
  lemma {:induction false} FilterIsSubseq<T(!new)>(s: seq<T>, p: T -> bool)
    ensures IsSubseq(Filter(s, p), s)
  {
    if s != [] {
      FilterIsSubseq(s[1..], p);
      if p(s[0]) {
        assert ([s[0]] + Filter(s[1..], p))[1..] == Filter(s[1..], p);
      }
    }
  }

  /** filter keeps every occurrence of a selected element and no occurrence
      of any other element. */
  lemma {:induction false} FilterCount<T(!new)>(s: seq<T>, p: T -> bool)
    ensures forall x :: multiset(Filter(s, p))[x] == if p(x) then multiset(s)[x] else 0
  {
    if s != [] {
      FilterCount(s[1..], p);
      assert s == [s[0]] + s[1..];
      assert multiset(s) == multiset{s[0]} + multiset(s[1..]);
    }
  }

  /** Filtering by p and then by q is filtering once by p.and(q). */
  lemma {:induction false} FilterFilter<T(!new)>(s: seq<T>, p: T -> bool, q: T -> bool)
    ensures Filter(Filter(s, p), q) == Filter(s, And(p, q))
  {
    if s != [] {
      FilterFilter(s[1..], p, q);
    }
  }

  /** Predicates that agree everywhere select the same elements. */
  lemma {:induction false} FilterExt<T(!new)>(s: seq<T>, p: T -> bool, q: T -> bool)
    requires forall x :: p(x) == q(x)
    ensures Filter(s, p) == Filter(s, q)
  {
    if s != [] {
      FilterExt(s[1..], p, q);
    }
  }

  /** A filter that every element passes returns its input unchanged. */
  lemma {:induction false} FilterAllPass<T(!new)>(s: seq<T>, p: T -> bool)
    requires forall i :: 0 <= i < |s| ==> p(s[i])
    ensures Filter(s, p) == s
  {
    if s != [] {
      FilterAllPass(s[1..], p);
    }
  }

  /** Filtering a second time by the same predicate changes nothing. */
  lemma FilterIdempotent<T(!new)>(s: seq<T>, p: T -> bool)
    ensures Filter(Filter(s, p), p) == Filter(s, p)
  {
    var r := Filter(s, p);
    forall i | 0 <= i < |r| ensures p(r[i]) {
      assert r[i] in r;
    }
    FilterAllPass(r, p);
  }

  // ---------------------------------------------------------------------
  // map and flatMap
  // ---------------------------------------------------------------------

  /** Stream.map: f applied to each element, same length and order. */
  function Map<T(!new), U(!new)>(s: seq<T>, f: T -> U): (r: seq<U>)
    ensures |r| == |s|
    ensures forall i :: 0 <= i < |s| ==> r[i] == f(s[i])
  {
    if s == [] then [] else [f(s[0])] + Map(s[1..], f)
  }

  /** Stream.flatMap: the concatenation of f(x) over the elements x. */
  function FlatMap<T(!new), U(!new)>(s: seq<T>, f: T -> seq<U>): (r: seq<U>)
    ensures forall y :: y in r <==> exists x :: x in s && y in f(x)
  {
    if s == [] then []
    else
      assert s == [s[0]] + s[1..];
      f(s[0]) + FlatMap(s[1..], f)
  }

  /** flatMap over a single element is that element's sequence, kept
      whole: every occurrence, in its own order. */
  lemma FlatMapOne<T(!new), U(!new)>(x: T, f: T -> seq<U>)
    ensures FlatMap([x], f) == f(x)
  {
    assert [x][1..] == [];
  }

  /** flatMap over no elements is empty. */
  lemma FlatMapEmpty<T(!new), U(!new)>(f: T -> seq<U>)
    ensures FlatMap([], f) == []
  {
  }

  lemma {:induction false} FlatMapAppend<T(!new), U(!new)>(a: seq<T>, b: seq<T>, f: T -> seq<U>)
    ensures FlatMap(a + b, f) == FlatMap(a, f) + FlatMap(b, f)
  {
    if a != [] {
      assert (a + b)[0] == a[0] && (a + b)[1..] == a[1..] + b;
      FlatMapAppend(a[1..], b, f);
    } else {
      assert a + b == b;
    }
  }

  // ---------------------------------------------------------------------
  // distinct
  // ---------------------------------------------------------------------

  /** Stream.distinct on an ordered sequential stream, with `seen` the
      elements already emitted: an element is emitted the first time it is
      met and skipped afterwards. */
  function DistinctFrom<T(==,!new)>(s: seq<T>, seen: set<T>): (r: seq<T>)
    ensures forall x :: x in r <==> x in s && x !in seen
    ensures NoDup(r)
  {
    if s == [] then []
    else
      assert s == [s[0]] + s[1..];
      if s[0] in seen then DistinctFrom(s[1..], seen)
      else [s[0]] + DistinctFrom(s[1..], seen + {s[0]})
  }

  /** Stream.distinct. */
  function Distinct<T(==,!new)>(s: seq<T>): (r: seq<T>)
    ensures forall x :: x in r <==> x in s
    ensures NoDup(r)
  {
    DistinctFrom(s, {})
  }

  /** Reference definition of "first occurrences in order": walking s from
      the front, s[i] is kept exactly when it does not occur in s[..i]. */
  function FirstOccurrences<T(==,!new)>(s: seq<T>): seq<T>
  {
    if s == [] then []
    else
      var init := s[..|s| - 1];
      FirstOccurrences(init) + (if s[|s| - 1] in init then [] else [s[|s| - 1]])
  }

  lemma {:induction false} DistinctFromSnoc<T(!new)>(a: seq<T>, x: T, seen: set<T>)
    ensures DistinctFrom(a + [x], seen)
         == DistinctFrom(a, seen) + (if x in seen || x in a then [] else [x])
  {
    if a != [] {
      assert (a + [x])[1..] == a[1..] + [x];
      assert a == [a[0]] + a[1..];
      if a[0] in seen {
        DistinctFromSnoc(a[1..], x, seen);
      } else {
        DistinctFromSnoc(a[1..], x, seen + {a[0]});
      }
    }
  }

  /** distinct keeps exactly the first occurrence of every element, in the
      order of those first occurrences. */
  lemma {:induction false} DistinctIsFirstOccurrences<T(!new)>(s: seq<T>)
    ensures Distinct(s) == FirstOccurrences(s)
  {
    if s != [] {
      var init := s[..|s| - 1];
      assert s == init + [s[|s| - 1]];
      DistinctFromSnoc(init, s[|s| - 1], {});
      DistinctIsFirstOccurrences(init);
    }
  }

  lemma {:induction false} DistinctFromIsSubseq<T(!new)>(s: seq<T>, seen: set<T>)
    ensures IsSubseq(DistinctFrom(s, seen), s)
  {
    if s != [] {
      if s[0] in seen {
        DistinctFromIsSubseq(s[1..], seen);
        SubseqOfTail(DistinctFrom(s[1..], seen), s);
      } else {
        DistinctFromIsSubseq(s[1..], seen + {s[0]});
        var r := DistinctFrom(s, seen);
        assert r[1..] == DistinctFrom(s[1..], seen + {s[0]});
      }
    }
  }

  lemma SubseqOfTail<T(!new)>(a: seq<T>, b: seq<T>)
    requires b != [] && IsSubseq(a, b[1..])
    ensures IsSubseq(a, b)
  {
  }

  /** The result of distinct is a subsequence of its input. */
  lemma DistinctIsSubseq<T(!new)>(s: seq<T>)
    ensures IsSubseq(Distinct(s), s)
  {
    DistinctFromIsSubseq(s, {});
  }

  /** distinct of a sequence without duplicates is that sequence. */
  lemma {:induction false} DistinctFromNoDup<T(!new)>(s: seq<T>, seen: set<T>)
    requires NoDup(s)
    requires forall i :: 0 <= i < |s| ==> s[i] !in seen
    ensures DistinctFrom(s, seen) == s
  {
    if s != [] {
      assert s == [s[0]] + s[1..];
      DistinctFromNoDup(s[1..], seen + {s[0]});
    }
  }

  // ---------------------------------------------------------------------
  // limit
  // ---------------------------------------------------------------------

  /** Stream.limit(n): the first n elements, or all of them when fewer. */
  function Limit<T(!new)>(s: seq<T>, n: nat): (r: seq<T>)
    ensures |r| == Min(n, |s|)
    ensures forall i :: 0 <= i < |r| ==> r[i] == s[i]
  {
    s[..Min(n, |s|)]
  }
}
