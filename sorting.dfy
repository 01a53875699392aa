/** The two sorts the exercises use: Stream.sorted() on Double prices
    (natural ascending order) and Stream.sorted with
    Comparator.comparing(Order::getOrderDate).reversed() on orders (most
    recent first, stable for orders of the same date). Both are insertion
    sorts that insert the head of the stream into the sorted rest. */
module Sorting {
  import opened Models
  import opened Streams

  // ---------------------------------------------------------------------
  // Ascending prices
  // ---------------------------------------------------------------------

  predicate SortedAsc(s: seq<real>)
  {
    forall i, j :: 0 <= i < j < |s| ==> s[i] <= s[j]
  }

  function InsertAsc(x: real, s: seq<real>): (r: seq<real>)
    requires SortedAsc(s)
    ensures SortedAsc(r)
    ensures multiset(r) == multiset(s) + multiset{x}
    ensures forall i :: 0 <= i < |r| ==> r[i] == x || r[i] in s
  {
    if s == [] || x <= s[0] then [x] + s
    else
      assert s == [s[0]] + s[1..];
      [s[0]] + InsertAsc(x, s[1..])
  }

  /** Stream.sorted() on prices: an ascending permutation of the input. */
  function SortAsc(s: seq<real>): (r: seq<real>)
    ensures SortedAsc(r)
    ensures multiset(r) == multiset(s)
  {
    if s == [] then []
    else
      assert s == [s[0]] + s[1..];
      InsertAsc(s[0], SortAsc(s[1..]))
  }

  /** The ascending order of a multiset of prices is unique, so every
      correct sort of the prices returns the same list as SortAsc. */
  lemma {:induction false} SortedAscUnique(a: seq<real>, b: seq<real>)
    requires SortedAsc(a) && SortedAsc(b)
    requires multiset(a) == multiset(b)
    ensures a == b
  {
    if a != [] {
      assert |b| == |a| by {
        assert |multiset(a)| == |a| && |multiset(b)| == |b|;
      }
      assert a[0] in multiset(b) && b[0] in multiset(a) by {
        assert a[0] in a && b[0] in b;
      }
      assert a[0] == b[0];
      assert a == [a[0]] + a[1..] && b == [b[0]] + b[1..];
      assert multiset(a) == multiset{a[0]} + multiset(a[1..]);
      assert multiset(b) == multiset{b[0]} + multiset(b[1..]);
      forall x ensures multiset(a[1..])[x] == multiset(b[1..])[x] {
        assert multiset(a)[x] == multiset(b)[x];
      }
      assert multiset(a[1..]) == multiset(b[1..]);
      SortedAscUnique(a[1..], b[1..]);
    }
  }

  // ---------------------------------------------------------------------
  // Orders, most recent first
  // ---------------------------------------------------------------------

  /** No order is placed after an order that precedes it. */
  predicate NewestFirst(s: seq<Order>)
  {
    forall i, j :: 0 <= i < j < |s| ==> !s[i].orderDate.IsBefore(s[j].orderDate)
  }

  /** Inserts o in front of the first order that is not more recent than it,
      so o stays ahead of the orders of its own date that follow it. */
  function InsertNewestFirst(o: Order, s: seq<Order>): (r: seq<Order>)
    requires NewestFirst(s)
    ensures NewestFirst(r)
    ensures multiset(r) == multiset(s) + multiset{o}
    ensures forall i :: 0 <= i < |r| ==> r[i] == o || r[i] in s
  {
    if s == [] || !o.orderDate.IsBefore(s[0].orderDate) then [o] + s
    else
      assert s == [s[0]] + s[1..];
      var t := InsertNewestFirst(o, s[1..]);
      assert forall i :: 0 <= i < |t| ==> !s[0].orderDate.IsBefore(t[i].orderDate) by {
        forall i | 0 <= i < |t| ensures !s[0].orderDate.IsBefore(t[i].orderDate) {
          if t[i] != o {
            var j :| 0 <= j < |s[1..]| && s[1..][j] == t[i];
            assert s[j + 1] == t[i];
          }
        }
      }
      [s[0]] + t
  }

  /** sorted(comparing(Order::getOrderDate).reversed()): a permutation of
      the input with non-increasing order dates. */
  function SortNewestFirst(s: seq<Order>): (r: seq<Order>)
    ensures NewestFirst(r)
    ensures multiset(r) == multiset(s)
  {
    if s == [] then []
    else
      assert s == [s[0]] + s[1..];
      InsertNewestFirst(s[0], SortNewestFirst(s[1..]))
  }

  /** Inserting o moves no order of o's date past o; seen through a filter
      that selects one date, insertion is either a prepend or nothing. */
  lemma {:induction false} InsertNewestFirstOnDate(o: Order, s: seq<Order>, d: Date, onDay: Order -> bool)
    requires NewestFirst(s)
    requires forall x :: onDay(x) <==> x.orderDate == d
    ensures Filter(InsertNewestFirst(o, s), onDay) == (if onDay(o) then [o] else []) + Filter(s, onDay)
  {
    if s == [] || !o.orderDate.IsBefore(s[0].orderDate) {
    } else {
      InsertNewestFirstOnDate(o, s[1..], d, onDay);
    }
  }

  /** Stability: the orders of any one date come out of the sort in the
      order they went in. */
  lemma {:induction false} SortNewestFirstStable(s: seq<Order>, d: Date, onDay: Order -> bool)
    requires forall x :: onDay(x) <==> x.orderDate == d
    ensures Filter(SortNewestFirst(s), onDay) == Filter(s, onDay)
  {
    if s != [] {
      SortNewestFirstStable(s[1..], d, onDay);
      InsertNewestFirstOnDate(s[0], SortNewestFirst(s[1..]), d, onDay);
    }
  }
  // ---------------------------------------------------------------------
  // What limit(n) leaves behind after a sort
  // ---------------------------------------------------------------------

  /** limit(n) after sorted(): the first n prices of an ascending list are
      ascending, a sub-multiset of it, and every price left out is at least
      the last one kept. */
  lemma LimitSortedAsc(t: seq<real>, n: nat)
    requires SortedAsc(t) && 0 < n
    ensures var r := Limit(t, n);
      && SortedAsc(r)
      && multiset(r) <= multiset(t)
      && forall x :: x in multiset(t) - multiset(r) ==> 0 < |r| && r[|r| - 1] <= x
  {
    var k := Min(n, |t|);
    assert Limit(t, n) == t[..k];
    SortedAscPrefix(t, k);
  }

  lemma SortedAscPrefix(t: seq<real>, k: nat)
    requires SortedAsc(t) && k <= |t| && (t != [] ==> 0 < k)
    ensures multiset(t[..k]) <= multiset(t)
    ensures forall x :: x in multiset(t) - multiset(t[..k]) ==> 0 < k && t[k - 1] <= x
  {
    assert t == t[..k] + t[k..];
    assert multiset(t) == multiset(t[..k]) + multiset(t[k..]);
    forall x | x in multiset(t) - multiset(t[..k]) ensures 0 < k && t[k - 1] <= x {
      assert x in multiset(t[k..]);
      var j :| 0 <= j < |t[k..]| && t[k..][j] == x;
      assert t[k + j] == x;
    }
  }

  /** limit(n) after the newest-first sort: the first n orders are newest
      first, a sub-multiset of the list, and no order left out is more recent
      than the last one kept. */
  lemma LimitNewestFirst(t: seq<Order>, n: nat)
    requires NewestFirst(t) && 0 < n
    ensures var r := Limit(t, n);
      && NewestFirst(r)
      && multiset(r) <= multiset(t)
      && forall o :: o in multiset(t) - multiset(r) ==> 0 < |r| && !o.orderDate.IsAfter(r[|r| - 1].orderDate)
  {
    var k := Min(n, |t|);
    assert Limit(t, n) == t[..k];
    NewestFirstPrefix(t, k);
  }

  lemma NewestFirstPrefix(t: seq<Order>, k: nat)
    requires NewestFirst(t) && k <= |t| && (t != [] ==> 0 < k)
    ensures multiset(t[..k]) <= multiset(t)
    ensures forall o :: o in multiset(t) - multiset(t[..k]) ==> 0 < k && !o.orderDate.IsAfter(t[k - 1].orderDate)
  {
    assert t == t[..k] + t[k..];
    assert multiset(t) == multiset(t[..k]) + multiset(t[k..]);
    forall o | o in multiset(t) - multiset(t[..k]) ensures 0 < k && !o.orderDate.IsAfter(t[k - 1].orderDate) {
      assert o in multiset(t[k..]);
      var j :| 0 <= j < |t[k..]| && t[k..][j] == o;
      assert t[k + j] == o;
    }
  }
}
