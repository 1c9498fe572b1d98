/** Sorted listings of finite sets, filters, and the pages built from them
    (packages/persistence/src/cursor.ts and the `list` operations of both adapters).
 */
module Listing {

  ghost predicate DistinctKeys<T(!new)>(s: set<T>, key: T -> int) {
    forall x, y :: x in s && y in s && key(x) == key(y) ==> x == y
  }

  ghost predicate StrictlySorted<T>(xs: seq<T>, key: T -> int) {
    forall i, j :: 0 <= i < j < |xs| ==> key(xs[i]) < key(xs[j])
  }

  /** `xs` is the listing of `s` in ascending key order. */
  ghost predicate Lists<T(!new)>(xs: seq<T>, s: set<T>, key: T -> int) {
    StrictlySorted(xs, key) && forall x :: x in xs <==> x in s
  }

  lemma {:induction false} SmallestExists<T(!new)>(s: set<T>, key: T -> int)
    requires s != {}
    ensures exists x :: x in s && forall y :: y in s ==> key(x) <= key(y)
    decreases |s|
  {
    var x :| x in s;
    var rest := s - {x};
    assert forall y :: y in s ==> y == x || y in rest;
    if rest != {} {
      SmallestExists(rest, key);
      var m :| m in rest && forall y :: y in rest ==> key(m) <= key(y);
      if key(m) <= key(x) {
        assert forall y :: y in s ==> key(m) <= key(y);
      } else {
        assert forall y :: y in s ==> key(x) <= key(y);
      }
    }
  }

  function Smallest<T(!new, ==)>(s: set<T>, key: T -> int): (x: T)
    requires s != {} && DistinctKeys(s, key)
    ensures x in s && forall y :: y in s ==> key(x) <= key(y)
  {
    SmallestExists(s, key);
    var x :| x in s && forall y :: y in s ==> key(x) <= key(y);
    x
  }

  lemma {:induction false} LargestExists<T(!new)>(s: set<T>, key: T -> int)
    requires s != {}
    ensures exists x :: x in s && forall y :: y in s ==> key(y) <= key(x)
  {
    SmallestExists(s, (x: T) => -key(x));
  }

  function Largest<T(!new, ==)>(s: set<T>, key: T -> int): (x: T)
    requires s != {} && DistinctKeys(s, key)
    ensures x in s && forall y :: y in s ==> key(y) <= key(x)
  {
    LargestExists(s, key);
    var x :| x in s && forall y :: y in s ==> key(y) <= key(x);
    x
  }

  /** Ascending sort of a set whose elements have distinct keys: repeatedly take the smallest. */
  function Sorted<T(!new, ==)>(s: set<T>, key: T -> int): (xs: seq<T>)
    requires DistinctKeys(s, key)
    decreases |s|
  {
    if s == {} then [] else [Smallest(s, key)] + Sorted(s - {Smallest(s, key)}, key)
  }

  lemma {:induction false} SortedLists<T(!new)>(s: set<T>, key: T -> int)
    requires DistinctKeys(s, key)
    ensures Lists(Sorted(s, key), s, key)
    decreases |s|
  {
    if s != {} {
      var x := Smallest(s, key);
      SortedLists(s - {x}, key);
      ConsLists(x, Sorted(s - {x}, key), s, key);
    }
  }

  lemma ConsLists<T(!new)>(x: T, tail: seq<T>, s: set<T>, key: T -> int)
    requires x in s && DistinctKeys(s, key) && forall y :: y in s ==> key(x) <= key(y)
    requires Lists(tail, s - {x}, key)
    ensures Lists([x] + tail, s, key)
  {
    assert forall i :: 0 <= i < |tail| ==> tail[i] in tail && tail[i] in s - {x};
  }

  lemma ListingOfSomething<T(!new)>(xs: seq<T>, s: set<T>, key: T -> int)
    requires Lists(xs, s, key) && xs != []
    ensures xs[0] in s
  {
    assert xs[0] in xs;
  }

  lemma {:induction false} ListingIsUnique<T(!new)>(xs: seq<T>, ys: seq<T>, s: set<T>, key: T -> int)
    requires Lists(xs, s, key) && Lists(ys, s, key)
    ensures xs == ys
    decreases |xs|
  {
    if xs == [] {
      if ys != [] {
        ListingOfSomething(ys, s, key);
      }
    } else {
      assert xs[0] in s && ys != [] && ys[0] in s;
      HeadIsSmallest(xs, s, key);
      HeadIsSmallest(ys, s, key);
      assert xs[0] == ys[0] by {
        var i :| 0 <= i < |ys| && ys[i] == xs[0];
      }
      TailLists(xs, s, key);
      TailLists(ys, s, key);
      ListingIsUnique(xs[1..], ys[1..], s - {xs[0]}, key);
    }
  }

  lemma HeadIsSmallest<T(!new)>(xs: seq<T>, s: set<T>, key: T -> int)
    requires Lists(xs, s, key) && xs != []
    ensures forall y :: y in s ==> key(xs[0]) <= key(y)
  {
    forall y | y in s ensures key(xs[0]) <= key(y) {
      var i :| 0 <= i < |xs| && xs[i] == y;
    }
  }

  lemma TailLists<T(!new)>(xs: seq<T>, s: set<T>, key: T -> int)
    requires Lists(xs, s, key) && xs != []
    ensures Lists(xs[1..], s - {xs[0]}, key)
  {
    assert forall x :: x in xs <==> x == xs[0] || x in xs[1..];
    assert forall i :: 0 <= i < |xs| - 1 ==> xs[1..][i] == xs[i + 1];
  }

  function Filter<T>(xs: seq<T>, p: T -> bool): (ys: seq<T>) {
    if xs == [] then [] else (if p(xs[0]) then [xs[0]] else []) + Filter(xs[1..], p)
  }

  lemma FilterNothing<T>(p: T -> bool)
    ensures Filter([], p) == []
  {
  }

  lemma FilterStep<T>(xs: seq<T>, p: T -> bool)
    requires xs != []
    ensures Filter(xs, p) == if p(xs[0]) then [xs[0]] + Filter(xs[1..], p) else Filter(xs[1..], p)
  {
  }

  /** The rows of `s` that satisfy `p`. */
  function Where<T(!new)>(s: set<T>, p: T -> bool): (r: set<T>)
    ensures forall x :: x in r <==> x in s && p(x)
  {
    set x | x in s && p(x)
  }

  lemma {:induction false} FilterLists<T(!new)>(xs: seq<T>, s: set<T>, key: T -> int, p: T -> bool)
    requires Lists(xs, s, key)
    ensures Lists(Filter(xs, p), Where(s, p), key)
    decreases |xs|
  {
    if xs != [] {
      TailLists(xs, s, key);
      FilterLists(xs[1..], s - {xs[0]}, key, p);
      HeadIsSmallest(xs, s, key);
      ListingOfSomething(xs, s, key);
      FilterCons(xs, s, key, p);
    }
  }

  lemma FilterCons<T(!new)>(xs: seq<T>, s: set<T>, key: T -> int, p: T -> bool)
    requires xs != [] && xs[0] in s && Lists(xs, s, key)
    requires Lists(Filter(xs[1..], p), Where(s - {xs[0]}, p), key)
    ensures Lists(Filter(xs, p), Where(s, p), key)
  {
    hide StrictlySorted, Filter, Where;
    var tail := Filter(xs[1..], p);
    FilterStep(xs, p);
    HeadIsLeast(xs, key);
    forall y | y in tail ensures y in xs[1..] {
      assert y in Where(s - {xs[0]}, p);
      assert y in xs && y != xs[0];
    }
    ConsSorted(xs[0], tail, key);
    assert forall x :: x in Where(s, p) <==> (x == xs[0] && p(x)) || x in Where(s - {xs[0]}, p);
  }

  lemma HeadIsLeast<T>(xs: seq<T>, key: T -> int)
    requires StrictlySorted(xs, key) && xs != []
    ensures StrictlySorted(xs[1..], key)
    ensures forall y :: y in xs[1..] ==> key(xs[0]) < key(y)
  {
    forall y | y in xs[1..] ensures key(xs[0]) < key(y) {
      var j :| 0 <= j < |xs| - 1 && xs[1..][j] == y;
      assert xs[j + 1] == y;
    }
    assert forall i :: 0 <= i < |xs| - 1 ==> xs[1..][i] == xs[i + 1];
  }

  lemma ConsSorted<T>(x: T, tail: seq<T>, key: T -> int)
    requires StrictlySorted(tail, key) && forall y :: y in tail ==> key(x) < key(y)
    ensures StrictlySorted([x] + tail, key)
  {
    var all := [x] + tail;
    forall i, j | 0 <= i < j < |all| ensures key(all[i]) < key(all[j]) {
      assert all[j] == tail[j - 1] && tail[j - 1] in tail;
      assert i > 0 ==> all[i] == tail[i - 1];
    }
  }

  /** Filtering a sorted listing is listing the filtered set. */
  lemma FilterSorted<T(!new)>(s: set<T>, key: T -> int, p: T -> bool)
    requires DistinctKeys(s, key)
    ensures DistinctKeys(Where(s, p), key)
    ensures Filter(Sorted(s, key), p) == Sorted(Where(s, p), key)
  {
    var kept := Where(s, p);
    SortedLists(s, key);
    SortedLists(kept, key);
    FilterLists(Sorted(s, key), s, key, p);
    ListingIsUnique(Filter(Sorted(s, key), p), Sorted(kept, key), kept, key);
  }

  function Take<T>(xs: seq<T>, n: nat): (ys: seq<T>)
    ensures |ys| == (if n <= |xs| then n else |xs|) && ys <= xs
  {
    if n <= |xs| then xs[..n] else xs
  }

  lemma TakeCons<T>(x: T, xs: seq<T>, n: nat)
    requires n >= 1
    ensures Take([x] + xs, n) == [x] + Take(xs, n - 1)
  {
  }
}
