/** Sorting with a three-way comparator, as `Array.prototype.sort` does: stable. */
module Ordering {
  type Comparator<!T> = (T, T) -> int

  /** A comparator that is a total preorder. */
  ghost predicate Orders<T(!new)>(compare: Comparator<T>) {
    && (forall a, b :: compare(a, b) < 0 <==> compare(b, a) > 0)
    && (forall a, b, c :: compare(a, b) <= 0 && compare(b, c) <= 0 ==> compare(a, c) <= 0)
  }

  function Insert<T>(x: T, xs: seq<T>, compare: Comparator<T>): seq<T> {
    if xs == [] || compare(x, xs[0]) < 0 then [x] + xs else [xs[0]] + Insert(x, xs[1..], compare)
  }

  function Sort<T>(xs: seq<T>, compare: Comparator<T>): seq<T> {
    if xs == [] then [] else Insert(xs[|xs| - 1], Sort(xs[..|xs| - 1], compare), compare)
  }

  ghost predicate InOrder<T>(xs: seq<T>, compare: Comparator<T>) {
    forall i, j :: 0 <= i < j < |xs| ==> compare(xs[i], xs[j]) <= 0
  }

  /** Neighbours in order are enough. */
  lemma {:induction false} NeighboursInOrder<T(!new)>(xs: seq<T>, compare: Comparator<T>, i: nat, j: nat)
    requires Orders(compare) && forall k :: 0 < k < |xs| ==> compare(xs[k - 1], xs[k]) <= 0
    requires i < j < |xs|
    ensures compare(xs[i], xs[j]) <= 0
  {
    if i < j - 1 {
      NeighboursInOrder(xs, compare, i, j - 1);
      assert compare(xs[j - 1], xs[j]) <= 0;
    }
  }

  lemma InOrderIff<T(!new)>(xs: seq<T>, compare: Comparator<T>)
    requires Orders(compare)
    ensures InOrder(xs, compare) <==> forall k :: 0 < k < |xs| ==> compare(xs[k - 1], xs[k]) <= 0
  {
    if forall k :: 0 < k < |xs| ==> compare(xs[k - 1], xs[k]) <= 0 {
      forall i, j | 0 <= i < j < |xs| ensures compare(xs[i], xs[j]) <= 0 {
        NeighboursInOrder(xs, compare, i, j);
      }
    }
  }

  lemma {:induction false} InsertPermutes<T>(x: T, xs: seq<T>, compare: Comparator<T>)
    ensures multiset(Insert(x, xs, compare)) == multiset([x] + xs)
  {
    if !(xs == [] || compare(x, xs[0]) < 0) {
      InsertPermutes(x, xs[1..], compare);
      assert xs == [xs[0]] + xs[1..];
    }
  }

  lemma {:induction false} SortPermutes<T>(xs: seq<T>, compare: Comparator<T>)
    ensures multiset(Sort(xs, compare)) == multiset(xs)
  {
    hide Insert;
    if xs != [] {
      var init, last := xs[..|xs| - 1], xs[|xs| - 1];
      SortPermutes(init, compare);
      InsertPermutes(last, Sort(init, compare), compare);
      assert multiset([last] + Sort(init, compare)) == multiset{last} + multiset(init);
      assert xs == init + [last];
    }
  }

  lemma ConsInOrder<T>(x: T, xs: seq<T>, compare: Comparator<T>)
    requires InOrder(xs, compare) && forall y :: y in xs ==> compare(x, y) <= 0
    ensures InOrder([x] + xs, compare)
  {
    var all := [x] + xs;
    forall i, j | 0 <= i < j < |all| ensures compare(all[i], all[j]) <= 0 {
      assert all[j] == xs[j - 1] && xs[j - 1] in xs;
      assert i > 0 ==> all[i] == xs[i - 1];
    }
  }

  lemma HeadBeforeTail<T>(xs: seq<T>, compare: Comparator<T>)
    requires InOrder(xs, compare) && xs != []
    ensures InOrder(xs[1..], compare) && forall y :: y in xs[1..] ==> compare(xs[0], y) <= 0
  {
    assert forall i :: 0 <= i < |xs| - 1 ==> xs[1..][i] == xs[i + 1];
  }

  lemma {:induction false} InsertKeepsOrder<T(!new)>(x: T, xs: seq<T>, compare: Comparator<T>)
    requires Orders(compare) && InOrder(xs, compare)
    ensures InOrder(Insert(x, xs, compare), compare)
  {
    hide InOrder;
    if xs == [] {
      ConsInOrder(x, [], compare) by { assert InOrder<T>([], compare); }
    } else {
      HeadBeforeTail(xs, compare);
      if compare(x, xs[0]) < 0 {
        assert xs == [xs[0]] + xs[1..];
        ConsInOrder(x, xs, compare);
      } else {
        InsertKeepsOrder(x, xs[1..], compare);
        InsertedOnly(x, xs[1..], compare);
        ConsInOrder(xs[0], Insert(x, xs[1..], compare), compare);
      }
    }
  }

  lemma InsertedOnly<T>(x: T, xs: seq<T>, compare: Comparator<T>)
    ensures forall y :: y in Insert(x, xs, compare) <==> y == x || y in xs
  {
    InsertPermutes(x, xs, compare);
    forall y ensures y in Insert(x, xs, compare) <==> y == x || y in xs {
      assert y in Insert(x, xs, compare) <==> y in multiset(Insert(x, xs, compare));
      assert y in [x] + xs <==> y in multiset([x] + xs);
    }
  }

  lemma {:induction false} SortOrders<T(!new)>(xs: seq<T>, compare: Comparator<T>)
    requires Orders(compare)
    ensures InOrder(Sort(xs, compare), compare)
  {
    if xs != [] {
      SortOrders(xs[..|xs| - 1], compare);
      InsertKeepsOrder(xs[|xs| - 1], Sort(xs[..|xs| - 1], compare), compare);
    }
  }

  /** Elements that differ never tie. */
  ghost predicate NoTies<T(!new)>(xs: seq<T>, compare: Comparator<T>) {
    forall a, b :: a in xs && b in xs && compare(a, b) == 0 ==> a == b
  }

  lemma {:induction false} OneArrangement<T(!new)>(v: seq<T>, w: seq<T>, compare: Comparator<T>)
    requires Orders(compare) && InOrder(v, compare) && InOrder(w, compare)
    requires multiset(v) == multiset(w) && NoTies(v, compare)
    ensures v == w
  {
    hide InOrder, Orders, NoTies;
    assert |v| == |multiset(v)| == |multiset(w)| == |w|;
    if v != [] {
      HeadBeforeTail(v, compare);
      HeadBeforeTail(w, compare);
      SameHead(v, w, compare);
      SameTails(v, w);
      NoTiesInTail(v, compare);
      OneArrangement(v[1..], w[1..], compare);
      assert v == [v[0]] + v[1..] && w == [w[0]] + w[1..];
    }
  }

  lemma SameTails<T>(v: seq<T>, w: seq<T>)
    requires v != [] && w != [] && v[0] == w[0] && multiset(v) == multiset(w)
    ensures multiset(v[1..]) == multiset(w[1..])
  {
    assert v == [v[0]] + v[1..] && w == [w[0]] + w[1..];
    assert multiset(v[1..]) == multiset(v) - multiset{v[0]} && multiset(w[1..]) == multiset(w) - multiset{w[0]};
  }

  lemma NoTiesInTail<T(!new)>(v: seq<T>, compare: Comparator<T>)
    requires NoTies(v, compare) && v != []
    ensures NoTies(v[1..], compare)
  {
    assert forall x :: x in v[1..] ==> x in v;
  }

  lemma SameHead<T(!new)>(v: seq<T>, w: seq<T>, compare: Comparator<T>)
    requires Orders(compare) && v != [] && w != [] && multiset(v) == multiset(w) && NoTies(v, compare)
    requires forall y :: y in v[1..] ==> compare(v[0], y) <= 0
    requires forall y :: y in w[1..] ==> compare(w[0], y) <= 0
    ensures v[0] == w[0]
  {
    SameElements(v, w);
    HeadBeforeAll(v, compare);
    HeadBeforeAll(w, compare);
  }

  lemma HeadBeforeAll<T(!new)>(v: seq<T>, compare: Comparator<T>)
    requires Orders(compare) && v != [] && forall y :: y in v[1..] ==> compare(v[0], y) <= 0
    ensures v[0] in v && forall y :: y in v ==> compare(v[0], y) <= 0
  {
    assert v == [v[0]] + v[1..];
  }

  /** Sorting forgets the arrangement of its input. */
  lemma SortIgnoresArrangement<T(!new)>(v: seq<T>, w: seq<T>, compare: Comparator<T>)
    requires Orders(compare) && multiset(v) == multiset(w) && NoTies(v, compare)
    ensures Sort(v, compare) == Sort(w, compare)
  {
    SortPermutes(v, compare);
    SortPermutes(w, compare);
    SortOrders(v, compare);
    SortOrders(w, compare);
    SameElements(Sort(v, compare), v);
    OneArrangement(Sort(v, compare), Sort(w, compare), compare);
  }

  lemma SameElements<T>(v: seq<T>, w: seq<T>)
    requires multiset(v) == multiset(w)
    ensures |v| == |w| && forall x :: x in v <==> x in w
  {
    assert |v| == |multiset(v)| && |w| == |multiset(w)|;
    forall x ensures x in v <==> x in w {
      assert x in v <==> x in multiset(v);
      assert x in w <==> x in multiset(w);
    }
  }
}
