/** Keyset pagination (packages/persistence/src/cursor.ts and the `list` operations). */
module Paging {
  import opened Basics
  import opened Listing
  import opened Outbox
  import opened MemoryModel

  /** What lies after the cursor position. */
  function Past<T>(key: T -> int, after: Option<nat>): T -> bool {
    (x: T) => after.None? || key(x) > after.value
  }

  /** The two cursor kinds, as functions from a record. */
  ghost predicate CursorOfKey<T(!new)>(key: T -> int, cursorOf: T -> Cursor) {
    forall x :: key(x) >= 0 && (cursorOf(x) == StringKey(key(x)) || cursorOf(x) == Sequence(key(x)))
  }

  function CursorKey(c: Option<Cursor>): Option<nat> {
    if c.None? then None else if c.value.StringKey? then Some(c.value.lastKey) else Some(c.value.lastSequence)
  }

  /** One request against the sorted, filtered listing `xs`. */
  function Fetch<T>(xs: seq<T>, key: T -> int, cursorOf: T -> Cursor, after: Option<nat>, limit: nat): Page<T>
    requires limit >= 1
  {
    BuildPage(Take(Filter(xs, Past(key, after)), limit + 1), limit, cursorOf)
  }

  // The `list` operations are such requests ------------------------------

  lemma {:induction false} FilterTwice<T>(xs: seq<T>, p: T -> bool, q: T -> bool, both: T -> bool)
    requires forall x :: x in xs ==> both(x) == (p(x) && q(x))
    ensures Filter(xs, both) == Filter(Filter(xs, p), q)
  {
    if xs != [] {
      FilterStep(xs, p);
      FilterStep(xs, both);
      FilterTwice(xs[1..], p, q, both);
      if p(xs[0]) {
        assert ([xs[0]] + Filter(xs[1..], p))[1..] == Filter(xs[1..], p);
        FilterStep([xs[0]] + Filter(xs[1..], p), q);
      }
    }
  }

  lemma MessagePageIsFetch(s: MemState, op: Op)
    requires op.ListMessages? && op.limit >= 1 && Sortable(s) && AfterSequence(op.cursor).Ok?
    ensures MemListMessages(s, op) == MessagePage(
      Fetch(Filter(Sorted(s.outbox.Values, MessageKey()), MessageMatches(op.status, None)), MessageKey(),
          MessageCursor(),
            AfterSequence(op.cursor).value, op.limit))
  {
    var after := AfterSequence(op.cursor).value;
    FilterTwice(Sorted(s.outbox.Values, MessageKey()), MessageMatches(op.status, None), Past(MessageKey(), after),
                MessageMatches(op.status, after));
  }

  lemma EventPageIsFetch(s: MemState, op: Op)
    requires op.ListEvents? && op.limit >= 1 && Sortable(s) && AfterSequence(op.cursor).Ok?
    requires !(op.eventAggregate.Some? && op.eventType.None?)
    ensures MemListEvents(s, op) == EventPage(
      Fetch(Filter(Sorted(s.events.Values, EventKey()), EventMatches(op.eventType, op.eventAggregate, None)),
          EventKey(), EventCursor(),
            AfterSequence(op.cursor).value, op.limit))
  {
    var after := AfterSequence(op.cursor).value;
    FilterTwice(Sorted(s.events.Values, EventKey()), EventMatches(op.eventType, op.eventAggregate, None),
        Past(EventKey(), after),
                EventMatches(op.eventType, op.eventAggregate, after));
  }

  lemma {:induction false} FilterAll<T>(xs: seq<T>, p: T -> bool)
    requires forall x :: x in xs ==> p(x)
    ensures Filter(xs, p) == xs
  {
    if xs != [] {
      FilterStep(xs, p);
      FilterAll(xs[1..], p);
    }
  }

  lemma AggregatePageIsFetch(s: MemState, op: Op)
    requires op.ListAggregates? && op.limit >= 1 && Sortable(s) && AfterKey(op.cursor).Ok?
    ensures DistinctKeys(ByType(s, op.aggregateType).Values, AggregateKey())
    ensures MemListAggregates(s, op) == AggregatePage(
      Fetch(Sorted(ByType(s, op.aggregateType).Values, AggregateKey()), AggregateKey(), AggregateCursor(),
            AfterKey(op.cursor).value, op.limit))
  {
    var after := AfterKey(op.cursor).value;
    var xs := Sorted(ByType(s, op.aggregateType).Values, AggregateKey());
    FilterAll(xs, (a: Aggregate) => true);
    FilterTwice(xs, (a: Aggregate) => true, Past(AggregateKey(), after), AggregateAfter(after));
  }

  // Following the cursor on an unchanging listing -------------------------

  lemma {:induction false} PastSorted<T>(xs: seq<T>, key: T -> int, after: Option<nat>)
    requires StrictlySorted(xs, key)
    ensures StrictlySorted(Filter(xs, Past(key, after)), key)
    ensures forall x :: x in Filter(xs, Past(key, after)) ==> x in xs && (after.None? || key(x) > after.value)
    decreases |xs|
  {
    hide StrictlySorted, Filter;
    if xs == [] {
      EmptySorted(key);
      assert Filter(xs, Past(key, after)) == [] by { FilterNothing(Past(key, after)); }
    } else {
      FilterStep(xs, Past(key, after));
      HeadIsLeast(xs, key);
      PastSorted(xs[1..], key, after);
      ConsSorted(xs[0], Filter(xs[1..], Past(key, after)), key);
    }
  }

  /** In a sorted listing, what lies past the key at position `n` is what follows it. */
  lemma {:induction false} PastIsSuffix<T>(xs: seq<T>, key: T -> int, n: nat, after: nat)
    requires StrictlySorted(xs, key) && n < |xs| && key(xs[n]) == after
    ensures Filter(xs, Past(key, Some(after))) == xs[n + 1..]
  {
    FilterStep(xs, Past(key, Some(after)));
    assert forall i :: 0 <= i < |xs| - 1 ==> xs[1..][i] == xs[i + 1];
    if n == 0 {
      FilterAll(xs[1..], Past(key, Some(after)));
    } else {
      assert key(xs[0]) < key(xs[n]);
      PastIsSuffix(xs[1..], key, n - 1, after);
      assert xs[1..][n..] == xs[n + 1..];
    }
  }

  /** Where the next request continues, after a page that was full. */
  lemma NextPage<T(!new)>(xs: seq<T>, key: T -> int, cursorOf: T -> Cursor, after: Option<nat>, limit: nat)
    requires StrictlySorted(xs, key) && CursorOfKey(key, cursorOf) && limit >= 1
    ensures var rest := Filter(xs, Past(key, after));
      var page := Fetch(xs, key, cursorOf, after, limit);
      && page.items == Take(rest, limit)
      && (page.nextCursor.None? <==> |rest| <= limit)
      && (page.nextCursor.Some? ==> Filter(xs, Past(key, CursorKey(page.nextCursor))) == rest[limit..])
  {
    hide StrictlySorted, Filter, Past;
    var rest := Filter(xs, Past(key, after));
    PastSorted(xs, key, after);
    if |rest| > limit {
      assert Take(rest, limit + 1)[limit - 1] == rest[limit - 1];
      assert Take(rest, limit + 1)[..limit] == rest[..limit];
      SkipTo(xs, key, after, limit);
    }
  }

  lemma SkipTo<T>(xs: seq<T>, key: T -> int, after: Option<nat>, limit: nat)
    requires StrictlySorted(xs, key) && limit >= 1 && |Filter(xs, Past(key, after))| > limit
    requires key(Filter(xs, Past(key, after))[limit - 1]) >= 0
    ensures var rest := Filter(xs, Past(key, after));
      Filter(xs, Past(key, Some(key(rest[limit - 1])))) == rest[limit..]
  {
    hide StrictlySorted, Filter;
    var rest := Filter(xs, Past(key, after));
    PastSorted(xs, key, after);
    assert rest[limit - 1] in rest;
    var k: nat := key(rest[limit - 1]);
    PastIsSuffix(rest, key, limit - 1, k);
    FilterTwice(xs, Past(key, after), Past(key, Some(k)), Past(key, Some(k)));
  }

  function Pages<T>(xs: seq<T>, key: T -> int, cursorOf: T -> Cursor, after: Option<nat>, limit: nat,
      most: nat): seq<Page<T>>
    requires limit >= 1
    decreases most
  {
    var page := Fetch(xs, key, cursorOf, after, limit);
    if page.nextCursor.None? || most == 0 then [page]
    else [page] + Pages(xs, key, cursorOf, CursorKey(page.nextCursor), limit, most - 1)
  }

  function Items<T>(pages: seq<Page<T>>): seq<T> {
    if pages == [] then [] else pages[0].items + Items(pages[1..])
  }

  function PageCount(n: nat, limit: nat): nat
    requires limit >= 1
  {
    if n <= limit then 1 else 1 + PageCount(n - limit, limit)
  }

  /** The number of pages is the least `k >= 1` with `k * limit >= n`. */
  lemma {:induction false} PageCountIsCeiling(n: nat, limit: nat)
    requires limit >= 1
    ensures PageCount(n, limit) >= 1 && n <= PageCount(n, limit) * limit
    ensures PageCount(n, limit) > 1 ==> (PageCount(n, limit) - 1) * limit < n
    decreases n
  {
    if n > limit {
      var k := PageCount(n - limit, limit);
      PageCountIsCeiling(n - limit, limit);
      assert (1 + k) * limit == limit + k * limit;
      assert k * limit == limit + (k - 1) * limit;
    }
  }

  /** Following the cursor to its end gives the whole listing, each record once, in the expected number of pages. */
  lemma {:induction false} PaginationIsComplete<T(!new)>(
    xs: seq<T>, key: T -> int, cursorOf: T -> Cursor, after: Option<nat>, limit: nat, most: nat)
    requires StrictlySorted(xs, key) && CursorOfKey(key, cursorOf) && limit >= 1
    requires most >= |Filter(xs, Past(key, after))|
    ensures var pages := Pages(xs, key, cursorOf, after, limit, most);
      var rest := Filter(xs, Past(key, after));
      && Items(pages) == rest
      && |pages| == PageCount(|rest|, limit)
      && pages[|pages| - 1].nextCursor.None?
    decreases most
  {
    hide Fetch, Filter, StrictlySorted, Past, CursorOfKey;
    NextPage(xs, key, cursorOf, after, limit);
    var rest := Filter(xs, Past(key, after));
    var page := Fetch(xs, key, cursorOf, after, limit);
    if page.nextCursor.None? {
      assert [page][1..] == [];
    } else {
      PaginationIsComplete(xs, key, cursorOf, CursorKey(page.nextCursor), limit, most - 1);
      assert ([page] + Pages(xs, key, cursorOf, CursorKey(page.nextCursor), limit, most - 1))[1..]
          == Pages(xs, key, cursorOf, CursorKey(page.nextCursor), limit, most - 1);
    }
  }

  /** The pages a client reads off the outbox by passing every cursor back. */
  function MessagePages(s: MemState, status: Option<Status>, cursor: Option<Cursor>, limit: nat,
      most: nat): seq<Page<Message>>
    requires Sortable(s) && limit >= 1
    decreases most
  {
    var answer := MemListMessages(s, ListMessages(status, cursor, limit));
    if !answer.MessagePage? then []
    else if answer.page.nextCursor.None? || most == 0 then [answer.page]
    else [answer.page] + MessagePages(s, status, answer.page.nextCursor, limit, most - 1)
  }

  function Outgoing(s: MemState, status: Option<Status>): seq<Message>
    requires Sortable(s)
  {
    Filter(Sorted(s.outbox.Values, MessageKey()), MessageMatches(status, None))
  }

  lemma {:induction false} MessagePagesArePages(s: MemState, status: Option<Status>, cursor: Option<Cursor>,
      limit: nat, most: nat)
    requires Sortable(s) && limit >= 1 && AfterSequence(cursor).Ok?
    ensures MessagePages(s, status, cursor, limit, most)
         == Pages(Outgoing(s, status), MessageKey(), MessageCursor(), AfterSequence(cursor).value, limit, most)
    decreases most
  {
    hide Filter, Sorted, Sortable, MemListMessages, Take;
    MessagePageIsFetch(s, ListMessages(status, cursor, limit));
    var page := Fetch(Outgoing(s, status), MessageKey(), MessageCursor(), AfterSequence(cursor).value, limit);
    if page.nextCursor.Some? && most > 0 {
      MessagePagesArePages(s, status, page.nextCursor, limit, most - 1);
    }
  }

  /** Every message with the wanted status, once, in sequence order, in the least sufficient number of pages. */
  lemma MessageListingIsComplete(s: MemState, status: Option<Status>, limit: nat, most: nat)
    requires Sortable(s) && limit >= 1 && most >= |Outgoing(s, status)|
    ensures var pages := MessagePages(s, status, None, limit, most);
      Items(pages) == Outgoing(s, status) && |pages| == PageCount(|Outgoing(s, status)|, limit)
    ensures StrictlySorted(Outgoing(s, status), MessageKey())
    ensures forall m :: m in Outgoing(s, status) <==> m in s.outbox.Values && (status.None? || m.status == status.value)
  {
    var xs := Outgoing(s, status);
    var all := s.outbox.Values;
    SortedLists(all, MessageKey());
    FilterLists(Sorted(all, MessageKey()), all, MessageKey(), MessageMatches(status, None));
    hide Filter, Sorted, Sortable, MemListMessages, Take, Pages, PageCount, Items, MessagePages, Outgoing;
    assert Filter(xs, Past(MessageKey(), None)) == xs by { FilterAll(xs, Past(MessageKey(), None)); }
    MessagePagesArePages(s, status, None, limit, most);
    PaginationIsComplete(xs, MessageKey(), MessageCursor(), None, limit, most);
  }

  /** The same for events. */
  function EventPages(s: MemState, t: Option<Id>, id: Option<Id>, cursor: Option<Cursor>, limit: nat, most: nat)
    : seq<Page<Event>>
    requires Sortable(s) && limit >= 1
    decreases most
  {
    var answer := MemListEvents(s, ListEvents(t, id, cursor, limit));
    if !answer.EventPage? then []
    else if answer.events.nextCursor.None? || most == 0 then [answer.events]
    else [answer.events] + EventPages(s, t, id, answer.events.nextCursor, limit, most - 1)
  }

  function Recorded(s: MemState, t: Option<Id>, id: Option<Id>): seq<Event>
    requires Sortable(s)
  {
    Filter(Sorted(s.events.Values, EventKey()), EventMatches(t, id, None))
  }

  lemma {:induction false} EventPagesArePages(s: MemState, t: Option<Id>, id: Option<Id>, cursor: Option<Cursor>,
      limit: nat, most: nat)
    requires Sortable(s) && limit >= 1 && AfterSequence(cursor).Ok? && (id.Some? ==> t.Some?)
    ensures EventPages(s, t, id, cursor, limit, most)
         == Pages(Recorded(s, t, id), EventKey(), EventCursor(), AfterSequence(cursor).value, limit, most)
    decreases most
  {
    hide Filter, Sorted, Sortable, MemListEvents, Take;
    EventPageIsFetch(s, ListEvents(t, id, cursor, limit));
    var page := Fetch(Recorded(s, t, id), EventKey(), EventCursor(), AfterSequence(cursor).value, limit);
    if page.nextCursor.Some? && most > 0 {
      EventPagesArePages(s, t, id, page.nextCursor, limit, most - 1);
    }
  }

  /** Every event of the wanted aggregate or type, once, in order. */
  lemma EventListingIsComplete(s: MemState, t: Option<Id>, id: Option<Id>, limit: nat, most: nat)
    requires Sortable(s) && limit >= 1 && (id.Some? ==> t.Some?) && most >= |Recorded(s, t, id)|
    ensures var pages := EventPages(s, t, id, None, limit, most);
      Items(pages) == Recorded(s, t, id) && |pages| == PageCount(|Recorded(s, t, id)|, limit)
    ensures StrictlySorted(Recorded(s, t, id), EventKey())
    ensures forall e :: e in Recorded(s, t, id) <==>
      e in s.events.Values && (t.None? || e.aggregateType == t.value) && (id.None? || e.aggregateId == id.value)
  {
    var xs := Recorded(s, t, id);
    var all := s.events.Values;
    SortedLists(all, EventKey());
    FilterLists(Sorted(all, EventKey()), all, EventKey(), EventMatches(t, id, None));
    hide Filter, Sorted, Sortable, MemListEvents, Take, Pages, PageCount, Items, EventPages, Recorded;
    assert Filter(xs, Past(EventKey(), None)) == xs by { FilterAll(xs, Past(EventKey(), None)); }
    EventPagesArePages(s, t, id, None, limit, most);
    PaginationIsComplete(xs, EventKey(), EventCursor(), None, limit, most);
  }

  /** And for the aggregates of a type. */
  function AggregatePages(s: MemState, t: Id, cursor: Option<Cursor>, limit: nat, most: nat): seq<Page<Aggregate>>
    requires Sortable(s) && limit >= 1
    decreases most
  {
    var answer := MemListAggregates(s, ListAggregates(t, cursor, limit));
    if !answer.AggregatePage? then []
    else if answer.aggregates.nextCursor.None? || most == 0 then [answer.aggregates]
    else [answer.aggregates] + AggregatePages(s, t, answer.aggregates.nextCursor, limit, most - 1)
  }

  lemma TypeIsSortable(s: MemState, t: Id)
    requires Sortable(s)
    ensures DistinctKeys(ByType(s, t).Values, AggregateKey())
  {
  }

  function OfThatType(s: MemState, t: Id): seq<Aggregate>
    requires Sortable(s)
  {
    TypeIsSortable(s, t);
    Sorted(ByType(s, t).Values, AggregateKey())
  }

  lemma {:induction false} AggregatePagesArePages(s: MemState, t: Id, cursor: Option<Cursor>, limit: nat, most: nat)
    requires Sortable(s) && limit >= 1 && AfterKey(cursor).Ok?
    ensures AggregatePages(s, t, cursor, limit, most)
         == Pages(OfThatType(s, t), AggregateKey(), AggregateCursor(), AfterKey(cursor).value, limit, most)
    decreases most
  {
    hide Filter, Sorted, Sortable, MemListAggregates, Take;
    AggregatePageIsFetch(s, ListAggregates(t, cursor, limit));
    var page := Fetch(OfThatType(s, t), AggregateKey(), AggregateCursor(), AfterKey(cursor).value, limit);
    if page.nextCursor.Some? && most > 0 {
      AggregatePagesArePages(s, t, page.nextCursor, limit, most - 1);
    }
  }

  /** Every aggregate of the type, once, in the order of the ids. */
  lemma AggregateListingIsComplete(s: MemState, t: Id, limit: nat, most: nat)
    requires Sortable(s) && limit >= 1 && most >= |OfThatType(s, t)|
    ensures var pages := AggregatePages(s, t, None, limit, most);
      Items(pages) == OfThatType(s, t) && |pages| == PageCount(|OfThatType(s, t)|, limit)
    ensures StrictlySorted(OfThatType(s, t), AggregateKey())
    ensures forall a :: a in OfThatType(s, t) <==> t in s.aggregates && a in s.aggregates[t].Values
  {
    var xs := OfThatType(s, t);
    SortedLists(ByType(s, t).Values, AggregateKey());
    hide Filter, Sorted, Sortable, MemListAggregates, Take, Pages, PageCount, Items, AggregatePages, OfThatType;
    assert Filter(xs, Past(AggregateKey(), None)) == xs by { FilterAll(xs, Past(AggregateKey(), None)); }
    AggregatePagesArePages(s, t, None, limit, most);
    PaginationIsComplete(xs, AggregateKey(), AggregateCursor(), None, limit, most);
  }

  /** A listing is refused for a cursor of the other kind, and for events of an aggregate without its type. */
  lemma ListingsRefuse(s: MemState, op: Op)
    requires Sortable(s) && (op.ListAggregates? || op.ListEvents? || op.ListMessages?) && op.limit >= 1
    ensures var answer := MemStep(s, op).1;
      var untyped := op.ListEvents? && op.eventAggregate.Some? && op.eventType.None?;
      var foreign := op.cursor.Some? && (op.ListAggregates? <==> op.cursor.value.Sequence?);
      && (answer.Failed? <==> untyped || foreign)
      && (answer.Failed? ==> answer.error == if untyped then Validation else InvalidCursor)
    ensures MemStep(s, op).0 == s
  {
    hide Filter, Sorted, Sortable, Take;
  }

  // Following the cursor while the listing changes ------------------------

  /** Each request sees the listing of its moment. */
  function Walk<T>(listings: seq<seq<T>>, key: T -> int, cursorOf: T -> Cursor, after: Option<nat>, limit: nat): seq<T>
    requires limit >= 1
  {
    if listings == [] then []
    else
      var page := Fetch(listings[0], key, cursorOf, after, limit);
      page.items + if page.nextCursor.None? then []
          else Walk(listings[1..], key, cursorOf, CursorKey(page.nextCursor), limit)
  }

  /** The walk ends: some request returns no cursor. */
  predicate Ends<T>(listings: seq<seq<T>>, key: T -> int, cursorOf: T -> Cursor, after: Option<nat>, limit: nat)
    requires limit >= 1
  {
    listings != [] &&
    var page := Fetch(listings[0], key, cursorOf, after, limit);
    page.nextCursor.None? || Ends(listings[1..], key, cursorOf, CursorKey(page.nextCursor), limit)
  }

  ghost predicate HasKey<T(!new)>(xs: seq<T>, key: T -> int, k: int) {
    exists x :: x in xs && key(x) == k
  }

  lemma PageBounds<T(!new)>(xs: seq<T>, key: T -> int, cursorOf: T -> Cursor, after: Option<nat>, limit: nat)
    requires StrictlySorted(xs, key) && CursorOfKey(key, cursorOf) && limit >= 1
    ensures var page := Fetch(xs, key, cursorOf, after, limit);
      && StrictlySorted(page.items, key)
      && (forall x :: x in page.items ==> x in xs && (after.None? || key(x) > after.value))
      && (page.nextCursor.Some? ==>
           page.items != [] && CursorKey(page.nextCursor) == Some(key(page.items[|page.items| - 1])))
      && (page.nextCursor.Some? ==> after.None? || CursorKey(page.nextCursor).value > after.value)
  {
    PastSorted(xs, key, after);
  }

  /** No record is repeated: keys only ever increase along the walk, whatever changes in between. */
  lemma {:induction false} WalkIncreases<T(!new)>(
    listings: seq<seq<T>>, key: T -> int, cursorOf: T -> Cursor, after: Option<nat>, limit: nat)
    requires limit >= 1 && CursorOfKey(key, cursorOf)
    requires forall t :: 0 <= t < |listings| ==> StrictlySorted(listings[t], key)
    ensures var all := Walk(listings, key, cursorOf, after, limit);
      StrictlySorted(all, key) && forall x :: x in all ==> after.None? || key(x) > after.value
    decreases |listings|
  {
    hide Fetch, CursorOfKey, StrictlySorted, Walk;
    WalkStep(listings, key, cursorOf, after, limit);
    if listings == [] {
      EmptySorted(key);
    } else {
      var page := Fetch(listings[0], key, cursorOf, after, limit);
      PageBounds(listings[0], key, cursorOf, after, limit);
      if page.nextCursor.Some? {
        var next := CursorKey(page.nextCursor);
        assert forall t :: 0 <= t < |listings| - 1 ==> listings[1..][t] == listings[t + 1];
        WalkIncreases(listings[1..], key, cursorOf, next, limit);
        JoinSorted(page.items, Walk(listings[1..], key, cursorOf, next, limit), key);
      } else {
        assert page.items + [] == page.items;
      }
    }
  }

  lemma WalkStep<T>(listings: seq<seq<T>>, key: T -> int, cursorOf: T -> Cursor, after: Option<nat>, limit: nat)
    requires limit >= 1
    ensures listings == [] ==> Walk(listings, key, cursorOf, after, limit) == []
    ensures listings != [] ==>
      var page := Fetch(listings[0], key, cursorOf, after, limit);
      Walk(listings, key, cursorOf, after, limit)
        == page.items + if page.nextCursor.None? then []
            else Walk(listings[1..], key, cursorOf, CursorKey(page.nextCursor), limit)
  {
  }

  lemma EmptySorted<T>(key: T -> int)
    ensures StrictlySorted([], key)
  {
  }

  lemma JoinSorted<T>(a: seq<T>, b: seq<T>, key: T -> int)
    requires StrictlySorted(a, key) && StrictlySorted(b, key) && a != []
    requires forall x :: x in b ==> key(x) > key(a[|a| - 1])
    ensures StrictlySorted(a + b, key)
  {
    forall i, j | 0 <= i < j < |a + b| ensures key((a + b)[i]) < key((a + b)[j]) {
      if i < |a| <= j {
        assert (a + b)[j] == b[j - |a|] && b[j - |a|] in b;
        assert i < |a| - 1 ==> key(a[i]) < key(a[|a| - 1]);
      } else if i >= |a| {
        assert (a + b)[j] == b[j - |a|] && (a + b)[i] == b[i - |a|];
      }
    }
  }

  /** Nothing is skipped: a key listed at every request turns up. */
  lemma {:induction false} WalkFinds<T(!new)>(
    listings: seq<seq<T>>, key: T -> int, cursorOf: T -> Cursor, after: Option<nat>, limit: nat, k: int)
    requires limit >= 1 && CursorOfKey(key, cursorOf)
    requires forall t :: 0 <= t < |listings| ==> StrictlySorted(listings[t], key) && HasKey(listings[t], key, k)
    requires Ends(listings, key, cursorOf, after, limit) && (after.None? || k > after.value)
    ensures HasKey(Walk(listings, key, cursorOf, after, limit), key, k)
    decreases |listings|
  {
    hide Fetch, CursorOfKey, StrictlySorted, HasKey;
    var page := Fetch(listings[0], key, cursorOf, after, limit);
    PageHasOrPasses(listings[0], key, cursorOf, after, limit, k);
    if !HasKey(page.items, key, k) {
      var next := CursorKey(page.nextCursor);
      assert forall t :: 0 <= t < |listings| - 1 ==> listings[1..][t] == listings[t + 1];
      WalkFinds(listings[1..], key, cursorOf, next, limit, k);
      HasKeyJoin(page.items, Walk(listings[1..], key, cursorOf, next, limit), key, k);
    } else {
      HasKeyJoin(page.items, if page.nextCursor.None? then []
          else Walk(listings[1..], key, cursorOf, CursorKey(page.nextCursor), limit), key, k);
    }
  }

  lemma HasKeyJoin<T(!new)>(a: seq<T>, b: seq<T>, key: T -> int, k: int)
    requires HasKey(a, key, k) || HasKey(b, key, k)
    ensures HasKey(a + b, key, k)
  {
    var x :| (x in a || x in b) && key(x) == k;
    assert x in a + b;
  }

  lemma {:induction false} FilterKeeps<T>(xs: seq<T>, p: T -> bool, x: T)
    requires x in xs && p(x)
    ensures x in Filter(xs, p)
  {
    FilterStep(xs, p);
    if x != xs[0] {
      FilterKeeps(xs[1..], p, x);
    }
  }

  lemma PageHasOrPasses<T(!new)>(xs: seq<T>, key: T -> int, cursorOf: T -> Cursor, after: Option<nat>, limit: nat,
      k: int)
    requires StrictlySorted(xs, key) && CursorOfKey(key, cursorOf) && limit >= 1
    requires HasKey(xs, key, k) && (after.None? || k > after.value)
    ensures var page := Fetch(xs, key, cursorOf, after, limit);
      HasKey(page.items, key, k) || (page.nextCursor.Some? && k > CursorKey(page.nextCursor).value)
  {
    var x :| x in xs && key(x) == k;
    var rest := Filter(xs, Past(key, after));
    FilterKeeps(xs, Past(key, after), x);
    PastSorted(xs, key, after);
    var i :| 0 <= i < |rest| && rest[i] == x;
    var page := Fetch(xs, key, cursorOf, after, limit);
    if i < limit {
      assert i < |page.items| && page.items[i] == x;
      assert x in page.items;
    } else {
      assert key(rest[limit - 1]) < key(rest[i]);
    }
  }
}
