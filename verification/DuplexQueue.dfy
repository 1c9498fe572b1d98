/** The bounded event queue of a duplex process session (packages/process-broker/src/duplex.ts).

    `State` is the queue with a history beside it: which events a consumer has received and
    which tagged bytes were offered. The functions below say what each call does to it, the
    class does the same on fields, and the lemmas hold of every sequence of calls.
 */
module DuplexQueue {
  import opened Basics

  datatype StreamName = Stdout | Stderr

  datatype Limits = Limits(maxEventBytes: nat, maxQueuedEvents: nat, maxQueuedEventBytes: nat)

  datatype Event = Event(sequence: nat, stream: StreamName, chunk: Bytes)

  /** What `next` resolves with. */
  datatype ReadResult = Value(event: Event) | Done

  /** `readers` holds the numbers of unresolved reads; `settled` the result of every resolved one. `intact` is lost when
      a push is refused or the consumer leaves. */
  datatype State = State(
    events: seq<Event>,
    readers: seq<nat>,
    queuedBytes: nat,
    sequence: nat,
    finished: bool,
    consumerClosed: bool,
    promises: nat,
    settled: map<nat, ReadResult>,
    delivered: seq<Event>,
    offered: seq<(StreamName, Byte)>,
    intact: bool)

  datatype Call = Push(stream: StreamName, chunk: Bytes) | Next | Finish | Return

  predicate ValidLimits(l: Limits) {
    1 <= l.maxEventBytes <= l.maxQueuedEventBytes && 1 <= l.maxQueuedEvents
  }

  const FRESH := State([], [], 0, 0, false, false, 0, map[], [], [], true)

  function PartEnd(l: Limits, chunk: Bytes, offset: nat): (end: nat)
    requires ValidLimits(l) && offset < |chunk|
    ensures offset < end <= |chunk| && end - offset <= l.maxEventBytes
  {
    if offset + l.maxEventBytes <= |chunk| then offset + l.maxEventBytes else |chunk|
  }

  datatype Offer = Delivered | Queued | Refused

  /** What becomes of the next part of a chunk. */
  function OfferOf(l: Limits, s: State, size: nat): Offer {
    if s.readers != [] then Delivered
    else if |s.events| >= l.maxQueuedEvents || s.queuedBytes + size > l.maxQueuedEventBytes then Refused
    else Queued
  }

  function AddPart(l: Limits, s: State, stream: StreamName, part: Bytes): State {
    var event := Event(s.sequence + 1, stream, part);
    match OfferOf(l, s, |part|)
    case Delivered =>
      s.(sequence := event.sequence, readers := s.readers[1..],
         settled := s.settled[s.readers[0] := Value(event)], delivered := s.delivered + [event])
    case Queued =>
      s.(sequence := event.sequence, events := s.events + [event], queuedBytes := s.queuedBytes + |part|)
    case Refused =>
      s.(sequence := event.sequence, intact := false)
  }

  /** The loop of `push` from `offset` on: the state it leaves and how far it got. */
  function PushParts(l: Limits, s: State, stream: StreamName, chunk: Bytes, offset: nat): (r: (State, nat))
    requires ValidLimits(l) && offset <= |chunk|
    ensures offset <= r.1 <= |chunk|
    decreases |chunk| - offset
  {
    if offset == |chunk| then (s, offset)
    else
      var end := PartEnd(l, chunk, offset);
      var next := AddPart(l, s, stream, chunk[offset..end]);
      if OfferOf(l, s, end - offset).Refused? then (next, offset)
      else PushParts(l, next, stream, chunk, end)
  }

  function Tagged(stream: StreamName, chunk: Bytes): (t: seq<(StreamName, Byte)>)
    ensures |t| == |chunk| && forall i :: 0 <= i < |t| ==> t[i] == (stream, chunk[i])
  {
    seq(|chunk|, i requires 0 <= i < |chunk| => (stream, chunk[i]))
  }

  function DoPush(l: Limits, s: State, stream: StreamName, chunk: Bytes): (r: (State, bool))
    requires ValidLimits(l)
  {
    if s.finished || s.consumerClosed then (s, true)
    else
      var (next, reached) := PushParts(l, s.(offered := s.offered + Tagged(stream, chunk)), stream, chunk, 0);
      (next, reached == |chunk|)
  }

  function SettleAll(settled: map<nat, ReadResult>, readers: seq<nat>): map<nat, ReadResult>
    decreases |readers|
  {
    if readers == [] then settled else SettleAll(settled[readers[0] := Done], readers[1..])
  }

  function DoFinish(s: State): State {
    if s.finished then s
    else if s.events == [] then
      s.(finished := true, readers := [], settled := SettleAll(s.settled, s.readers))
    else s.(finished := true)
  }

  /** `next` settles its own read at once when it can, and otherwise queues it. */
  function DoNext(s: State): State {
    var me := s.promises;
    var t := s.(promises := s.promises + 1);
    if s.events != [] then
      var event := s.events[0];
      t.(events := s.events[1..], queuedBytes := if s.queuedBytes >= |event.chunk| then s.queuedBytes - |event.chunk|
          else 0,
         settled := s.settled[me := Value(event)], delivered := s.delivered + [event])
    else if s.finished || s.consumerClosed then t.(settled := s.settled[me := Done])
    else t.(readers := s.readers + [me])
  }

  function DoReturn(s: State): State {
    s.(consumerClosed := true, intact := false, events := [], queuedBytes := 0, readers := [],
       promises := s.promises + 1, settled := SettleAll(s.settled, s.readers)[s.promises := Done])
  }

  function Step(l: Limits, s: State, c: Call): State
    requires ValidLimits(l)
  {
    match c
    case Push(stream, chunk) => DoPush(l, s, stream, chunk).0
    case Next => DoNext(s)
    case Finish => DoFinish(s)
    case Return => DoReturn(s)
  }

  function Run(l: Limits, calls: seq<Call>): State
    requires ValidLimits(l)
  {
    if calls == [] then FRESH else Step(l, Run(l, calls[..|calls| - 1]), calls[|calls| - 1])
  }

  // ------------------------------------------------------------------
  // The class
  // ------------------------------------------------------------------

  class BoundedDuplexEventQueue {
    const limits: Limits
    var events: seq<Event>
    var readers: seq<nat>
    var queuedBytes: nat
    var sequence: nat
    var finished: bool
    var consumerClosed: bool
    // The promises handed out so far, and how each was resolved.
    var promises: nat
    var settled: map<nat, ReadResult>
    ghost var delivered: seq<Event>
    ghost var offered: seq<(StreamName, Byte)>
    ghost var intact: bool

    ghost function Now(): State
      reads this
    {
      State(events, readers, queuedBytes, sequence, finished, consumerClosed, promises, settled, delivered, offered,
          intact)
    }

    /** The queue holds the invariant of every reachable state. */
    ghost predicate Valid()
      reads this
    {
      ValidLimits(limits) && Inv(limits, Now())
    }

    constructor (limits: Limits)
      requires ValidLimits(limits)
      ensures Valid() && this.limits == limits && Now() == FRESH
    {
      hide Inv;
      FreshHasInv(limits);
      this.limits := limits;
      events, readers, queuedBytes, sequence := [], [], 0, 0;
      finished, consumerClosed, promises, settled := false, false, 0, map[];
      delivered, offered, intact := [], [], true;
    }

    method Push(stream: StreamName, chunk: Bytes) returns (accepted: bool)
      requires Valid()
      modifies this
      ensures Valid() && (Now(), accepted) == DoPush(limits, old(Now()), stream, chunk)
    {
      hide Inv, PushParts, Tagged, AddPart, OfferOf;
      PushKeepsInv(limits, Now(), stream, chunk);
      if finished || consumerClosed {
        return true;
      }
      ghost var start := Now().(offered := offered + Tagged(stream, chunk));
      offered := offered + Tagged(stream, chunk);
      var offset := 0;
      PushPartsStep(limits, start, stream, chunk, 0);
      while offset < |chunk|
        invariant offset <= |chunk|
        invariant PushParts(limits, Now(), stream, chunk, offset) == PushParts(limits, start, stream, chunk, 0)
      {
        PushPartsStep(limits, Now(), stream, chunk, offset);
        var end := PartEnd(limits, chunk, offset);
        var kept := Offer(stream, chunk[offset..end]);
        if !kept {
          return false;
        }
        offset := end;
      }
      PushPartsStep(limits, Now(), stream, chunk, offset);
      return true;
    }

    /** One iteration of the loop in `push`. */
    method Offer(stream: StreamName, part: Bytes) returns (kept: bool)
      modifies this
      ensures Now() == AddPart(limits, old(Now()), stream, part)
      ensures kept == !OfferOf(limits, old(Now()), |part|).Refused?
    {
      var event := Event(sequence + 1, stream, part);
      sequence := event.sequence;
      if readers != [] {
        settled := settled[readers[0] := Value(event)];
        readers := readers[1..];
        delivered := delivered + [event];
        return true;
      }
      if |events| >= limits.maxQueuedEvents || queuedBytes + |event.chunk| > limits.maxQueuedEventBytes {
        intact := false;
        return false;
      }
      events := events + [event];
      queuedBytes := queuedBytes + |event.chunk|;
      return true;
    }

    method Finish()
      requires Valid()
      modifies this
      ensures Valid() && Now() == DoFinish(old(Now()))
    {
      hide Inv;
      FinishKeepsInv(limits, Now());
      if finished {
        return;
      }
      finished := true;
      if events == [] {
        SettleReaders();
      }
    }

    method SettleReaders()
      modifies this`readers, this`settled
      ensures readers == [] && settled == SettleAll(old(settled), old(readers))
    {
      while readers != []
        invariant SettleAll(settled, readers) == SettleAll(old(settled), old(readers))
        decreases |readers|
      {
        settled := settled[readers[0] := Done];
        readers := readers[1..];
      }
    }

    /** The synchronous part of `next`; `me` numbers the promise it returns. */
    method Next() returns (me: nat)
      requires Valid()
      modifies this
      ensures Valid() && Now() == DoNext(old(Now())) && me == old(promises)
    {
      hide Inv;
      NextKeepsInv(limits, Now());
      NextNeverUnderflows(limits, Now());
      me := promises;
      promises := promises + 1;
      if events != [] {
        var event := events[0];
        events := events[1..];
        queuedBytes := queuedBytes - |event.chunk|;
        settled := settled[me := Value(event)];
        delivered := delivered + [event];
      } else if finished || consumerClosed {
        settled := settled[me := Done];
      } else {
        readers := readers + [me];
      }
    }

    method Return() returns (me: nat)
      requires Valid()
      modifies this
      ensures Valid() && Now() == DoReturn(old(Now())) && me == old(promises)
    {
      hide Inv;
      ReturnKeepsInv(limits, Now());
      consumerClosed, intact := true, false;
      events := [];
      queuedBytes := 0;
      SettleReaders();
      me := promises;
      settled := settled[me := Done];
      promises := promises + 1;
    }
  }

  lemma PushPartsStep(l: Limits, s: State, stream: StreamName, chunk: Bytes, offset: nat)
    requires ValidLimits(l) && offset <= |chunk|
    ensures PushParts(l, s, stream, chunk, offset) ==
      if offset == |chunk| then (s, offset)
      else
        var end := PartEnd(l, chunk, offset);
        var next := AddPart(l, s, stream, chunk[offset..end]);
        if OfferOf(l, s, end - offset).Refused? then (next, offset) else PushParts(l, next, stream, chunk, end)
  {
  }

  // ------------------------------------------------------------------
  // What every reachable state satisfies
  // ------------------------------------------------------------------

  function TotalBytes(events: seq<Event>): nat {
    if events == [] then 0 else |events[0].chunk| + TotalBytes(events[1..])
  }

  lemma {:induction false} TotalBytesAppend(events: seq<Event>, e: Event)
    ensures TotalBytes(events + [e]) == TotalBytes(events) + |e.chunk|
  {
    if events == [] {
      assert [e][1..] == [];
    } else {
      TotalBytesAppend(events[1..], e);
      assert (events + [e])[1..] == events[1..] + [e];
    }
  }

  function Contents(events: seq<Event>): seq<(StreamName, Byte)> {
    if events == [] then []
        else Contents(events[..|events| - 1]) + Tagged(events[|events| - 1].stream, events[|events| - 1].chunk)
  }

  lemma ContentsAppend(events: seq<Event>, e: Event)
    ensures Contents(events + [e]) == Contents(events) + Tagged(e.stream, e.chunk)
  {
    assert (events + [e])[..|events|] == events;
  }

  /** Every event ever made and not thrown away: first those received, then those queued. */
  function Kept(s: State): seq<Event> {
    s.delivered + s.events
  }

  ghost predicate Inv(l: Limits, s: State)
    requires ValidLimits(l)
  {
    && CoreInv(l, s)
    && (s.intact ==> Contents(Kept(s)) == s.offered)
  }

  ghost predicate CoreInv(l: Limits, s: State) {
    && WithinBounds(l, s)
    && FlagsAgree(s)
    && Numbered(l, Kept(s), s.sequence, s.intact)
    && ReadersAccountedFor(s)
    && DoneIsEnd(s)
  }

  /** A read is told that it is done only when the consumer has left, or the queue is finished and empty. */
  ghost predicate DoneIsEnd(s: State) {
    (exists r :: r in s.settled && s.settled[r].Done?) ==> s.consumerClosed || (s.finished && s.events == [])
  }

  ghost predicate WithinBounds(l: Limits, s: State) {
    && s.queuedBytes == TotalBytes(s.events)
    && |s.events| <= l.maxQueuedEvents
    && s.queuedBytes <= l.maxQueuedEventBytes
  }

  ghost predicate FlagsAgree(s: State) {
    && (s.readers != [] ==> s.events == [] && !s.finished && !s.consumerClosed)
    && (s.intact ==> !s.consumerClosed)
    && (s.consumerClosed ==> s.events == [])
  }

  /** Parts fit the event limit; numbers increase, and run 1, 2, 3, ... while nothing was lost. */
  ghost predicate Numbered(l: Limits, kept: seq<Event>, sequence: nat, intact: bool) {
    && (forall i :: 0 <= i < |kept| ==> 1 <= |kept[i].chunk| <= l.maxEventBytes && kept[i].sequence <= sequence)
    && (forall i, j :: 0 <= i < j < |kept| ==> kept[i].sequence < kept[j].sequence)
    && (intact ==> |kept| == sequence && forall i :: 0 <= i < |kept| ==> kept[i].sequence == i + 1)
  }

  /** The events that the first `n` promises were resolved with. */
  function Received(settled: map<nat, ReadResult>, n: nat): seq<Event> {
    if n == 0 then []
    else Received(settled, n - 1) +
         if n - 1 in settled && settled[n - 1].Value? then [settled[n - 1].event] else []
  }

  /** The youngest promises wait, oldest first; all older ones are settled, with the delivered events in order. */
  ghost predicate ReadersAccountedFor(s: State) {
    var waiting := |s.readers|;
    && waiting <= s.promises
    && (forall i :: 0 <= i < waiting ==> s.readers[i] == s.promises - waiting + i)
    && (forall r: nat :: r in s.settled <==> r < s.promises - waiting)
    && Received(s.settled, s.promises - waiting) == s.delivered
  }

  lemma {:induction false} ReceivedIgnoresLater(a: map<nat, ReadResult>, b: map<nat, ReadResult>, n: nat)
    requires forall r: nat :: r < n ==> (r in a <==> r in b) && (r in a ==> a[r] == b[r])
    ensures Received(a, n) == Received(b, n)
  {
    if n > 0 {
      ReceivedIgnoresLater(a, b, n - 1);
    }
  }

  lemma ReceivedNext(settled: map<nat, ReadResult>, n: nat, result: ReadResult)
    requires n !in settled
    ensures Received(settled[n := result], n + 1) ==
            Received(settled, n) + if result.Value? then [result.event] else []
  {
    ReceivedIgnoresLater(settled, settled[n := result], n);
  }

  lemma NumberedAppend(l: Limits, kept: seq<Event>, e: Event, intact: bool)
    requires e.sequence > 0 && Numbered(l, kept, e.sequence - 1, intact) && 1 <= |e.chunk| <= l.maxEventBytes
    ensures Numbered(l, kept + [e], e.sequence, intact)
  {
  }

  lemma ServeReader(l: Limits, s: State, stream: StreamName, part: Bytes)
    requires ReadersAccountedFor(s)
    ensures ReadersAccountedFor(AddPart(l, s, stream, part))
  {
    if s.readers != [] {
      ReceivedNext(s.settled, s.promises - |s.readers|, Value(Event(s.sequence + 1, stream, part)));
    }
  }

  lemma AddPartKeepsCore(l: Limits, s: State, stream: StreamName, part: Bytes)
    requires ValidLimits(l) && 1 <= |part| <= l.maxEventBytes
    requires !s.finished && !s.consumerClosed && CoreInv(l, s)
    ensures var t := AddPart(l, s, stream, part);
      && CoreInv(l, t) && !t.finished && !t.consumerClosed && t.offered == s.offered
      && (t.intact ==> s.intact && Contents(Kept(t)) == Contents(Kept(s)) + Tagged(stream, part))
  {
    hide Numbered, ReadersAccountedFor, Contents, Tagged, TotalBytes;
    var e := Event(s.sequence + 1, stream, part);
    ServeReader(l, s, stream, part);
    match OfferOf(l, s, |part|)
    case Delivered =>
      assert s.delivered + [e] + s.events == Kept(s) + [e];
      NumberedAppend(l, Kept(s), e, s.intact);
      ContentsAppend(Kept(s), e);
    case Queued =>
      assert s.delivered + (s.events + [e]) == Kept(s) + [e];
      NumberedAppend(l, Kept(s), e, s.intact);
      TotalBytesAppend(s.events, e);
      ContentsAppend(Kept(s), e);
    case Refused =>
      NumberedSkip(l, Kept(s), s.sequence, s.intact);
  }

  lemma NumberedSkip(l: Limits, kept: seq<Event>, sequence: nat, intact: bool)
    requires Numbered(l, kept, sequence, intact)
    ensures Numbered(l, kept, sequence + 1, false)
    ensures Numbered(l, kept, sequence, false)
  {
  }

  lemma TaggedSplit(stream: StreamName, chunk: Bytes, offset: nat, end: nat)
    requires offset <= end <= |chunk|
    ensures Tagged(stream, chunk[offset..]) == Tagged(stream, chunk[offset..end]) + Tagged(stream, chunk[end..])
  {
  }

  lemma {:induction false} PushPartsKeepInv(l: Limits, s: State, stream: StreamName, chunk: Bytes, offset: nat)
    requires ValidLimits(l) && offset <= |chunk|
    requires !s.finished && !s.consumerClosed && CoreInv(l, s)
    requires s.intact ==> s.offered == Contents(Kept(s)) + Tagged(stream, chunk[offset..])
    ensures Inv(l, PushParts(l, s, stream, chunk, offset).0)
    decreases |chunk| - offset
  {
    hide CoreInv, Contents, Tagged, PushParts, AddPart;
    PushPartsStep(l, s, stream, chunk, offset);
    if offset == |chunk| {
      assert chunk[offset..] == [] && Tagged(stream, []) == [];
    } else {
      var end := PartEnd(l, chunk, offset);
      var part := chunk[offset..end];
      TaggedSplit(stream, chunk, offset, end);
      assert Contents(Kept(s)) + Tagged(stream, chunk[offset..])
          == Contents(Kept(s)) + Tagged(stream, part) + Tagged(stream, chunk[end..]);
      AddPartKeepsCore(l, s, stream, part);
      RefusalIsNotIntact(l, s, stream, part);
      if !OfferOf(l, s, end - offset).Refused? {
        PushPartsKeepInv(l, AddPart(l, s, stream, part), stream, chunk, end);
      }
    }
  }

  lemma RefusalIsNotIntact(l: Limits, s: State, stream: StreamName, part: Bytes)
    ensures OfferOf(l, s, |part|).Refused? ==> !AddPart(l, s, stream, part).intact
  {
  }

  lemma PushKeepsInv(l: Limits, s: State, stream: StreamName, chunk: Bytes)
    requires ValidLimits(l) && Inv(l, s)
    ensures Inv(l, DoPush(l, s, stream, chunk).0)
  {
    hide Numbered, Received, Contents, Tagged, TotalBytes, PushParts;
    if !s.finished && !s.consumerClosed {
      var t := s.(offered := s.offered + Tagged(stream, chunk));
      assert Kept(t) == Kept(s);
      assert chunk[0..] == chunk;
      PushPartsKeepInv(l, t, stream, chunk, 0);
    }
  }

  lemma {:induction false} SettleAllAccounted(s: State)
    requires ReadersAccountedFor(s)
    ensures ReadersAccountedFor(s.(readers := [], settled := SettleAll(s.settled, s.readers)))
    decreases |s.readers|
  {
    if s.readers != [] {
      ReceivedNext(s.settled, s.promises - |s.readers|, Done);
      SettleAllAccounted(s.(readers := s.readers[1..], settled := s.settled[s.readers[0] := Done]));
    }
  }

  lemma NextAccounted(s: State)
    requires ReadersAccountedFor(s) && (s.readers != [] ==> s.events == [] && !s.finished && !s.consumerClosed)
    ensures ReadersAccountedFor(DoNext(s))
  {
    if s.readers == [] {
      ReceivedNext(s.settled, s.promises, Done);
      if s.events != [] {
        ReceivedNext(s.settled, s.promises, Value(s.events[0]));
      }
    }
  }

  lemma FinishKeepsInv(l: Limits, s: State)
    requires ValidLimits(l) && Inv(l, s)
    ensures Inv(l, DoFinish(s))
  {
    hide Numbered, Contents, TotalBytes, Received;
    SettleAllAccounted(s);
    NumberedSkip(l, Kept(s), s.sequence, s.intact);
    assert Kept(DoFinish(s)) == Kept(s);
  }

  lemma NextNeverUnderflows(l: Limits, s: State)
    requires ValidLimits(l) && Inv(l, s)
    ensures s.events != [] ==> s.queuedBytes >= |s.events[0].chunk|
  {
    hide Numbered, Contents, ReadersAccountedFor;
  }

  lemma NextKeepsInv(l: Limits, s: State)
    requires ValidLimits(l) && Inv(l, s)
    ensures Inv(l, DoNext(s))
  {
    hide Numbered, Contents, ReadersAccountedFor;
    NextAccounted(s);
    NextNeverUnderflows(l, s);
    if s.events != [] {
      assert s.delivered + [s.events[0]] + s.events[1..] == Kept(s);
    } else {
      assert Kept(DoNext(s)) == Kept(s);
    }
  }

  lemma ReturnKeepsInv(l: Limits, s: State)
    requires ValidLimits(l) && Inv(l, s)
    ensures Inv(l, DoReturn(s))
  {
    hide Numbered, Contents, Received;
    SettleAllAccounted(s);
    ReceivedNext(SettleAll(s.settled, s.readers), s.promises, Done);
    NumberedPrefix(l, s.delivered, s.events, s.sequence, s.intact);
    assert Kept(DoReturn(s)) == s.delivered;
  }

  lemma NumberedPrefix(l: Limits, first: seq<Event>, rest: seq<Event>, sequence: nat, intact: bool)
    requires Numbered(l, first + rest, sequence, intact)
    ensures Numbered(l, first, sequence, false)
  {
    assert forall i :: 0 <= i < |first| ==> (first + rest)[i] == first[i];
  }

  /** Every interleaving of calls keeps the invariant. */
  lemma {:induction false} EveryRunKeepsInv(l: Limits, calls: seq<Call>)
    requires ValidLimits(l)
    ensures Inv(l, Run(l, calls))
  {
    hide Inv;
    if calls == [] {
      FreshHasInv(l);
    } else {
      var s := Run(l, calls[..|calls| - 1]);
      EveryRunKeepsInv(l, calls[..|calls| - 1]);
      match calls[|calls| - 1]
      case Push(stream, chunk) => PushKeepsInv(l, s, stream, chunk);
      case Next => NextKeepsInv(l, s);
      case Finish => FinishKeepsInv(l, s);
      case Return => ReturnKeepsInv(l, s);
    }
  }

  lemma FreshHasInv(l: Limits)
    requires ValidLimits(l)
    ensures Inv(l, FRESH)
  {
  }

  // ------------------------------------------------------------------
  // When a chunk is accepted, and what a refused chunk leaves behind
  // ------------------------------------------------------------------

  /** Bytes of an `n`-byte chunk left after `readers` waiting reads took one part each. */
  function Unserved(l: Limits, n: nat, readers: nat): (rest: nat)
    requires ValidLimits(l)
    ensures rest <= n
  {
    if readers == 0 || n == 0 then n
    else if n <= l.maxEventBytes then 0
    else Unserved(l, n - l.maxEventBytes, readers - 1)
  }

  function PartCount(l: Limits, n: nat): nat
    requires ValidLimits(l)
  {
    if n == 0 then 0 else if n <= l.maxEventBytes then 1 else 1 + PartCount(l, n - l.maxEventBytes)
  }

  predicate Fits(l: Limits, s: State, n: nat)
    requires ValidLimits(l)
  {
    var rest := Unserved(l, n, |s.readers|);
    rest == 0 || (|s.events| + PartCount(l, rest) <= l.maxQueuedEvents && s.queuedBytes + rest <= l.maxQueuedEventBytes)
  }

  lemma {:induction false} PartsReachEndIff(l: Limits, s: State, stream: StreamName, chunk: Bytes, offset: nat)
    requires ValidLimits(l) && offset <= |chunk|
    requires s.readers != [] ==> s.events == [] && s.queuedBytes == 0
    ensures PushParts(l, s, stream, chunk, offset).1 == |chunk| <==> Fits(l, s, |chunk| - offset)
    decreases |chunk| - offset
  {
    hide PushParts;
    PushPartsStep(l, s, stream, chunk, offset);
    if offset < |chunk| {
      var end := PartEnd(l, chunk, offset);
      if !OfferOf(l, s, end - offset).Refused? {
        PartsReachEndIff(l, AddPart(l, s, stream, chunk[offset..end]), stream, chunk, end);
      }
    }
  }

  /** A push to an open queue is accepted exactly when the whole chunk fits. */
  lemma PushAcceptedIff(l: Limits, s: State, stream: StreamName, chunk: Bytes)
    requires ValidLimits(l) && Inv(l, s)
    ensures DoPush(l, s, stream, chunk).1 <==> s.finished || s.consumerClosed || Fits(l, s, |chunk|)
  {
    hide Numbered, ReadersAccountedFor, Contents, Tagged, PushParts;
    PartsReachEndIff(l, s.(offered := s.offered + Tagged(stream, chunk)), stream, chunk, 0);
  }

  lemma {:induction false} PartsKept(l: Limits, s: State, stream: StreamName, chunk: Bytes, offset: nat)
    requires ValidLimits(l) && offset <= |chunk| && (s.readers != [] ==> s.events == [])
    ensures var (t, reached) := PushParts(l, s, stream, chunk, offset);
      Contents(Kept(t)) == Contents(Kept(s)) + Tagged(stream, chunk[offset..reached])
    decreases |chunk| - offset
  {
    hide PushParts, Contents, Tagged;
    PushPartsStep(l, s, stream, chunk, offset);
    TaggedEmpty(stream);
    assert chunk[offset..offset] == [];
    if offset < |chunk| {
      var end := PartEnd(l, chunk, offset);
      var part := chunk[offset..end];
      var e := Event(s.sequence + 1, stream, part);
      var next := AddPart(l, s, stream, part);
      ContentsAppend(Kept(s), e);
      assert Kept(next) == if OfferOf(l, s, |part|).Refused? then Kept(s) else Kept(s) + [e];
      if !OfferOf(l, s, |part|).Refused? {
        PartsKept(l, next, stream, chunk, end);
        var reached := PushParts(l, next, stream, chunk, end).1;
        TaggedJoin(stream, chunk, offset, end, reached);
        assert Contents(Kept(s)) + (Tagged(stream, part) + Tagged(stream, chunk[end..reached]))
            == Contents(Kept(s)) + Tagged(stream, part) + Tagged(stream, chunk[end..reached]);
      }
    }
  }

  lemma TaggedEmpty(stream: StreamName)
    ensures Tagged(stream, []) == []
  {
  }

  lemma TaggedJoin(stream: StreamName, chunk: Bytes, a: nat, b: nat, c: nat)
    requires a <= b <= c <= |chunk|
    ensures Tagged(stream, chunk[a..c]) == Tagged(stream, chunk[a..b]) + Tagged(stream, chunk[b..c])
  {
  }

  /** A refused push keeps a proper prefix of the chunk, and nothing exactly when its first part had no room. */
  lemma RefusedPushKeepsPrefix(l: Limits, s: State, stream: StreamName, chunk: Bytes)
    requires ValidLimits(l) && Inv(l, s) && !DoPush(l, s, stream, chunk).1
    ensures exists n: nat :: (
      && n < |chunk|
      && Contents(Kept(DoPush(l, s, stream, chunk).0)) == Contents(Kept(s)) + Tagged(stream, chunk[..n])
      && (n == 0 <==> OfferOf(l, s, PartEnd(l, chunk, 0)).Refused?))
  {
    hide Numbered, ReadersAccountedFor, Contents, Tagged, PushParts;
    var t := s.(offered := s.offered + Tagged(stream, chunk));
    PartsKept(l, t, stream, chunk, 0);
    PushPartsStep(l, t, stream, chunk, 0);
    var n := PushParts(l, t, stream, chunk, 0).1;
    assert chunk[0..n] == chunk[..n] && Kept(t) == Kept(s);
  }

  /** The documented all-or-nothing refusal does not hold: here one of two bytes stays queued. */
  lemma RefusalCanKeepBytes()
    ensures var l := Limits(1, 1, 1);
      var (t, accepted) := DoPush(l, FRESH, Stdout, [7, 8]);
      !accepted && t.events == [Event(1, Stdout, [7])]
  {
    var l := Limits(1, 1, 1);
    var chunk: Bytes := [7, 8];
    var s := FRESH.(offered := FRESH.offered + Tagged(Stdout, chunk));
    PushPartsStep(l, s, Stdout, chunk, 0);
    assert chunk[0..1] == [7];
    PushPartsStep(l, AddPart(l, s, Stdout, chunk[0..1]), Stdout, chunk, 1);
  }

  /** Every part that was offered has used up a number, the refused one too. */
  lemma {:induction false} NumbersAreSpent(l: Limits, s: State, stream: StreamName, chunk: Bytes, offset: nat)
    requires ValidLimits(l) && offset <= |chunk|
    ensures var (t, reached) := PushParts(l, s, stream, chunk, offset);
      t.sequence == s.sequence + PartCount(l, reached - offset) + if reached == |chunk| then 0 else 1
    decreases |chunk| - offset
  {
    hide PushParts;
    PushPartsStep(l, s, stream, chunk, offset);
    if offset < |chunk| {
      var end := PartEnd(l, chunk, offset);
      var next := AddPart(l, s, stream, chunk[offset..end]);
      if !OfferOf(l, s, end - offset).Refused? {
        NumbersAreSpent(l, next, stream, chunk, end);
      }
    }
  }
}
