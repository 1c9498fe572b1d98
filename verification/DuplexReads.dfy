/** What the reader of a duplex queue gets, over whole runs of calls (packages/process-broker/src/duplex.ts). */
module DuplexReads {
  import opened Basics
  import opened DuplexQueue

  // What the calls say -----------------------------------------------------------------------

  ghost predicate Called(calls: seq<Call>, c: Call) {
    exists i :: 0 <= i < |calls| && calls[i] == c
  }

  /** The producer or the consumer has ended the session. */
  ghost predicate Ended(calls: seq<Call>) {
    Called(calls, Finish) || Called(calls, Return)
  }

  /** All bytes pushed before the session was ended. */
  ghost function PushedBytes(calls: seq<Call>): seq<(StreamName, Byte)> {
    if calls == [] then []
    else
      var first, last := calls[..|calls| - 1], calls[|calls| - 1];
      if last.Push? && !Ended(first) then PushedBytes(first) + Tagged(last.stream, last.chunk) else PushedBytes(first)
  }

  /** Some push was refused. */
  ghost predicate SomeRefused(l: Limits, calls: seq<Call>)
    requires ValidLimits(l)
  {
    exists i :: 0 <= i < |calls| && RefusedAt(l, calls, i)
  }

  ghost predicate RefusedAt(l: Limits, calls: seq<Call>, i: nat)
    requires ValidLimits(l) && i < |calls|
  {
    calls[i].Push? && !DoPush(l, Run(l, calls[..i]), calls[i].stream, calls[i].chunk).1
  }

  lemma CalledNext(calls: seq<Call>, c: Call)
    requires calls != []
    ensures Called(calls, c) <==> Called(calls[..|calls| - 1], c) || calls[|calls| - 1] == c
  {
  }

  lemma RefusedNext(l: Limits, calls: seq<Call>)
    requires ValidLimits(l) && calls != []
    ensures SomeRefused(l, calls) <==>
      SomeRefused(l, calls[..|calls| - 1]) || RefusedAt(l, calls, |calls| - 1)
  {
    hide Run, DoPush;
    var first := calls[..|calls| - 1];
    forall i | 0 <= i < |first| ensures first[..i] == calls[..i] {
    }
    assert forall i :: 0 <= i < |first| ==> (RefusedAt(l, first, i) <==> RefusedAt(l, calls, i));
  }

  lemma {:induction false} PartsKeepFlags(l: Limits, s: State, stream: StreamName, chunk: Bytes, offset: nat)
    requires ValidLimits(l) && offset <= |chunk|
    ensures var (t, reached) := PushParts(l, s, stream, chunk, offset);
      && t.finished == s.finished && t.consumerClosed == s.consumerClosed && t.offered == s.offered
      && (t.intact <==> s.intact && reached == |chunk|)
    decreases |chunk| - offset
  {
    hide PushParts;
    PushPartsStep(l, s, stream, chunk, offset);
    if offset < |chunk| {
      var end := PartEnd(l, chunk, offset);
      if !OfferOf(l, s, end - offset).Refused? {
        PartsKeepFlags(l, AddPart(l, s, stream, chunk[offset..end]), stream, chunk, end);
      }
    }
  }

  /** The flags of the queue say what has been called, and it has been offered what was pushed. */
  lemma {:induction false} RunTells(l: Limits, calls: seq<Call>)
    requires ValidLimits(l)
    ensures var s := Run(l, calls);
      && (s.finished <==> Called(calls, Finish)) && (s.consumerClosed <==> Called(calls, Return))
      && s.offered == PushedBytes(calls)
      && (s.intact <==> !Called(calls, Return) && !SomeRefused(l, calls))
  {
    hide PushParts, Tagged, SomeRefused, Called, SettleAll;
    if calls == [] {
      NothingCalled(l);
    } else {
      var first, last := calls[..|calls| - 1], calls[|calls| - 1];
      var s := Run(l, first);
      RunTells(l, first);
      CalledNext(calls, Finish);
      CalledNext(calls, Return);
      RefusedNext(l, calls);
      if last.Push? {
        PartsKeepFlags(l, s.(offered := s.offered + Tagged(last.stream, last.chunk)), last.stream, last.chunk, 0);
      }
    }
  }

  lemma NothingCalled(l: Limits)
    requires ValidLimits(l)
    ensures !Called([], Finish) && !Called([], Return) && !SomeRefused(l, [])
  {
  }

  lemma {:induction false} ContentsJoin(a: seq<Event>, b: seq<Event>)
    ensures Contents(a + b) == Contents(a) + Contents(b)
    decreases |b|
  {
    hide Contents, Tagged;
    if b == [] {
      assert a + b == a;
      NoContents();
    } else {
      var init, last := b[..|b| - 1], b[|b| - 1];
      ContentsJoin(a, init);
      ContentsAppend(a + init, last);
      ContentsAppend(init, last);
      assert a + b == (a + init) + [last] && b == init + [last];
    }
  }

  lemma NoContents()
    ensures Contents([]) == []
  {
  }

  /** The bytes that reads have returned, in the order of the reads. */
  ghost function ReadBytes(s: State): seq<(StreamName, Byte)>
    requires |s.readers| <= s.promises
  {
    Contents(Received(s.settled, s.promises - |s.readers|))
  }

  /** Unless the consumer leaves or a push is refused, nothing is lost or reordered: what was read, and what is still
      queued, is what was pushed. Finishing does not change that. */
  lemma NothingIsLost(l: Limits, calls: seq<Call>)
    requires ValidLimits(l) && !Called(calls, Return) && !SomeRefused(l, calls)
    ensures var s := Run(l, calls);
      |s.readers| <= s.promises && ReadBytes(s) + Contents(s.events) == PushedBytes(calls)
  {
    hide Run, Contents, Received, WithinBounds, FlagsAgree, Numbered, DoneIsEnd, SomeRefused, Called;
    EveryRunKeepsInv(l, calls);
    RunTells(l, calls);
    var s := Run(l, calls);
    ContentsJoin(s.delivered, s.events);
  }

  /** A read is told that it is done only after the consumer has left, or after the session was finished and
      everything kept was read; and then, if no push was refused, that was every byte pushed. */
  lemma DoneMeansAll(l: Limits, calls: seq<Call>, r: nat)
    requires ValidLimits(l)
    ensures var s := Run(l, calls);
      r in s.settled && s.settled[r].Done? && !Called(calls, Return) ==>
        && Called(calls, Finish) && s.events == []
        && (!SomeRefused(l, calls) ==> |s.readers| <= s.promises && ReadBytes(s) == PushedBytes(calls))
  {
    hide Run, Contents, Received, WithinBounds, Numbered, SomeRefused, Called;
    EveryRunKeepsInv(l, calls);
    RunTells(l, calls);
    var s := Run(l, calls);
    if r in s.settled && s.settled[r].Done? && !Called(calls, Return) {
      assert s.finished && s.events == [];
      if !SomeRefused(l, calls) {
        NothingIsLost(l, calls);
        NoContents();
      }
    }
  }

  /** A new read is answered at once with the oldest queued event, or with the end if there is none left to come;
      otherwise it waits. */
  lemma NextIsAnswered(l: Limits, calls: seq<Call>)
    requires ValidLimits(l)
    ensures var s, t := Run(l, calls), Run(l, calls + [Next]);
      && t.promises == s.promises + 1
      && (s.promises in t.settled <==> s.events != [] || Ended(calls))
      && (s.events != [] ==>
            t.settled[s.promises] == Value(s.events[0]) && t.events == s.events[1..])
      && (s.events == [] && Ended(calls) ==> t.settled[s.promises] == Done && t.events == [])
      && (s.events == [] && !Ended(calls) ==> t.readers == s.readers + [s.promises])
      && forall r :: r in s.settled ==> r in t.settled && t.settled[r] == s.settled[r]
  {
    hide Run, Contents, Received, Numbered, SomeRefused, Called;
    EveryRunKeepsInv(l, calls);
    RunTells(l, calls);
    assert Run(l, calls + [Next]) == DoNext(Run(l, calls)) by { RunNext(l, calls, Next); }
  }

  lemma RunNext(l: Limits, calls: seq<Call>, c: Call)
    requires ValidLimits(l)
    ensures Run(l, calls + [c]) == Step(l, Run(l, calls), c)
  {
    assert (calls + [c])[..|calls|] == calls;
  }
}
