/** Counting frame markers in a body (packages/context/src/framing.ts). */
module Sentinels {
  import opened Framing

  const FRAME_SENTINELS := [FRAME_HEADER, FRAME_ITEM, FRAME_BODY, FRAME_END]

  predicate StandsAt(text: string, sentinel: string, i: nat) {
    i + |sentinel| <= |text| && text[i..i + |sentinel|] == sentinel
  }

  /** Every place before `end` where a marker stands, overlapping or not. */
  function Places(text: string, sentinel: string, end: nat): set<nat> {
    set i: nat | i < end && StandsAt(text, sentinel, i)
  }

  function CountUpTo(text: string, n: nat): nat
    requires n <= |FRAME_SENTINELS|
  {
    if n == 0 then 0 else CountUpTo(text, n - 1) + |Places(text, FRAME_SENTINELS[n - 1], |text|)|
  }

  /** How many markers stand in a text. */
  function SentinelCount(text: string): nat {
    CountUpTo(text, |FRAME_SENTINELS|)
  }

  // The count as it is made --------------------------------------------------------------

  method IndexOf(text: string, sentinel: string, from: nat) returns (index: int)
    ensures index >= 0 ==> from <= index && StandsAt(text, sentinel, index)
    ensures index < 0 ==> index == -1
    ensures forall i :: from <= i < (if index < 0 then |text| else index) ==> !StandsAt(text, sentinel, i)
  {
    index := from;
    while index + |sentinel| <= |text|
      invariant from <= index && forall i :: from <= i < index ==> !StandsAt(text, sentinel, i)
      decreases |text| - index
    {
      if text[index..index + |sentinel|] == sentinel {
        return;
      }
      index := index + 1;
    }
    return -1;
  }

  /** Searching on behind each marker found misses none, because no marker overlaps itself. */
  method CountFrameSentinels(text: string) returns (total: nat)
    ensures total == SentinelCount(text)
  {
    hide Places;
    total := 0;
    var n := 0;
    while n < |FRAME_SENTINELS|
      invariant 0 <= n <= |FRAME_SENTINELS| && total == CountUpTo(text, n)
    {
      var sentinel := FRAME_SENTINELS[n];
      var index := IndexOf(text, sentinel, 0);
      ghost var end := if index < 0 then |text| else index;
      NoPlaces(text, sentinel, end);
      while index != -1
        invariant -1 <= index && end == if index < 0 then |text| else index
        invariant index >= 0 ==> StandsAt(text, sentinel, index)
        invariant total == CountUpTo(text, n) + |Places(text, sentinel, end)|
        decreases if index < 0 then 0 else |text| - index + 1
      {
        total := total + 1;
        var next := IndexOf(text, sentinel, index + |sentinel|);
        NextPlace(text, n, index, if next < 0 then |text| else next);
        index := next;
        end := if index < 0 then |text| else index;
      }
      n := n + 1;
    }
  }

  lemma NoPlaces(text: string, sentinel: string, end: nat)
    requires forall i :: 0 <= i < end ==> !StandsAt(text, sentinel, i)
    ensures |Places(text, sentinel, end)| == 0
  {
    assert Places(text, sentinel, end) == {};
  }

  /** No end of a marker is a beginning of it: where the two differ. */
  lemma Unbordered(n: nat, k: nat)
    requires n < |FRAME_SENTINELS| && 0 < k < |FRAME_SENTINELS[n]|
    ensures var s, m := FRAME_SENTINELS[n], if k < 3 then 3 - k else 0;
      k + m < |s| && s[k + m] != s[m]
  {
  }

  /** So two places of a marker are at least its length apart. */
  lemma NoOverlap(text: string, n: nat, i: nat, j: nat)
    requires n < |FRAME_SENTINELS| && StandsAt(text, FRAME_SENTINELS[n], i) && i < j < i + |FRAME_SENTINELS[n]|
    ensures !StandsAt(text, FRAME_SENTINELS[n], j)
  {
    var s, k := FRAME_SENTINELS[n], j - i;
    var m := if k < 3 then 3 - k else 0;
    Unbordered(n, k);
    assert text[i..i + |s|][k + m] == text[j + m];
    assert j + |s| <= |text| ==> text[j..j + |s|][m] == text[j + m];
  }

  lemma NextPlace(text: string, n: nat, index: nat, next: nat)
    requires n < |FRAME_SENTINELS| && StandsAt(text, FRAME_SENTINELS[n], index)
    requires index + |FRAME_SENTINELS[n]| <= next
    requires forall i :: index + |FRAME_SENTINELS[n]| <= i < next ==> !StandsAt(text, FRAME_SENTINELS[n], i)
    ensures |Places(text, FRAME_SENTINELS[n], next)| == |Places(text, FRAME_SENTINELS[n], index)| + 1
  {
    hide StandsAt;
    var s := FRAME_SENTINELS[n];
    forall i | index < i < next ensures !StandsAt(text, s, i) {
      if i < index + |s| {
        NoOverlap(text, n, index, i);
      }
    }
    assert Places(text, s, next) == Places(text, s, index) + {index};
  }

  // Counting in a part of the text ----------------------------------------------------------

  /** No marker reaches beyond the first `n` characters. */
  ghost predicate MarkersEndBy(text: string, n: nat) {
    forall k, i: nat :: 0 <= k < |FRAME_SENTINELS| && StandsAt(text, FRAME_SENTINELS[k], i) ==>
      i + |FRAME_SENTINELS[k]| <= n
  }

  ghost predicate EndsBy(text: string, sentinel: string, n: nat) {
    forall i: nat :: StandsAt(text, sentinel, i) ==> i + |sentinel| <= n
  }

  lemma StandsInPrefix(text: string, sentinel: string, n: nat, i: nat)
    requires n <= |text|
    ensures StandsAt(text[..n], sentinel, i) <==> StandsAt(text, sentinel, i) && i + |sentinel| <= n
  {
    if i + |sentinel| <= n {
      assert text[..n][i..i + |sentinel|] == text[i..i + |sentinel|];
    }
  }

  lemma SubsetCount(a: set<nat>, b: set<nat>)
    requires a <= b
    ensures |a| <= |b| && (|a| == |b| <==> a == b)
  {
    assert b == a + (b - a);
  }

  lemma PlacesInPrefix(text: string, sentinel: string, n: nat)
    requires n <= |text| && sentinel != ""
    ensures var some, all := Places(text[..n], sentinel, n), Places(text, sentinel, |text|);
      |some| <= |all| && (|some| == |all| <==> EndsBy(text, sentinel, n))
  {
    hide StandsAt;
    var some, all := Places(text[..n], sentinel, n), Places(text, sentinel, |text|);
    forall i: nat ensures i in some <==> i in all && i + |sentinel| <= n {
      StandsInPrefix(text, sentinel, n, i);
    }
    forall i: nat ensures i in all <==> StandsAt(text, sentinel, i) {
      PlaceIsInside(text, sentinel, i);
    }
    SubsetCount(some, all);
  }

  lemma PlaceIsInside(text: string, sentinel: string, i: nat)
    requires sentinel != ""
    ensures StandsAt(text, sentinel, i) ==> i < |text|
  {
  }

  lemma {:induction false} CountInPrefix(text: string, n: nat, k: nat)
    requires n <= |text| && k <= |FRAME_SENTINELS|
    ensures CountUpTo(text[..n], k) <= CountUpTo(text, k)
    ensures CountUpTo(text[..n], k) == CountUpTo(text, k) <==>
      forall j :: 0 <= j < k ==> EndsBy(text, FRAME_SENTINELS[j], n)
  {
    hide Places, EndsBy;
    if k > 0 {
      CountInPrefix(text, n, k - 1);
      PlacesInPrefix(text, FRAME_SENTINELS[k - 1], n);
    }
  }

  /** A part of a text has fewer markers than the text, unless all of them end in that part. */
  lemma PrefixCountIff(text: string, n: nat)
    requires n <= |text|
    ensures SentinelCount(text[..n]) <= SentinelCount(text)
    ensures SentinelCount(text[..n]) == SentinelCount(text) <==> MarkersEndBy(text, n)
  {
    hide CountUpTo, StandsAt;
    CountInPrefix(text, n, |FRAME_SENTINELS|);
    assert MarkersEndBy(text, n) <==> forall j :: 0 <= j < |FRAME_SENTINELS| ==> EndsBy(text, FRAME_SENTINELS[j], n);
  }
}
