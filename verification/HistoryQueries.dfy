/** The two ways of asking a history for the deploys since some time, and when they agree. */
module HistoryQueries {
  import opened Clock
  import opened Deploys
  import opened ChannelProtocol

  /** The deploys of h that did not start before t, in order. */
  function NotBefore(h: seq<Deploy>, t: Time): seq<Deploy> {
    if h == [] then []
    else NotBefore(h[..|h| - 1], t) + (if h[|h| - 1].startedAt >= t then [h[|h| - 1]] else [])
  }

  /** The deploys of h that started after t, in order. */
  function After(h: seq<Deploy>, t: Time): seq<Deploy> {
    if h == [] then []
    else After(h[..|h| - 1], t) + (if h[|h| - 1].startedAt > t then [h[|h| - 1]] else [])
  }

  /** The deploys of h that started exactly at t, in order. */
  function At(h: seq<Deploy>, t: Time): seq<Deploy> {
    if h == [] then []
    else At(h[..|h| - 1], t) + (if h[|h| - 1].startedAt == t then [h[|h| - 1]] else [])
  }

  /** Where the backward scan of InMemoryStore.Since stops when it begins at index i. */
  function ScanStart(h: seq<Deploy>, t: Time, i: nat): (n: nat)
    requires i <= |h|
    ensures n <= i
  {
    if i == 0 || h[i - 1].startedAt < t then i else ScanStart(h, t, i - 1)
  }

  /** What InMemoryStore.Since returns: the suffix before which the scan stopped. */
  function SuffixSince(h: seq<Deploy>, t: Time): seq<Deploy> {
    h[ScanStart(h, t, |h|)..]
  }

  ghost predicate SortedByStart(h: seq<Deploy>) {
    forall i, j :: 0 <= i < j < |h| ==> h[i].startedAt <= h[j].startedAt
  }

  lemma {:induction false} NotBeforeOfLate(h: seq<Deploy>, t: Time)
    requires forall i :: 0 <= i < |h| ==> h[i].startedAt >= t
    ensures NotBefore(h, t) == h
  {
    if h != [] {
      NotBeforeOfLate(h[..|h| - 1], t);
      assert h == h[..|h| - 1] + [h[|h| - 1]];
    }
  }

  lemma {:induction false} NotBeforeOfEarly(h: seq<Deploy>, t: Time)
    requires forall i :: 0 <= i < |h| ==> h[i].startedAt < t
    ensures NotBefore(h, t) == []
  {
    if h != [] {
      NotBeforeOfEarly(h[..|h| - 1], t);
    }
  }

  lemma {:induction false} NotBeforeAppend(a: seq<Deploy>, b: seq<Deploy>, t: Time)
    ensures NotBefore(a + b, t) == NotBefore(a, t) + NotBefore(b, t)
  {
    if b == [] {
      assert a + b == a;
    } else {
      assert (a + b)[..|a + b| - 1] == a + b[..|b| - 1];
      NotBeforeAppend(a, b[..|b| - 1], t);
    }
  }

  lemma {:induction false} ScanStops(h: seq<Deploy>, t: Time, i: nat)
    requires i <= |h|
    ensures var n := ScanStart(h, t, i);
      && (forall k :: n <= k < i ==> h[k].startedAt >= t)
      && (n > 0 ==> h[n - 1].startedAt < t)
  {
    if i > 0 && h[i - 1].startedAt >= t {
      ScanStops(h, t, i - 1);
    }
  }

  lemma {:induction false} NotBeforeOfSplit(early: seq<Deploy>, late: seq<Deploy>, t: Time)
    requires forall i :: 0 <= i < |early| ==> early[i].startedAt < t
    requires forall i :: 0 <= i < |late| ==> late[i].startedAt >= t
    ensures NotBefore(early + late, t) == late
  {
    NotBeforeAppend(early, late, t);
    NotBeforeOfEarly(early, t);
    NotBeforeOfLate(late, t);
  }

  /** On a history sorted by start time the scan finds exactly the deploys that did not start before t. */
  lemma {:induction false} SuffixSinceIsNotBefore(h: seq<Deploy>, t: Time)
    requires SortedByStart(h)
    ensures SuffixSince(h, t) == NotBefore(h, t)
  {
    var n := ScanStart(h, t, |h|);
    ScanStops(h, t, |h|);
    assert h == h[..n] + h[n..];
    NotBeforeOfSplit(h[..n], h[n..], t);
  }

  /** ... and sortedness is exactly what it needs: an unsorted history has a time at which the scan gives up too soon. */
  lemma {:induction false} SuffixSinceIsNotBeforeIff(h: seq<Deploy>)
    ensures SortedByStart(h) <==> forall t :: SuffixSince(h, t) == NotBefore(h, t)
  {
    if SortedByStart(h) {
      forall t ensures SuffixSince(h, t) == NotBefore(h, t) { SuffixSinceIsNotBefore(h, t); }
    } else {
      var i, j :| 0 <= i < j < |h| && h[i].startedAt > h[j].startedAt;
      ScanMisses(h, i, j);
    }
  }

  lemma {:induction false} ScanMisses(h: seq<Deploy>, i: nat, j: nat)
    requires i < j < |h| && h[i].startedAt > h[j].startedAt
    ensures SuffixSince(h, h[i].startedAt) != NotBefore(h, h[i].startedAt)
  {
    var t := h[i].startedAt;
    var n := ScanStart(h, t, |h|);
    ScanStops(h, t, |h|);
    var a, b, c := h[..i], h[i + 1..n], h[n..];
    assert h == a + [h[i]] + b + c;
    NotBeforeAppend(a + [h[i]] + b, c, t);
    NotBeforeAppend(a + [h[i]], b, t);
    NotBeforeAppend(a, [h[i]], t);
    NotBeforeOfLate([h[i]], t);
    NotBeforeOfLate(c, t);
    assert |NotBefore(h, t)| > |c|;
  }

  lemma ChronologicalIsSorted(h: seq<Deploy>)
    requires Chronological(h)
    ensures SortedByStart(h)
  {
    forall i, j | 0 <= i < j < |h|
      ensures h[i].startedAt <= h[j].startedAt
    {
      assert h[i].startedAt <= h[i].finishedAt <= h[j].startedAt;
    }
  }

  /**
   * Bolt's answer (strictly after t) is a suffix of the in-memory answer (not before t), and the prefix it
   * drops is exactly the deploys that started at t.
   */
  lemma {:induction false} StoresDifferByTies(h: seq<Deploy>, t: Time)
    requires SortedByStart(h)
    ensures SuffixSince(h, t) == At(h, t) + After(h, t)
  {
    SuffixSinceIsNotBefore(h, t);
    SplitNotBefore(h, t);
  }

  lemma {:induction false} SplitNotBefore(h: seq<Deploy>, t: Time)
    requires SortedByStart(h)
    ensures NotBefore(h, t) == At(h, t) + After(h, t)
  {
    if h != [] {
      var n := |h| - 1;
      SplitNotBefore(h[..n], t);
      if h[n].startedAt <= t {
        NothingAfter(h[..n], t);
      }
    }
  }

  lemma {:induction false} NothingAfter(h: seq<Deploy>, t: Time)
    requires forall i :: 0 <= i < |h| ==> h[i].startedAt <= t
    ensures After(h, t) == []
  {
    if h != [] {
      NothingAfter(h[..|h| - 1], t);
    }
  }

  /** The backward scan finds what did not start before t: what started at t and then what started after t. */
  ghost predicate SinceAgrees(h: seq<Deploy>, t: Time) {
    SuffixSince(h, t) == NotBefore(h, t) == At(h, t) + After(h, t)
  }

  lemma SinceOnChronological(h: seq<Deploy>, t: Time)
    requires Chronological(h)
    ensures SinceAgrees(h, t)
  {
    ChronologicalIsSorted(h);
    StoresDifferByTies(h, t);
    SuffixSinceIsNotBefore(h, t);
  }
}
