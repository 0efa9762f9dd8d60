/** deploy/bolt_db_store.go: queues as JSON documents and histories as buckets keyed by big-endian sequence numbers. */
module BoltStore {
  import opened Text
  import opened Clock
  import opened ByteKeys
  import opened Deploys
  import opened GoSlices
  import opened JsonSlices
  import R = References
  import opened HistoryQueries
  import P = ChannelProtocol

  /** A bucket: its sequence counter, and its entries in the byte order of their keys, as a cursor visits them. */
  datatype HistoryBucket = HistoryBucket(sequence: nat, entries: seq<(Key, Deploy)>)

  const NEW_BUCKET := HistoryBucket(0, [])

  datatype ChannelBucket = ChannelBucket(queue: Option<seq<Deploy>>, history: Option<HistoryBucket>)

  /** bucket.Put: the entry goes where its key belongs. */
  function Put(entries: seq<(Key, Deploy)>, k: Key, d: Deploy): seq<(Key, Deploy)> {
    if entries == [] then [(k, d)]
    else if Less(k, entries[0].0) then [(k, d)] + entries
    else if k == entries[0].0 then [(k, d)] + entries[1..]
    else [entries[0]] + Put(entries[1..], k, d)
  }

  /** The keys of a bucket are of one length, and each is less than the next. */
  ghost predicate InKeyOrder(entries: seq<(Key, Deploy)>, width: nat) {
    && (forall i :: 0 <= i < |entries| ==> |entries[i].0| == width)
    && forall i, j :: 0 <= i < j < |entries| ==> Less(entries[i].0, entries[j].0)
  }

  lemma {:induction false} LessIsTotal(a: Key, b: Key)
    requires |a| == |b|
    ensures a == b || Less(a, b) || Less(b, a)
    ensures !(Less(a, b) && Less(b, a)) && !Less(a, a)
  {
    if a != [] {
      LessIsTotal(a[1..], b[1..]);
      LessIsTotal(a[1..], a[1..]);
      assert a == [a[0]] + a[1..] && b == [b[0]] + b[1..];
    }
  }

  lemma {:induction false} LessIsTransitive(a: Key, b: Key, c: Key)
    requires Less(a, b) && Less(b, c)
    ensures Less(a, c)
  {
    if a != [] && a[0] == b[0] == c[0] {
      LessIsTransitive(a[1..], b[1..], c[1..]);
    }
  }

  lemma FirstIsLeast(first: (Key, Deploy), rest: seq<(Key, Deploy)>, width: nat)
    requires InKeyOrder(rest, width) && |first.0| == width
    requires forall e :: e in rest ==> Less(first.0, e.0)
    ensures InKeyOrder([first] + rest, width)
  {
  }

  /** Putting keeps the keys in order, stores the deploy under its key and leaves the other keys alone. */
  lemma {:induction false} PutStores(entries: seq<(Key, Deploy)>, k: Key, d: Deploy, width: nat)
    requires InKeyOrder(entries, width) && |k| == width
    ensures InKeyOrder(Put(entries, k, d), width)
    ensures forall e :: e in Put(entries, k, d) <==> e == (k, d) || (e in entries && e.0 != k)
  {
    if entries == [] {
    } else {
      var first, rest := entries[0], entries[1..];
      assert entries == [first] + rest;
      assert forall e :: e in rest ==> Less(first.0, e.0);
      LessIsTotal(k, first.0);
      if Less(k, first.0) {
        forall e | e in entries
          ensures Less(k, e.0) && e.0 != k
        {
          if e != first {
            LessIsTransitive(k, first.0, e.0);
          }
          LessIsTotal(k, k);
        }
        FirstIsLeast((k, d), entries, width);
      } else if k == first.0 {
        forall e | e in rest
          ensures e.0 != k
        {
          LessIsTotal(k, k);
        }
        FirstIsLeast((k, d), rest, width);
      } else {
        PutStores(rest, k, d, width);
        FirstIsLeast(first, Put(rest, k, d), width);
      }
    }
  }

  /** bucket.NextSequence: an uint64 that wraps around. */
  function NextSequence(b: HistoryBucket): nat {
    (b.sequence + 1) % UINT64_LIMIT
  }

  function Append(b: HistoryBucket, d: Deploy): HistoryBucket {
    HistoryBucket(NextSequence(b), Put(b.entries, ItobKey(NextSequence(b)), d))
  }

  /** The deploys of a bucket in the order a cursor visits them. */
  function Values(entries: seq<(Key, Deploy)>): (s: seq<Deploy>)
    ensures |s| == |entries|
  {
    seq(|entries|, i requires 0 <= i < |entries| => entries[i].1)
  }

  lemma ValuesConcat(a: seq<(Key, Deploy)>, b: seq<(Key, Deploy)>)
    ensures Values(a + b) == Values(a) + Values(b)
  {
  }

  lemma ValuesOne(k: Key, d: Deploy)
    ensures Values([(k, d)]) == [d]
  {
  }

  /** The entries are numbered from 1 to the sequence counter. */
  ghost predicate WellKept(b: HistoryBucket) {
    && b.sequence == |b.entries| < UINT64_LIMIT
    && forall i :: 0 <= i < |b.entries| ==> b.entries[i].0 == ItobKey(i + 1)
  }

  lemma {:induction false} PutBehind(entries: seq<(Key, Deploy)>, k: Key, d: Deploy)
    requires forall i :: 0 <= i < |entries| ==> !Less(k, entries[i].0) && k != entries[i].0
    ensures Put(entries, k, d) == entries + [(k, d)]
  {
    if entries != [] {
      PutBehind(entries[1..], k, d);
    }
  }

  /**
   * Appending to a bucket appends to what the cursor visits, because the keys grow and big-endian keys sort like
   * numbers.
   */
  lemma AppendAppends(b: HistoryBucket, d: Deploy)
    requires WellKept(b) && b.sequence + 1 < UINT64_LIMIT
    ensures WellKept(Append(b, d)) && Values(Append(b, d).entries) == Values(b.entries) + [d]
  {
    AppendInOrder(b, d);
    OneMoreIsWellKept(b, ItobKey(b.sequence + 1), d);
  }

  lemma OneMoreIsWellKept(b: HistoryBucket, k: Key, d: Deploy)
    requires WellKept(b) && b.sequence + 1 < UINT64_LIMIT && k == ItobKey(b.sequence + 1)
    ensures WellKept(HistoryBucket(b.sequence + 1, b.entries + [(k, d)]))
    ensures Values(b.entries + [(k, d)]) == Values(b.entries) + [d]
  {
    ValuesConcat(b.entries, [(k, d)]);
    ValuesOne(k, d);
  }

  lemma PutInFront(entries: seq<(Key, Deploy)>, k: Key, d: Deploy)
    requires entries != [] && Less(k, entries[0].0)
    ensures Values(Put(entries, k, d)) == [d] + Values(entries)
  {
    ValuesConcat([(k, d)], entries);
    ValuesOne(k, d);
  }

  lemma ZeroKeyIsFirst(b: HistoryBucket)
    requires WellKept(b) && b.entries != []
    ensures Less(ItobKey(0), b.entries[0].0)
  {
    ItobOrder(0, 1);
    assert b.entries[0].0 == ItobKey(0 + 1);
  }

  /** Only deploy number 2^64 of a channel, when the counter wraps around to 0, would go to the front. */
  lemma AppendWrapsAround(b: HistoryBucket, d: Deploy)
    requires WellKept(b) && b.sequence + 1 == UINT64_LIMIT
    ensures Values(Append(b, d).entries) == [d] + Values(b.entries)
  {
    ZeroKeyIsFirst(b);
    PutInFront(b.entries, ItobKey(0), d);
    assert NextSequence(b) == 0;
  }

  lemma KeysAreSmaller(b: HistoryBucket, i: nat, k: Key)
    requires WellKept(b) && b.sequence + 1 < UINT64_LIMIT && i < |b.entries| && k == ItobKey(b.sequence + 1)
    ensures !Less(k, b.entries[i].0) && k != b.entries[i].0
  {
    ItobOrder(b.sequence + 1, i + 1);
  }

  lemma PutLast(b: HistoryBucket, k: Key, d: Deploy)
    requires WellKept(b) && b.sequence + 1 < UINT64_LIMIT && k == ItobKey(b.sequence + 1)
    ensures Put(b.entries, k, d) == b.entries + [(k, d)]
  {
    forall i | 0 <= i < |b.entries|
      ensures !Less(k, b.entries[i].0) && k != b.entries[i].0
    {
      KeysAreSmaller(b, i, k);
    }
    PutBehind(b.entries, k, d);
  }

  lemma AppendInOrder(b: HistoryBucket, d: Deploy)
    requires WellKept(b) && b.sequence + 1 < UINT64_LIMIT
    ensures Append(b, d) == HistoryBucket(b.sequence + 1, b.entries + [(ItobKey(b.sequence + 1), d)])
  {
    NextIsOneMore(b);
    PutLast(b, ItobKey(b.sequence + 1), d);
  }

  lemma NextIsOneMore(b: HistoryBucket)
    requires b.sequence + 1 < UINT64_LIMIT
    ensures NextSequence(b) == b.sequence + 1
  {
  }

  /** A history entry as it is decoded: its references are slices of arrays that other entries may share. */
  datatype DecodedDeploy = DecodedDeploy(
    user: User,
    subject: string,
    startedAt: Time,
    finishedAt: Time,
    aborted: bool,
    abortReason: string,
    pullRequests: Slice<R.PullRequestReference>,
    subscribers: Slice<R.UserReference>)

  function DecodedOf(d: Deploy, prs: Slice<R.PullRequestReference>, users: Slice<R.UserReference>): DecodedDeploy {
    DecodedDeploy(d.user, d.subject, d.startedAt, d.finishedAt, d.aborted, d.abortReason, prs, users)
  }

  function PullRequestsIn(h: seq<Deploy>): (refs: seq<seq<R.PullRequestReference>>)
    ensures |refs| == |h| && forall i :: 0 <= i < |h| ==> refs[i] == h[i].pullRequests
  {
    seq(|h|, i requires 0 <= i < |h| => h[i].pullRequests)
  }

  function SubscribersIn(h: seq<Deploy>): (refs: seq<seq<R.UserReference>>)
    ensures |refs| == |h| && forall i :: 0 <= i < |h| ==> refs[i] == h[i].subscribers
  {
    seq(|h|, i requires 0 <= i < |h| => h[i].subscribers)
  }

  lemma ReferencesAppend(h: seq<Deploy>, d: Deploy)
    ensures PullRequestsIn(h + [d]) == PullRequestsIn(h) + [d.pullRequests]
    ensures SubscribersIn(h + [d]) == SubscribersIn(h) + [d.subscribers]
  {
  }

  predicate SameScalars(decoded: DecodedDeploy, d: Deploy) {
    && decoded.user == d.user && decoded.subject == d.subject
    && decoded.startedAt == d.startedAt && decoded.finishedAt == d.finishedAt
    && decoded.aborted == d.aborted && decoded.abortReason == d.abortReason
  }

  /** The deploys handed out have the scalars of the entries, and as references what the variable was at the time. */
  ghost predicate Answers(
    deploys: seq<DecodedDeploy>, h: seq<Deploy>,
    prs: seq<Slice<R.PullRequestReference>>, users: seq<Slice<R.UserReference>>)
  {
    && |deploys| == |h| && |prs| == |users| == |h| + 1
    && (forall i :: 0 <= i < |h| ==> SameScalars(deploys[i], h[i]))
    && forall i :: 0 <= i < |h| ==> deploys[i].pullRequests == prs[i + 1] && deploys[i].subscribers == users[i + 1]
  }

  lemma AnswersNext(
    deploys: seq<DecodedDeploy>, h: seq<Deploy>,
    prs: seq<Slice<R.PullRequestReference>>, users: seq<Slice<R.UserReference>>, d: Deploy, decoded: DecodedDeploy)
    requires Answers(deploys, h, prs, users) && SameScalars(decoded, d)
    ensures Answers(deploys + [decoded], h + [d], prs + [decoded.pullRequests], users + [decoded.subscribers])
  {
  }

  /** Those of the decoded deploys that started after t. */
  function LaterOf(deploys: seq<DecodedDeploy>, t: Time): seq<DecodedDeploy> {
    if deploys == [] then []
    else
      var n := |deploys| - 1;
      LaterOf(deploys[..n], t) + (if deploys[n].startedAt > t then [deploys[n]] else [])
  }

  lemma LaterOfAppend(deploys: seq<DecodedDeploy>, d: DecodedDeploy, t: Time)
    ensures LaterOf(deploys + [d], t) == if d.startedAt > t then LaterOf(deploys, t) + [d] else LaterOf(deploys, t)
  {
    assert (deploys + [d])[..|deploys|] == deploys;
  }

  ghost predicate AllSameScalars(deploys: seq<DecodedDeploy>, h: seq<Deploy>) {
    |deploys| == |h| && forall i :: 0 <= i < |h| ==> SameScalars(deploys[i], h[i])
  }

  lemma {:induction false} LaterHaveScalars(deploys: seq<DecodedDeploy>, h: seq<Deploy>, t: Time)
    requires AllSameScalars(deploys, h)
    ensures AllSameScalars(LaterOf(deploys, t), After(h, t))
  {
    if h != [] {
      LaterHaveScalars(deploys[..|h| - 1], h[..|h| - 1], t);
    }
  }

  /** The one variable that all entries of a call are decoded into. */
  class DeployVariable {
    const pullRequests: Variable<R.PullRequestReference>
    const subscribers: Variable<R.UserReference>
    /** The entries that were decoded into it, and what was handed out for them. */
    ghost var entries: seq<Deploy>
    ghost var deploys: seq<DecodedDeploy>

    ghost predicate Valid()
      reads this, pullRequests, set s | s in pullRequests.slices :: s.arr
      reads subscribers, set s | s in subscribers.slices :: s.arr
    {
      && pullRequests.Valid() && pullRequests.stored == PullRequestsIn(entries)
      && subscribers.Valid() && subscribers.stored == SubscribersIn(entries)
      && Answers(deploys, entries, pullRequests.slices, subscribers.slices)
    }

    constructor ()
      ensures Valid() && entries == [] && deploys == [] && fresh(pullRequests) && fresh(subscribers)
      ensures fresh(pullRequests.cur.arr) && fresh(subscribers.cur.arr)
    {
      pullRequests := new Variable<R.PullRequestReference>();
      subscribers := new Variable<R.UserReference>();
      entries, deploys := [], [];
    }

    /** json.Unmarshal of one entry. */
    method Decode(d: Deploy) returns (decoded: DecodedDeploy)
      requires Valid()
      modifies this, pullRequests, pullRequests.cur.arr, subscribers, subscribers.cur.arr
      ensures Valid() && entries == old(entries) + [d] && deploys == old(deploys) + [decoded]
      ensures fresh(pullRequests.cur.arr) || pullRequests.cur.arr == old(pullRequests.cur.arr)
      ensures fresh(subscribers.cur.arr) || subscribers.cur.arr == old(subscribers.cur.arr)
    {
      var prs := DecodePullRequests(d.pullRequests);
      var users := DecodeSubscribers(d.subscribers);
      decoded := DecodedOf(d, prs, users);
      Record(d, decoded, old(pullRequests.slices), old(subscribers.slices));
    }

    /** ... and if deploy.StartedAt.After(startTime) { deploys = append(deploys, deploy) } */
    method DecodeLater(d: Deploy, later: seq<DecodedDeploy>, startTime: Time) returns (r: seq<DecodedDeploy>)
      requires Valid() && later == LaterOf(deploys, startTime)
      modifies this, pullRequests, pullRequests.cur.arr, subscribers, subscribers.cur.arr
      ensures Valid() && entries == old(entries) + [d] && r == LaterOf(deploys, startTime)
      ensures fresh(pullRequests.cur.arr) || pullRequests.cur.arr == old(pullRequests.cur.arr)
      ensures fresh(subscribers.cur.arr) || subscribers.cur.arr == old(subscribers.cur.arr)
    {
      var decoded := Decode(d);
      LaterOfAppend(old(deploys), decoded, startTime);
      r := if decoded.startedAt > startTime then later + [decoded] else later;
    }

    ghost method Record(d: Deploy, decoded: DecodedDeploy,
                        prs: seq<Slice<R.PullRequestReference>>, users: seq<Slice<R.UserReference>>)
      requires pullRequests.Valid() && pullRequests.stored == PullRequestsIn(entries) + [d.pullRequests]
      requires subscribers.Valid() && subscribers.stored == SubscribersIn(entries) + [d.subscribers]
      requires Answers(deploys, entries, prs, users) && SameScalars(decoded, d)
      requires pullRequests.slices == prs + [decoded.pullRequests] && subscribers.slices == users + [decoded.subscribers]
      modifies this
      ensures Valid() && entries == old(entries) + [d] && deploys == old(deploys) + [decoded]
    {
      ReferencesAppend(entries, d);
      AnswersNext(deploys, entries, prs, users, d, decoded);
      entries, deploys := entries + [d], deploys + [decoded];
    }

    method DecodePullRequests(refs: seq<R.PullRequestReference>) returns (r: Slice<R.PullRequestReference>)
      requires pullRequests.Valid() && subscribers.Valid()
      modifies pullRequests, pullRequests.cur.arr
      ensures pullRequests.Valid() && pullRequests.stored == old(pullRequests.stored) + [refs]
      ensures subscribers.Valid() && pullRequests.slices == old(pullRequests.slices) + [r]
      ensures fresh(pullRequests.cur.arr) || pullRequests.cur.arr == old(pullRequests.cur.arr)
    {
      r := pullRequests.Decode(refs);
    }

    method DecodeSubscribers(refs: seq<R.UserReference>) returns (r: Slice<R.UserReference>)
      requires pullRequests.Valid() && subscribers.Valid()
      modifies subscribers, subscribers.cur.arr
      ensures subscribers.Valid() && subscribers.stored == old(subscribers.stored) + [refs]
      ensures pullRequests.Valid() && subscribers.slices == old(subscribers.slices) + [r]
      ensures fresh(subscribers.cur.arr) || subscribers.cur.arr == old(subscribers.cur.arr)
    {
      r := subscribers.Decode(refs);
    }
  }

  /** The loop of Since. */
  method DecodeLater(entries: seq<(Key, Deploy)>, startTime: Time)
    returns (deploys: seq<DecodedDeploy>, ghost v: DeployVariable)
    ensures v.Valid() && v.entries == Values(entries) && deploys == LaterOf(v.deploys, startTime)
  {
    deploys := [];
    var deploy := new DeployVariable();
    ghost var h := Values(entries);
    for i := 0 to |entries|
      invariant fresh(deploy.pullRequests) && fresh(deploy.subscribers)
      invariant fresh(deploy.pullRequests.cur.arr) && fresh(deploy.subscribers.cur.arr)
      invariant fresh(deploy) && deploy.Valid() && deploy.entries == h[..i]
      invariant deploys == LaterOf(deploy.deploys, startTime)
    {
      deploys := deploy.DecodeLater(entries[i].1, deploys, startTime);
    }
    assert h[..|entries|] == h;
    v := deploy;
  }

  // ---- what the references of an answer show ----

  /** Everything handed out shows the references of its own entry. */
  ghost predicate ReferencesAreRight(v: DeployVariable)
    requires v.Valid()
    reads v, v.pullRequests, set s | s in v.pullRequests.slices :: s.arr
    reads v.subscribers, set s | s in v.subscribers.slices :: s.arr
  {
    var h := v.entries;
    forall i :: 0 <= i < |h| ==>
      && v.deploys[i].pullRequests == v.pullRequests.slices[i + 1] && v.deploys[i].subscribers == v.subscribers.slices[i + 1]
      && v.deploys[i].pullRequests.Contents() == h[i].pullRequests && v.deploys[i].subscribers.Contents() == h[i].subscribers
  }

  lemma RightInBoth(v: DeployVariable)
    requires v.Valid()
    ensures ReferencesAreRight(v) <==>
      AllRight(v.pullRequests.slices, v.pullRequests.stored) && AllRight(v.subscribers.slices, v.subscribers.stored)
  {
  }

  /** An answer shows the right references if and only if each entry repeats what it writes over, of either kind. */
  lemma ReferencesAreRightIff(v: DeployVariable)
    requires v.Valid()
    ensures ReferencesAreRight(v) <==>
      Repeats(v.pullRequests.slices, v.pullRequests.stored) && Repeats(v.subscribers.slices, v.subscribers.stored)
  {
    RightInBoth(v);
    AllRightIff(v.pullRequests.slices, v.pullRequests.stored);
    AllRightIff(v.subscribers.slices, v.subscribers.stored);
  }

  /** It does for every history in which no two neighbours have pull requests, and no two have subscribers. */
  lemma LonelyReferencesAreRight(v: DeployVariable)
    requires v.Valid()
    requires var h := v.entries; forall i :: 0 <= i < |h| - 1 ==>
      && (h[i].pullRequests == [] || h[i + 1].pullRequests == []) && (h[i].subscribers == [] || h[i + 1].subscribers == [])
    ensures ReferencesAreRight(v)
  {
    RightInBoth(v);
    NothingInARow(v.pullRequests.stored);
    NothingInARow(v.subscribers.stored);
    RightIfAllAgree(v.pullRequests.slices, v.pullRequests.stored);
    RightIfAllAgree(v.subscribers.slices, v.subscribers.stored);
  }

  lemma NothingInARow<T>(stored: seq<seq<T>>)
    requires forall i :: 0 <= i < |stored| - 1 ==> stored[i] == [] || stored[i + 1] == []
    ensures forall i, j :: !InARow(stored, i, j)
  {
    forall i, j
      ensures !InARow(stored, i, j)
    {
      if 0 <= i < j < |stored| {
        assert stored[i] == [] || stored[i + 1] == [];
      }
    }
  }

  /** And it does not whenever two neighbours have different pull requests at the same place. */
  lemma NeighboursAreConfused(v: DeployVariable, i: nat, p: nat)
    requires v.Valid() && i + 1 < |v.entries|
    requires var mine, next := v.entries[i].pullRequests, v.entries[i + 1].pullRequests;
      p < |mine| && p < |next| && mine[p] != next[p]
    ensures !ReferencesAreRight(v)
  {
    RightInBoth(v);
    WrongIfNeighboursDiffer(v.pullRequests.slices, v.pullRequests.stored, i, p);
  }

  class BoltDBStore {
    var buckets: map<string, ChannelBucket>

    /** No bucket has a blank name, and every history bucket is one that only AddToHistory has written to. */
    ghost predicate Valid()
      reads this
    {
      && "" !in buckets
      && forall k :: k in buckets && buckets[k].history.Some? ==> WellKept(buckets[k].history.value)
    }

    function Bucket(key: string): ChannelBucket
      reads this
    {
      if key in buckets then buckets[key] else ChannelBucket(None, None)
    }

    function HistoryBucketOf(key: string): HistoryBucket
      reads this
    {
      if Bucket(key).history.Some? then Bucket(key).history.value else NEW_BUCKET
    }

    ghost function QueueOf(key: string): seq<Deploy>
      reads this
    {
      if Bucket(key).queue.Some? then Bucket(key).queue.value else []
    }

    ghost function HistoryOf(key: string): seq<Deploy>
      reads this
    {
      Values(HistoryBucketOf(key).entries)
    }

    constructor ()
      ensures Valid() && buckets == map[]
    {
      buckets := map[];
    }

    method GetQueue(key: string) returns (queue: seq<Deploy>)
      ensures queue == QueueOf(key)
    {
      queue := if Bucket(key).queue.Some? then Bucket(key).queue.value else [];
    }

    /** A bucket cannot have a blank name: what is stored for the channel "" is dropped. */
    method SetQueue(key: string, queue: seq<Deploy>)
      modifies this
      ensures old(Valid()) ==> Valid()
      ensures QueueOf(key) == if key == "" then old(QueueOf(key)) else queue
      ensures forall k :: k != key ==> QueueOf(k) == old(QueueOf(k))
      ensures forall k :: HistoryBucketOf(k) == old(HistoryBucketOf(k))
    {
      if key == "" {
        return;
      }
      buckets := buckets[key := Bucket(key).(queue := Some(queue))];
    }

    /** There is room in the history of the channel for another numbered entry. */
    ghost predicate Room(key: string)
      reads this
    {
      HistoryBucketOf(key).sequence + 1 < UINT64_LIMIT
    }

    method AddToHistory(key: string, d: Deploy)
      requires Valid()
      modifies this
      ensures old(Room(key)) ==> Valid()
      ensures HistoryOf(key) == if key == "" then old(HistoryOf(key))
                                else if old(Room(key)) then old(HistoryOf(key)) + [d] else [d] + old(HistoryOf(key))
      ensures forall k :: k != key ==> HistoryBucketOf(k) == old(HistoryBucketOf(k))
      ensures forall k :: QueueOf(k) == old(QueueOf(k))
    {
      if key == "" {
        return;
      }
      var history := HistoryBucketOf(key);
      if Room(key) {
        AppendAppends(history, d);
      } else {
        AppendWrapsAround(history, d);
      }
      var id := NextSequence(history);
      var k := Itob(id);
      history := HistoryBucket(id, Put(history.entries, k[..], d));
      buckets := buckets[key := Bucket(key).(history := Some(history))];
    }

    /**
     * The whole history, in the order it was appended. The references of all entries are decoded into the same two
     * variables, which say what the slices handed out show.
     */
    method All(key: string) returns (deploys: seq<DecodedDeploy>, ghost v: DeployVariable)
      ensures |deploys| == |HistoryOf(key)|
      ensures forall i :: 0 <= i < |deploys| ==>
                && deploys[i].user == HistoryOf(key)[i].user && deploys[i].subject == HistoryOf(key)[i].subject
                && deploys[i].startedAt == HistoryOf(key)[i].startedAt && deploys[i].finishedAt == HistoryOf(key)[i].finishedAt
                && deploys[i].aborted == HistoryOf(key)[i].aborted && deploys[i].abortReason == HistoryOf(key)[i].abortReason
      ensures v.Valid() && v.entries == HistoryOf(key) && deploys == v.deploys
    {
      deploys := [];
      var deploy := new DeployVariable();
      var entries := HistoryBucketOf(key).entries;
      ghost var h := Values(entries);
      for i := 0 to |entries|
        invariant fresh(deploy.pullRequests) && fresh(deploy.subscribers)
        invariant fresh(deploy.pullRequests.cur.arr) && fresh(deploy.subscribers.cur.arr)
        invariant fresh(deploy) && deploy.Valid() && deploy.entries == h[..i] && deploys == deploy.deploys
      {
        assert h[..i + 1] == h[..i] + [h[i]];
        var d := deploy.Decode(entries[i].1);
        deploys := deploys + [d];
      }
      assert h[..|entries|] == h;
      v := deploy;
    }

    /** The deploys of the history that started after the given time, in the order of the history; all are decoded. */
    method Since(key: string, startTime: Time) returns (deploys: seq<DecodedDeploy>, ghost v: DeployVariable)
      ensures var later := After(HistoryOf(key), startTime);
        |deploys| == |later| && forall i :: 0 <= i < |deploys| ==>
          && deploys[i].user == later[i].user && deploys[i].subject == later[i].subject
          && deploys[i].startedAt == later[i].startedAt && deploys[i].finishedAt == later[i].finishedAt
          && deploys[i].aborted == later[i].aborted && deploys[i].abortReason == later[i].abortReason
      ensures v.Valid() && v.entries == HistoryOf(key) && deploys == LaterOf(v.deploys, startTime)
    {
      deploys, v := DecodeLater(HistoryBucketOf(key).entries, startTime);
      LaterHaveScalars(v.deploys, v.entries, startTime);
    }
  }

  /** deploy/channel_deploys.go over Bolt: every operation works on a copy decoded for it. */
  class ChannelDeploys {
    const store: BoltDBStore

    ghost function View(ch: string): P.Channel
      reads store
    {
      P.Channel(store.QueueOf(ch), store.HistoryOf(ch))
    }

    constructor (store: BoltDBStore)
      ensures this.store == store
    {
      this.store := store;
    }

    method All(ch: string) returns (deploys: seq<Deploy>)
      ensures deploys == View(ch).queue
    {
      deploys := store.GetQueue(ch);
    }

    method Current(ch: string) returns (d: Option<Deploy>)
      ensures d == if View(ch).queue == [] then None else Some(View(ch).queue[0])
    {
      var queue := store.GetQueue(ch);
      d := if queue == [] then None else Some(queue[0]);
    }

    method Start(ch: string, d: Deploy, now: Time) returns (r: P.StartResult)
      requires store.Valid()
      modifies store
      ensures store.Valid() && r == P.Start(old(View(ch)), d, now).1
      ensures View(ch) == if ch == "" then old(View(ch)) else P.Start(old(View(ch)), d, now).0
      ensures forall k :: k != ch ==> View(k) == old(View(k))
    {
      var queue := store.GetQueue(ch);
      if P.UserInQueue(queue, d.user.id) {
        return P.AlreadyInQueue(d);
      }
      if queue != [] {
        store.SetQueue(ch, queue + [d]);
        return P.InProgress(queue[0]);
      }
      store.SetQueue(ch, queue + [d.Start(now)]);
      return P.Started(d.Start(now));
    }

    method Finish(ch: string, finishAt: Time, startAt: Time) returns (r: Option<Deploy>)
      requires store.Valid()
      modifies store
      ensures r == P.Finish(old(View(ch)), finishAt, startAt).1
      ensures old(store.Room(ch)) || r == None ==> store.Valid()
      ensures old(store.Room(ch)) || r == None ==> View(ch) == P.Finish(old(View(ch)), finishAt, startAt).0
      ensures !old(store.Room(ch)) && r.Some? ==>
        View(ch) == P.Finish(old(View(ch)), finishAt, startAt).0.(history := [r.value] + old(View(ch)).history)
      ensures forall k :: k != ch ==> View(k) == old(View(k))
    {
      var queue := store.GetQueue(ch);
      if queue == [] {
        return None;
      }
      var current := queue[0].Finish(finishAt);
      Settle(ch, queue[1..], current, startAt);
      r := Some(current);
    }

    method Abort(ch: string, reason: string, finishAt: Time, startAt: Time) returns (r: Option<Deploy>)
      requires store.Valid()
      modifies store
      ensures r == P.Abort(old(View(ch)), reason, finishAt, startAt).1
      ensures old(store.Room(ch)) || r == None ==> store.Valid()
      ensures old(store.Room(ch)) || r == None ==> View(ch) == P.Abort(old(View(ch)), reason, finishAt, startAt).0
      ensures !old(store.Room(ch)) && r.Some? ==>
        View(ch) == P.Abort(old(View(ch)), reason, finishAt, startAt).0.(history := [r.value] + old(View(ch)).history)
      ensures forall k :: k != ch ==> View(k) == old(View(k))
    {
      var queue := store.GetQueue(ch);
      if queue == [] {
        return None;
      }
      var current := queue[0].Abort(reason, finishAt);
      Settle(ch, queue[1..], current, startAt);
      r := Some(current);
    }

    /** The second half of Finish and of Abort. */
    method Settle(ch: string, rest: seq<Deploy>, d: Deploy, startAt: Time)
      requires store.Valid() && ch != ""
      modifies store
      ensures old(store.Room(ch)) ==> store.Valid()
      ensures View(ch).queue == P.Advanced(rest, startAt)
      ensures View(ch).history ==
              if old(store.Room(ch)) then old(View(ch)).history + [d] else [d] + old(View(ch)).history
      ensures forall k :: k != ch ==> View(k) == old(View(k))
    {
      store.AddToHistory(ch, d);
      var queue := rest;
      if queue != [] {
        queue := [queue[0].Start(startAt)] + queue[1..];
      }
      store.SetQueue(ch, queue);
    }

    method LeaveQueue(ch: string, user: User) returns (left: bool)
      requires store.Valid()
      modifies store
      ensures store.Valid() && (View(ch), left) == P.Leave(old(View(ch)), user.id)
      ensures forall k :: k != ch ==> View(k) == old(View(k))
    {
      var queue := store.GetQueue(ch);
      left := P.UserInQueue(queue, user.id);
      if left {
        store.SetQueue(ch, P.WithoutUser(queue, user.id));
      }
    }
  }
}
