/**
 * deploy/channel_deploys.go on values: one channel is its queue, whose head is the running deploy, and its
 * history. The classes over the stores are proved against these functions; the laws of the protocol are lemmas here.
 */
module ChannelProtocol {
  import opened Text
  import opened Clock
  import opened Deploys

  datatype Channel = Channel(queue: seq<Deploy>, history: seq<Deploy>)

  const EMPTY_CHANNEL := Channel([], [])

  datatype StartResult = Started(d: Deploy) | InProgress(current: Deploy) | AlreadyInQueue(d: Deploy)

  predicate UserInQueue(queue: seq<Deploy>, id: string) {
    exists i :: 0 <= i < |queue| && queue[i].user.id == id
  }

  /** The queue without every deploy of the user. */
  function WithoutUser(queue: seq<Deploy>, id: string): seq<Deploy> {
    if queue == [] then []
    else (if queue[0].user.id != id then [queue[0]] else []) + WithoutUser(queue[1..], id)
  }

  function Start(c: Channel, d: Deploy, now: Time): (Channel, StartResult) {
    if UserInQueue(c.queue, d.user.id) then (c, AlreadyInQueue(d))
    else if c.queue != [] then (c.(queue := c.queue + [d]), InProgress(c.queue[0]))
    else (c.(queue := c.queue + [d.Start(now)]), Started(d.Start(now)))
  }

  /** The queue once the head has left it: the next deploy starts. */
  function Advanced(queue: seq<Deploy>, now: Time): seq<Deploy> {
    if queue == [] then [] else [queue[0].Start(now)] + queue[1..]
  }

  /** The head has become the completed deploy d. */
  function Settled(c: Channel, d: Deploy, startAt: Time): Channel {
    Channel(if c.queue == [] then [] else Advanced(c.queue[1..], startAt), c.history + [d])
  }

  function Finish(c: Channel, finishAt: Time, startAt: Time): (Channel, Option<Deploy>) {
    if c.queue == [] then (c, None)
    else
      var d := c.queue[0].Finish(finishAt);
      (Settled(c, d, startAt), Some(d))
  }

  function Abort(c: Channel, reason: string, finishAt: Time, startAt: Time): (Channel, Option<Deploy>) {
    if c.queue == [] then (c, None)
    else
      var d := c.queue[0].Abort(reason, finishAt);
      (Settled(c, d, startAt), Some(d))
  }

  function Leave(c: Channel, id: string): (Channel, bool) {
    if UserInQueue(c.queue, id) then (c.(queue := WithoutUser(c.queue, id)), true) else (c, false)
  }

  // ---- the invariant of a channel ----

  ghost predicate DistinctUsers(queue: seq<Deploy>) {
    forall i, j :: 0 <= i < j < |queue| ==> queue[i].user.id != queue[j].user.id
  }

  /** A started head, and only fresh deploys behind it. */
  ghost predicate HeadRunsAlone(queue: seq<Deploy>) {
    && (queue != [] ==> queue[0].startedAt != ZERO_TIME && queue[0] == queue[0].Running())
    && forall i :: 1 <= i < |queue| ==> Fresh(queue[i])
  }

  /** Completed deploys follow each other in time. */
  ghost predicate Chronological(history: seq<Deploy>) {
    && (forall i :: 0 <= i < |history| ==> ZERO_TIME < history[i].startedAt <= history[i].finishedAt)
    && forall i, j :: 0 <= i < j < |history| ==> history[i].finishedAt <= history[j].startedAt
  }

  /** What every reachable channel satisfies when the clock shows now. */
  ghost predicate Disciplined(c: Channel, now: Time) {
    && DistinctUsers(c.queue)
    && HeadRunsAlone(c.queue)
    && Chronological(c.history)
    && (c.queue != [] ==> ZERO_TIME < c.queue[0].startedAt <= now)
    && (c.history != [] ==> c.history[|c.history| - 1].finishedAt <= now)
    && (c.queue != [] && c.history != [] ==> c.history[|c.history| - 1].finishedAt <= c.queue[0].startedAt)
  }

  lemma InitiallyDisciplined(now: Time)
    ensures Disciplined(EMPTY_CHANNEL, now)
  {
  }

  lemma StartKeepsDiscipline(c: Channel, d: Deploy, before: Time, now: Time)
    requires Disciplined(c, before) && before <= now && 0 < now && Fresh(d)
    ensures Disciplined(Start(c, d, now).0, now)
  {
  }

  /** Completing the head keeps the discipline: the history stays in order and the next deploy takes over. */
  lemma CompletionKeepsDiscipline(c: Channel, d: Deploy, before: Time, finishAt: Time, startAt: Time)
    requires Disciplined(c, before) && before <= finishAt <= startAt && 0 < finishAt
    requires c.queue != [] && d.startedAt == c.queue[0].startedAt && d.finishedAt == finishAt
    ensures Disciplined(Settled(c, d, startAt), startAt)
  {
    AdvancedIsDisciplined(c.queue[1..], startAt);
    ChronologicalAppend(c.history, d);
  }

  lemma AdvancedIsDisciplined(queue: seq<Deploy>, now: Time)
    requires DistinctUsers(queue) && 0 < now
    requires forall i :: 0 <= i < |queue| ==> Fresh(queue[i])
    ensures DistinctUsers(Advanced(queue, now)) && HeadRunsAlone(Advanced(queue, now))
    ensures queue != [] ==> Advanced(queue, now)[0].startedAt == now
  {
    var a := Advanced(queue, now);
    assert forall i :: 1 <= i < |queue| ==> a[i] == queue[i];
    if queue != [] {
      assert Fresh(queue[0]);
    }
  }

  lemma ChronologicalAppend(history: seq<Deploy>, d: Deploy)
    requires Chronological(history)
    requires ZERO_TIME < d.startedAt <= d.finishedAt
    requires history != [] ==> history[|history| - 1].finishedAt <= d.startedAt
    ensures Chronological(history + [d])
  {
    var h := history + [d];
    forall i, j | 0 <= i < j < |h|
      ensures h[i].finishedAt <= h[j].startedAt
    {
      if j == |history| && i < |history| - 1 {
        assert history[i].finishedAt <= history[|history| - 1].startedAt;
      }
    }
  }

  // ---- what goes down in the history ----

  /** Finishing an unfinished head puts it in the history with the time, and changes nothing else about it. */
  lemma FinishIsRecorded(c: Channel, finishAt: Time, startAt: Time)
    requires c.queue != [] && c.queue[0].finishedAt == 0
    ensures var d := c.queue[0].(finishedAt := finishAt);
      Finish(c, finishAt, startAt).0.history == c.history + [d] && Finish(c, finishAt, startAt).1 == Some(d)
  {
  }

  /** Aborting it puts it there with the time and the reason. */
  lemma AbortIsRecorded(c: Channel, reason: string, finishAt: Time, startAt: Time)
    requires c.queue != [] && c.queue[0].finishedAt == 0
    ensures var d := c.queue[0].(finishedAt := finishAt, aborted := true, abortReason := reason);
      Abort(c, reason, finishAt, startAt).0.history == c.history + [d] && Abort(c, reason, finishAt, startAt).1 == Some(d)
  {
  }

  // ---- leaving the queue ----

  lemma {:induction false} WithoutAbsentUser(queue: seq<Deploy>, id: string)
    requires !UserInQueue(queue, id)
    ensures WithoutUser(queue, id) == queue
  {
    if queue != [] {
      assert queue[0].user.id != id;
      forall i | 0 <= i < |queue[1..]|
        ensures queue[1..][i].user.id != id
      {
        assert queue[1..][i] == queue[i + 1];
      }
      WithoutAbsentUser(queue[1..], id);
    }
  }

  /** In a queue of distinct users, leaving takes out exactly the one deploy of the user. */
  lemma {:induction false} WithoutUserAt(queue: seq<Deploy>, k: nat)
    requires k < |queue| && DistinctUsers(queue)
    ensures WithoutUser(queue, queue[k].user.id) == queue[..k] + queue[k + 1..]
  {
    var id, rest := queue[k].user.id, queue[1..];
    if k == 0 {
      WithoutAbsentUser(rest, id);
    } else {
      WithoutUserAt(rest, k - 1);
      assert rest[k - 1] == queue[k] && queue[0].user.id != id;
      assert [queue[0]] + (rest[..k - 1] + rest[k..]) == queue[..k] + queue[k + 1..];
    }
  }

  lemma WaiterLeaves(queue: seq<Deploy>, k: nat)
    requires DistinctUsers(queue) && HeadRunsAlone(queue) && 1 <= k < |queue|
    ensures var queue' := queue[..k] + queue[k + 1..];
      DistinctUsers(queue') && HeadRunsAlone(queue') && queue'[0] == queue[0]
  {
    var queue' := queue[..k] + queue[k + 1..];
    assert forall i :: 0 <= i < |queue'| ==> queue'[i] == if i < k then queue[i] else queue[i + 1];
  }

  /** A user who does not own the running deploy may leave at any time. */
  lemma LeaveKeepsDiscipline(c: Channel, id: string, now: Time)
    requires Disciplined(c, now)
    requires c.queue != [] ==> c.queue[0].user.id != id
    ensures Disciplined(Leave(c, id).0, now)
  {
    if UserInQueue(c.queue, id) {
      var k: nat :| k < |c.queue| && c.queue[k].user.id == id;
      WithoutUserAt(c.queue, k);
      WaiterLeaves(c.queue, k);
    }
  }

  /**
   * LeaveQueue itself does not look at who owns the head. On a disciplined channel it keeps the discipline
   * exactly unless the user owns the running deploy and someone is waiting behind it: the next deploy would
   * then be at the head without ever having been started.
   */
  lemma LeaveKeepsDisciplineIff(c: Channel, id: string, now: Time)
    requires Disciplined(c, now)
    ensures Disciplined(Leave(c, id).0, now) <==> !(|c.queue| >= 2 && c.queue[0].user.id == id)
  {
    if c.queue != [] && c.queue[0].user.id == id {
      HeadLeaves(c, now);
    } else {
      LeaveKeepsDiscipline(c, id, now);
    }
  }

  lemma HeadLeaves(c: Channel, now: Time)
    requires Disciplined(c, now) && c.queue != []
    ensures var c' := Leave(c, c.queue[0].user.id).0;
      && c'.queue == c.queue[1..] && c'.history == c.history
      && (Disciplined(c', now) <==> |c.queue| == 1)
  {
    WithoutUserAt(c.queue, 0);
    var queue := c.queue[1..];
    if queue != [] {
      assert Fresh(queue[0]);
    }
  }
}
