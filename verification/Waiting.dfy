/** Nobody waits for ever: a queued deploy only moves forward, one place for every completion. */
module Waiting {
  import opened Clock
  import opened Deploys
  import opened ChannelProtocol
  import opened BotProtocol
  import opened BotRuns

  /** The channel once the first i requests of the run have been served. */
  function StateAt(run: seq<Request>, i: nat, ch: string): Channel
    requires i <= |run|
  {
    Run(INITIAL_WORLD, run[..i]).At(ch)
  }

  /** How request i of the run was answered. */
  function Answer(run: seq<Request>, i: nat): Response
    requires i < |run|
  {
    Serve(Run(INITIAL_WORLD, run[..i]), run[i]).1
  }

  predicate Completes(run: seq<Request>, i: nat, ch: string)
    requires i < |run|
  {
    run[i].channelID == ch &&
    (Answer(run, i).DeployDone? || Answer(run, i).DeployInterrupted? || Answer(run, i).DeployWasAborted?)
  }

  predicate Withdraws(run: seq<Request>, i: nat, ch: string, id: string)
    requires i < |run|
  {
    run[i].channelID == ch && Answer(run, i).UserLeftTheQueue? && run[i].user.id == id
  }

  /** How many of the requests k, ..., n - 1 finished or aborted a deploy of the channel. */
  function Completions(run: seq<Request>, k: nat, n: nat, ch: string): nat
    requires k <= n <= |run|
  {
    if k == n then 0 else Completions(run, k, n - 1, ch) + (if Completes(run, n - 1, ch) then 1 else 0)
  }

  /** Everyone who came, in order: those served and then those still in the queue. */
  function Line(c: Channel): seq<Deploy> {
    c.history + c.queue
  }

  /** The deploy at place g of c is at place g' of c', no further back, and `done` deploys have been completed since. */
  ghost predicate PlaceKept(c: Channel, g: nat, c': Channel, g': nat, done: nat) {
    && g < |Line(c)| && g' < |Line(c')|
    && (g' == g || |c.history| <= g' < g)
    && Line(c')[g'].Identity() == Line(c)[g].Identity()
    && |c'.history| == |c.history| + done
  }

  lemma WithdrawalKeepsPlace(c: Channel, k: nat, g: nat)
    requires k < |c.queue| && g < |Line(c)| && g != |c.history| + k
    ensures PlaceKept(c, g, c.(queue := c.queue[..k] + c.queue[k + 1..]), if g > |c.history| + k then g - 1 else g, 0)
  {
    var queue' := c.queue[..k] + c.queue[k + 1..];
    assert forall i :: 0 <= i < |queue'| ==> queue'[i] == if i < k then c.queue[i] else c.queue[i + 1];
  }

  /** One move lets a place in the line stay or slip forward by one, unless it is the place withdrawn. */
  lemma MoveKeepsPlace(c: Channel, m: Move, now: Time, later: Time, g: nat) returns (g': nat)
    requires DistinctUsers(c.queue) && Allowed(c, m, now)
    requires g < |Line(c)| && (m.Withdraw? ==> Line(c)[g].user.id != m.id)
    ensures PlaceKept(c, g, Moved(c, m, now, later), g', if m.Complete? then 1 else 0)
  {
    g' := g;
    if m.Withdraw? {
      var k: nat :| k < |c.queue| && c.queue[k].user.id == m.id;
      WithoutUserAt(c.queue, k);
      WithdrawalKeepsPlace(c, k, g);
      if g > |c.history| + k {
        g' := g - 1;
      }
    }
  }

  lemma PlaceKeptTransitive(a: Channel, g: nat, b: Channel, h: nat, c: Channel, i: nat, m: nat, n: nat)
    requires PlaceKept(a, g, b, h, m) && PlaceKept(b, h, c, i, n)
    ensures PlaceKept(a, g, c, i, m + n)
  {
  }

  lemma ServedStep(run: seq<Request>, i: nat, ch: string) returns (m: Move)
    requires Timely(run) && i < |run|
    ensures Allowed(StateAt(run, i, ch), m, run[i].now)
    ensures StateAt(run, i + 1, ch) == Moved(StateAt(run, i, ch), m, run[i].now, run[i].later)
    ensures m.Complete? <==> Completes(run, i, ch)
    ensures m.Withdraw? ==> Withdraws(run, i, ch, m.id)
    ensures Disciplined(StateAt(run, i, ch), ClockAfter(run[..i]))
  {
    assert run[..i + 1][..i] == run[..i];
    EveryRunIsDisciplined(run[..i], ch);
    ReachableServeMoves(run[..i], run[i]);
    m := if run[i].channelID == ch then MoveOf(StateAt(run, i, ch), run[i], Answer(run, i)) else Stay;
    if Answer(run, i).DeployWasAborted? {
      AbortsHead(Run(INITIAL_WORLD, run[..i]), run[i]);
    }
  }

  lemma AbortsHead(w: World, r: Request)
    requires Serve(w, r).1.DeployWasAborted?
    ensures w.At(r.channelID).queue != []
  {
  }

  lemma StepKeepsPlace(run: seq<Request>, i: nat, ch: string, g: nat) returns (g': nat)
    requires Timely(run) && i < |run| && g < |Line(StateAt(run, i, ch))|
    requires !Withdraws(run, i, ch, Line(StateAt(run, i, ch))[g].user.id)
    ensures PlaceKept(StateAt(run, i, ch), g, StateAt(run, i + 1, ch), g', if Completes(run, i, ch) then 1 else 0)
  {
    var m := ServedStep(run, i, ch);
    g' := MoveKeepsPlace(StateAt(run, i, ch), m, run[i].now, run[i].later, g);
  }

  lemma SameIdentitySameUser(d: Deploy, e: Deploy)
    requires d.Identity() == e.Identity()
    ensures d.user == e.user
  {
    assert d.Identity().user == e.Identity().user;
  }

  /** The place in the line after n requests of the deploy of user id that was at place g after k of them. */
  lemma {:induction false} TrackPlace(run: seq<Request>, k: nat, n: nat, ch: string, g: nat, id: string) returns (g': nat)
    requires Timely(run) && k <= n <= |run|
    requires g < |Line(StateAt(run, k, ch))| && Line(StateAt(run, k, ch))[g].user.id == id
    requires forall i :: k <= i < n ==> !Withdraws(run, i, ch, id)
    ensures PlaceKept(StateAt(run, k, ch), g, StateAt(run, n, ch), g', Completions(run, k, n, ch))
    decreases n - k
  {
    if k == n {
      g' := g;
    } else {
      var h := TrackPlace(run, k, n - 1, ch, g, id);
      SameIdentitySameUser(Line(StateAt(run, n - 1, ch))[h], Line(StateAt(run, k, ch))[g]);
      g' := StepKeepsPlace(run, n - 1, ch, h);
      PlaceKeptTransitive(StateAt(run, k, ch), g, StateAt(run, n - 1, ch), h, StateAt(run, n, ch), g',
        Completions(run, k, n - 1, ch), if Completes(run, n - 1, ch) then 1 else 0);
    }
  }

  /**
   * A deploy at position p of the queue that is not withdrawn has, after any requests, either moved to a
   * position at least as many places forward as deploys were completed meanwhile, or has been served.
   * So after p completions, if not before, it runs or has run.
   */
  lemma BoundedWaiting(run: seq<Request>, k: nat, n: nat, ch: string, p: nat)
    requires Timely(run) && k <= n <= |run|
    requires p < |StateAt(run, k, ch).queue|
    requires forall i :: k <= i < n ==> !Withdraws(run, i, ch, StateAt(run, k, ch).queue[p].user.id)
    ensures var c, c', done := StateAt(run, k, ch), StateAt(run, n, ch), Completions(run, k, n, ch);
      var e := c.queue[p].Identity();
      && |c'.history| == |c.history| + done
      && ((exists q :: 0 <= q < |c'.queue| && q + done <= p && c'.queue[q].Identity() == e)
          || exists i :: |c.history| <= i < |c'.history| && i <= |c.history| + p && c'.history[i].Identity() == e)
      && (done >= p ==>
            || (c'.queue != [] && c'.queue[0].Identity() == e && c'.queue[0].startedAt != ZERO_TIME)
            || exists i :: |c.history| <= i < |c'.history| && c'.history[i].Identity() == e)
  {
    var c, c' := StateAt(run, k, ch), StateAt(run, n, ch);
    var g := |c.history| + p;
    assert Line(c)[g] == c.queue[p];
    var g' := TrackPlace(run, k, n, ch, g, c.queue[p].user.id);
    EveryRunIsDisciplined(run[..n], ch);
    if g' < |c'.history| {
      assert Line(c')[g'] == c'.history[g'];
    } else {
      assert Line(c')[g'] == c'.queue[g' - |c'.history|];
    }
  }
}
