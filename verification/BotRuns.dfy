/** What holds in every world the bot can reach, whatever requests it serves. */
module BotRuns {
  import opened Clock
  import opened Deploys
  import opened ChannelProtocol
  import opened BotProtocol
  import opened HistoryQueries

  // ---- single steps ----

  /** What a request can do to its channel. */
  datatype Move =
    | Stay
    | Admit(d: Deploy)
    | Complete(d: Deploy)
    | Withdraw(id: string)

  /** The move behind an answer; c is the channel before the request. */
  function MoveOf(c: Channel, r: Request, answer: Response): Move {
    match answer
    case DeployAnnouncement(_) => Admit(Proposed(r))
    case DeployInProgress(_) => Admit(Proposed(r))
    case DeployDone(d, _) => Complete(d)
    case DeployInterrupted(d, _, _) => Complete(d)
    case DeployWasAborted(reason, _, _) =>
      if c.queue == [] then Stay
      else Complete(c.queue[0].(finishedAt := r.now, aborted := true, abortReason := reason))
    case UserLeftTheQueue => Withdraw(r.user.id)
    case _ => Stay
  }

  /** d is the running deploy, finished or aborted now and otherwise unchanged; only an aborted one has a reason. */
  ghost predicate CompletedFrom(head: Deploy, d: Deploy, now: Time) {
    && d == head.(finishedAt := now, aborted := d.aborted, abortReason := d.abortReason)
    && (d.aborted || d.abortReason == "")
  }

  /** The bot makes a move only when the channel allows it; in particular nobody withdraws the running deploy. */
  ghost predicate Allowed(c: Channel, m: Move, now: Time) {
    match m
    case Stay => true
    case Admit(d) => Fresh(d) && !UserInQueue(c.queue, d.user.id)
    case Complete(d) => c.queue != [] && CompletedFrom(c.queue[0], d, now)
    case Withdraw(id) => c.queue != [] && c.queue[0].user.id != id && UserInQueue(c.queue, id)
  }

  function Moved(c: Channel, m: Move, now: Time, later: Time): Channel {
    match m
    case Stay => c
    case Admit(d) => c.(queue := c.queue + [if c.queue == [] then d.Start(now) else d])
    case Complete(d) => Settled(c, d, later)
    case Withdraw(id) => c.(queue := WithoutUser(c.queue, id))
  }

  /** The events a move raises: one when a deploy starts, or else one when the queue drains. */
  function Raised(ch: string, c: Channel, m: Move, c': Channel): seq<Event> {
    match m
    case Admit(_) => if c.queue == [] && c'.queue != [] then [DeployStarted(ch, c'.queue[0])] else []
    case Complete(d) =>
      if c'.queue != [] then [DeployStarted(ch, c'.queue[0])]
      else if d.aborted then [DeployAborted(ch, d)]
      else [DeployCompleted(ch, d)]
    case _ => []
  }

  /** From w to w', the channel of r makes the move m and nothing else happens. */
  ghost predicate Moves(w: World, r: Request, m: Move, w': World) {
    var c, c' := w.At(r.channelID), w'.At(r.channelID);
    && Allowed(c, m, r.now)
    && c' == Moved(c, m, r.now, r.later)
    && w'.events == w.events + Raised(r.channelID, c, m, c')
    && forall ch :: ch != r.channelID ==> w'.At(ch) == w.At(ch)
  }

  lemma DoneMoves(w: World, r: Request)
    requires HeadRunsAlone(w.At(r.channelID).queue)
    ensures Moves(w, r, MoveOf(w.At(r.channelID), r, Done(w, r).1), Done(w, r).0)
  {
    var c := w.At(r.channelID);
    if c.queue == [] {
      assert w.events + [] == w.events;
    } else {
      assert c.queue[0].Finish(r.now) == c.queue[0].(finishedAt := r.now);
    }
  }

  lemma AbortMoves(w: World, r: Request, reason: string)
    requires HeadRunsAlone(w.At(r.channelID).queue)
    ensures Moves(w, r, MoveOf(w.At(r.channelID), r, AbortOrLeave(w, r, reason).1), AbortOrLeave(w, r, reason).0)
  {
    var c := w.At(r.channelID);
    assert w.events + [] == w.events;
    if c.queue != [] {
      assert c.queue[0].Abort(reason, r.now) == c.queue[0].(finishedAt := r.now, aborted := true, abortReason := reason);
    }
  }

  lemma AnnounceMoves(w: World, r: Request, d: Deploy)
    requires Fresh(d)
    ensures Moves(w, r, if Announce(w, r, d).1.UserIsInQueue? then Stay else Admit(d), Announce(w, r, d).0)
  {
    assert w.events + [] == w.events;
  }

  lemma ProposedIsFresh(r: Request)
    ensures Fresh(Proposed(r))
  {
  }

  lemma StayMoves(w: World, r: Request)
    ensures Moves(w, r, Stay, w)
  {
    assert w.events + [] == w.events;
  }

  lemma ObeyMoves(w: World, r: Request, command: Command)
    requires HeadRunsAlone(w.At(r.channelID).queue)
    ensures Moves(w, r, MoveOf(w.At(r.channelID), r, Obey(w, r, command).1), Obey(w, r, command).0)
  {
    match command {
      case DoneCommand => DoneMoves(w, r);
      case AbortCommand(reason) => AbortMoves(w, r, reason);
      case StartCommand =>
        ProposedIsFresh(r);
        AnnounceMoves(w, r, Proposed(r));
      case _ => StayMoves(w, r);
    }
  }

  lemma ServeMoves(w: World, r: Request)
    requires HeadRunsAlone(w.At(r.channelID).queue)
    ensures Moves(w, r, MoveOf(w.At(r.channelID), r, Serve(w, r).1), Serve(w, r).0)
  {
    if r.isPost && r.verified && r.command == "/deploy" {
      ObeyMoves(w, r, ParseCommand(r.text));
    } else {
      assert w.events + [] == w.events;
    }
  }

  lemma MoveKeepsDiscipline(c: Channel, m: Move, before: Time, now: Time, later: Time)
    requires Disciplined(c, before) && before <= now <= later && ZERO_TIME < now
    requires Allowed(c, m, now)
    ensures Disciplined(Moved(c, m, now, later), later)
  {
    match m {
      case Stay =>
      case Admit(d) => StartKeepsDiscipline(c, d, before, now);
      case Withdraw(id) => LeaveKeepsDiscipline(c, id, before);
      case Complete(d) =>
        CompletionKeepsDiscipline(c, d, before, now, later);
    }
  }

  lemma {:induction false} EveryRunIsDisciplined(run: seq<Request>, ch: string)
    requires Timely(run)
    ensures Disciplined(Run(INITIAL_WORLD, run).At(ch), ClockAfter(run))
  {
    if run == [] {
      InitiallyDisciplined(ZERO_TIME);
    } else {
      var n := |run| - 1;
      var w, r := Run(INITIAL_WORLD, run[..n]), run[n];
      EveryRunIsDisciplined(run[..n], ch);
      EveryRunIsDisciplined(run[..n], r.channelID);
      ServeMoves(w, r);
      if ch == r.channelID {
        MoveKeepsDiscipline(w.At(ch), MoveOf(w.At(ch), r, Serve(w, r).1), ClockAfter(run[..n]), r.now, r.later);
      }
    }
  }

  /** In every reachable world a request is one move of its channel. */
  lemma ReachableServeMoves(run: seq<Request>, r: Request)
    requires Timely(run)
    ensures var w := Run(INITIAL_WORLD, run); Moves(w, r, MoveOf(w.At(r.channelID), r, Serve(w, r).1), Serve(w, r).0)
  {
    EveryRunIsDisciplined(run, r.channelID);
    ServeMoves(Run(INITIAL_WORLD, run), r);
  }

  // ---- events ----

  function EventsOf(events: seq<Event>, ch: string): seq<Event> {
    if events == [] then []
    else
      var e := events[|events| - 1];
      EventsOf(events[..|events| - 1], ch) + (if e.channelID == ch then [e] else [])
  }

  /** The deploys announced as started, in the order of the announcements. */
  function Announced(events: seq<Event>): seq<Deploy> {
    if events == [] then []
    else
      var e := events[|events| - 1];
      Announced(events[..|events| - 1]) + (if e.DeployStarted? then [e.d] else [])
  }

  /** The last event of a channel tells what the channel does now. */
  ghost predicate LastEventFits(events: seq<Event>, c: Channel) {
    if events == [] then c == EMPTY_CHANNEL
    else
      match events[|events| - 1]
      case DeployStarted(_, d) => c.queue != [] && d == c.queue[0]
      case DeployCompleted(_, d) => c.queue == [] && c.history != [] && d == c.history[|c.history| - 1] && !d.aborted
      case DeployAborted(_, d) => c.queue == [] && c.history != [] && d == c.history[|c.history| - 1] && d.aborted
  }

  /** The deploys that ran or run, as they were when they started. */
  function Ran(c: Channel): seq<Deploy> {
    Runnings(c.history) + (if c.queue == [] then [] else [c.queue[0]])
  }

  lemma EventsOfAppend(events: seq<Event>, more: seq<Event>, owner: string, ch: string)
    requires |more| <= 1 && (more != [] ==> more[0].channelID == owner)
    ensures EventsOf(events + more, ch) == if ch == owner then EventsOf(events, ch) + more else EventsOf(events, ch)
  {
    if more == [] {
      assert events + more == events;
      assert EventsOf(events, ch) + more == EventsOf(events, ch);
    } else {
      assert (events + more)[..|events|] == events;
    }
  }

  lemma AnnouncedAppend(events: seq<Event>, e: Event)
    ensures Announced(events + [e]) == Announced(events) + (if e.DeployStarted? then [e.d] else [])
  {
    assert (events + [e])[..|events|] == events;
  }

  lemma MoveKeepsEventsAgreeing(events: seq<Event>, ch: string, c: Channel, m: Move, now: Time, later: Time)
    requires HeadRunsAlone(c.queue) && Allowed(c, m, now)
    requires Announced(events) == Ran(c) && LastEventFits(events, c)
    ensures var c' := Moved(c, m, now, later);
      var events' := events + Raised(ch, c, m, c');
      Announced(events') == Ran(c') && LastEventFits(events', c')
  {
    var c' := Moved(c, m, now, later);
    var more := Raised(ch, c, m, c');
    if more == [] {
      assert events + more == events;
    } else {
      AnnouncedAppend(events, more[0]);
    }
    if m.Complete? {
      assert Runnings(c'.history) == Runnings(c.history) + [c.queue[0]];
    }
  }

  /** The events of a channel tell its state: which deploys ran, in order, and what the channel does now. */
  ghost predicate EventsTell(w: World, ch: string) {
    && Announced(EventsOf(w.events, ch)) == Ran(w.At(ch))
    && LastEventFits(EventsOf(w.events, ch), w.At(ch))
  }

  lemma StepKeepsEventsTelling(w: World, r: Request, m: Move, w': World, ch: string)
    requires Moves(w, r, m, w') && HeadRunsAlone(w.At(ch).queue) && EventsTell(w, ch)
    ensures EventsTell(w', ch)
  {
    var evs, more := EventsOf(w.events, ch), Raised(r.channelID, w.At(r.channelID), m, w'.At(r.channelID));
    EventsOfAppend(w.events, more, r.channelID, ch);
    if ch == r.channelID {
      MoveKeepsEventsAgreeing(evs, ch, w.At(ch), m, r.now, r.later);
      assert EventsOf(w'.events, ch) == evs + more;
    } else {
      assert EventsOf(w'.events, ch) == evs && w'.At(ch) == w.At(ch);
    }
  }

  /**
   * Over any run, the deploys announced in a channel are exactly, in order, those in its history and the one
   * running; and the last event tells what the channel does now.
   */
  lemma {:induction false} EventsTellTheState(run: seq<Request>, ch: string)
    requires Timely(run)
    ensures EventsTell(Run(INITIAL_WORLD, run), ch)
  {
    if run != [] {
      var n := |run| - 1;
      var w, r := Run(INITIAL_WORLD, run[..n]), run[n];
      EventsTellTheState(run[..n], ch);
      EveryRunIsDisciplined(run[..n], ch);
      ReachableServeMoves(run[..n], r);
      StepKeepsEventsTelling(w, r, MoveOf(w.At(r.channelID), r, Serve(w, r).1), Serve(w, r).0, ch);
    }
  }

  /** One DeployStarted per deploy that ran or runs; and the last event is one exactly when a deploy runs. */
  lemma StartedEventsCountDeploys(run: seq<Request>, ch: string)
    requires Timely(run)
    ensures var w := Run(INITIAL_WORLD, run);
      var c, evs := w.At(ch), EventsOf(w.events, ch);
      && |Announced(evs)| == |c.history| + (if c.queue == [] then 0 else 1)
      && (c.queue != [] <==> evs != [] && evs[|evs| - 1].DeployStarted?)
      && (c.queue != [] ==> evs[|evs| - 1].d == c.queue[0])
  {
    EventsTellTheState(run, ch);
  }

  /** From w to w' the channel of r drains: a deploy was running and now none is. */
  predicate Drains(w: World, r: Request, w': World) {
    w.At(r.channelID).queue != [] && w'.At(r.channelID).queue == []
  }

  lemma MoveRaisesDrain(w: World, r: Request, m: Move, w': World)
    requires Moves(w, r, m, w')
    ensures Drains(w, r, w') <==> exists e: Event :: w'.events == w.events + [e] && !e.DeployStarted?
  {
    var c := w.At(r.channelID);
    if m.Withdraw? {
      LeaveKeepsHead(c.queue, m.id);
    }
    if Drains(w, r, w') {
      var e := Raised(r.channelID, c, m, w'.At(r.channelID))[0];
      assert w'.events == w.events + [e] && !e.DeployStarted?;
    }
    forall e: Event | w'.events == w.events + [e] && !e.DeployStarted?
      ensures Drains(w, r, w')
    {
      assert w'.events[|w.events|] == e;
    }
  }

  /** DeployCompleted or DeployAborted is raised by exactly those requests that drain the queue. */
  lemma DrainEventsExactly(run: seq<Request>, r: Request)
    requires Timely(run)
    ensures var w := Run(INITIAL_WORLD, run); var w' := Serve(w, r).0;
      Drains(w, r, w') <==> exists e: Event :: w'.events == w.events + [e] && !e.DeployStarted?
  {
    var w := Run(INITIAL_WORLD, run);
    ReachableServeMoves(run, r);
    MoveRaisesDrain(w, r, MoveOf(w.At(r.channelID), r, Serve(w, r).1), Serve(w, r).0);
  }

  lemma LeaveKeepsHead(queue: seq<Deploy>, id: string)
    requires queue != [] && queue[0].user.id != id
    ensures WithoutUser(queue, id) != [] && WithoutUser(queue, id)[0] == queue[0]
  {
  }

  // ---- conservation ----

  /** The ledger without the last deploy of the user. */
  function StrikeLast(ledger: seq<Deploy>, id: string): seq<Deploy> {
    if ledger == [] then []
    else
      var n := |ledger| - 1;
      if ledger[n].user.id == id then ledger[..n] else StrikeLast(ledger[..n], id) + [ledger[n]]
  }

  /** Bookkeeping from the outside, by what was asked and answered: admitted deploys are added, withdrawn ones struck out. */
  function Book(ledger: seq<Deploy>, r: Request, answer: Response): seq<Deploy> {
    match answer
    case DeployAnnouncement(_) => ledger + [Proposed(r)]
    case DeployInProgress(_) => ledger + [Proposed(r)]
    case UserLeftTheQueue => StrikeLast(ledger, r.user.id)
    case _ => ledger
  }

  /** The book kept on channel ch over a run; it never looks at a queue or a history. */
  function Ledger(run: seq<Request>, ch: string): seq<Deploy> {
    if run == [] then []
    else
      var n := |run| - 1;
      var ledger := Ledger(run[..n], ch);
      if run[n].channelID != ch then ledger
      else Book(ledger, run[n], Serve(Run(INITIAL_WORLD, run[..n]), run[n]).1)
  }

  lemma {:induction false} StrikeLastAt(a: seq<Deploy>, d: Deploy, b: seq<Deploy>)
    requires forall i :: 0 <= i < |b| ==> b[i].user.id != d.user.id
    ensures StrikeLast(a + [d] + b, d.user.id) == a + b
  {
    var s := a + [d] + b;
    var n := |s| - 1;
    if b == [] {
      assert s[..n] == a;
    } else {
      assert s[..n] == a + [d] + b[..|b| - 1];
      StrikeLastAt(a, d, b[..|b| - 1]);
      assert b[..|b| - 1] + [s[n]] == b;
    }
  }

  lemma IdentitiesAppend(a: seq<Deploy>, b: seq<Deploy>)
    ensures Identities(a + b) == Identities(a) + Identities(b)
  {
  }

  lemma LeaveStrikes(history: seq<Deploy>, a: seq<Deploy>, d: Deploy, b: seq<Deploy>)
    requires forall i :: 0 <= i < |b| ==> b[i].user.id != d.user.id
    ensures StrikeLast(Identities(history + (a + [d] + b)), d.user.id) == Identities(history + (a + b))
  {
    assert history + (a + [d] + b) == history + a + [d] + b;
    assert history + (a + b) == history + a + b;
    IdentitiesAppend(history + a, [d]);
    assert Identities([d]) == [d.Identity()];
    IdentitiesAppend(history + a + [d], b);
    IdentitiesAppend(history + a, b);
    StrikeLastAt(Identities(history + a), d.Identity(), Identities(b));
  }

  lemma SplitAt(queue: seq<Deploy>, k: nat)
    requires k < |queue|
    ensures queue == queue[..k] + [queue[k]] + queue[k + 1..]
  {
  }

  lemma WithdrawalStrikes(history: seq<Deploy>, queue: seq<Deploy>, id: string)
    requires DistinctUsers(queue) && UserInQueue(queue, id)
    ensures StrikeLast(Identities(history + queue), id) == Identities(history + WithoutUser(queue, id))
  {
    var k: nat :| k < |queue| && queue[k].user.id == id;
    WithoutUserAt(queue, k);
    SplitAt(queue, k);
    LeaveStrikes(history, queue[..k], queue[k], queue[k + 1..]);
  }

  lemma AdmissionBooks(history: seq<Deploy>, queue: seq<Deploy>, d: Deploy, d': Deploy)
    requires Fresh(d) && d'.Identity() == d
    ensures Identities(history + (queue + [d'])) == Identities(history + queue) + [d]
  {
    assert history + (queue + [d']) == (history + queue) + [d'];
    IdentitiesAppend(history + queue, [d']);
    assert Identities([d']) == [d];
  }

  lemma CompletionConserves(history: seq<Deploy>, queue: seq<Deploy>, d: Deploy, startAt: Time)
    requires queue != [] && d.Identity() == queue[0].Identity()
    ensures Identities((history + [d]) + Advanced(queue[1..], startAt)) == Identities(history + queue)
  {
  }

  lemma MoveBooks(c: Channel, r: Request, answer: Response, c': Channel)
    requires DistinctUsers(c.queue)
    requires Allowed(c, MoveOf(c, r, answer), r.now) && c' == Moved(c, MoveOf(c, r, answer), r.now, r.later)
    ensures Identities(c'.history + c'.queue) == Book(Identities(c.history + c.queue), r, answer)
  {
    match MoveOf(c, r, answer) {
      case Stay =>
      case Admit(d) =>
        AdmissionBooks(c.history, c.queue, d, c'.queue[|c.queue|]);
      case Complete(d) => CompletionConserves(c.history, c.queue, d, r.later);
      case Withdraw(id) =>
        WithdrawalStrikes(c.history, c.queue, id);
    }
  }

  /**
   * First in, first out, and nothing lost: the deploys admitted to a channel and not withdrawn are, in order,
   * its history followed by its queue.
   */
  lemma {:induction false} Conservation(run: seq<Request>, ch: string)
    requires Timely(run)
    ensures var c := Run(INITIAL_WORLD, run).At(ch); Identities(c.history + c.queue) == Ledger(run, ch)
  {
    if run != [] {
      var n := |run| - 1;
      var w := Run(INITIAL_WORLD, run[..n]);
      Conservation(run[..n], ch);
      ReachableServeMoves(run[..n], run[n]);
      if run[n].channelID == ch {
        EveryRunIsDisciplined(run[..n], ch);
        MoveBooks(w.At(ch), run[n], Serve(w, run[n]).1, Serve(w, run[n]).0.At(ch));
      }
    }
  }

  // ---- what the history records ----

  /** How a deploy ended: aborted for a reason or not, and when. */
  datatype Outcome = Outcome(aborted: bool, reason: string, at: Time)

  function OutcomeOf(d: Deploy): Outcome { Outcome(d.aborted, d.abortReason, d.finishedAt) }

  /** The outcome an answer tells of, if it tells of a deploy that ended. */
  function Told(r: Request, answer: Response): seq<Outcome> {
    match answer
    case DeployDone(_, _) => [Outcome(false, "", r.now)]
    case DeployInterrupted(_, _, _) => [Outcome(false, "", r.now)]
    case DeployWasAborted(reason, _, _) => [Outcome(true, reason, r.now)]
    case _ => []
  }

  /** The outcomes told of channel ch over a run; this never looks at a history. */
  function Outcomes(run: seq<Request>, ch: string): seq<Outcome> {
    if run == [] then []
    else
      var n := |run| - 1;
      Outcomes(run[..n], ch) +
      (if run[n].channelID == ch then Told(run[n], Serve(Run(INITIAL_WORLD, run[..n]), run[n]).1) else [])
  }

  ghost predicate Records(history: seq<Deploy>, outcomes: seq<Outcome>) {
    |history| == |outcomes| && forall i :: 0 <= i < |history| ==> OutcomeOf(history[i]) == outcomes[i]
  }

  /** An answer that tells of a deploy that ended tells of the one that was running. */
  ghost predicate TellsOfHead(c: Channel, r: Request, answer: Response) {
    match answer
    case DeployDone(d, _) => c.queue != [] && d == c.queue[0].(finishedAt := r.now)
    case DeployInterrupted(d, _, _) => c.queue != [] && d == c.queue[0].(finishedAt := r.now)
    case DeployWasAborted(_, _, _) => c.queue != []
    case _ => true
  }

  lemma ObeyTellsOfHead(w: World, r: Request, command: Command)
    requires HeadRunsAlone(w.At(r.channelID).queue)
    ensures TellsOfHead(w.At(r.channelID), r, Obey(w, r, command).1)
  {
    match command {
      case DoneCommand => DoneMoves(w, r);
      case _ =>
    }
  }

  lemma ServeTellsOfHead(w: World, r: Request)
    requires HeadRunsAlone(w.At(r.channelID).queue)
    ensures TellsOfHead(w.At(r.channelID), r, Serve(w, r).1)
  {
    ObeyTellsOfHead(w, r, ParseCommand(r.text));
  }

  lemma MoveIsRecorded(c: Channel, r: Request, answer: Response, outcomes: seq<Outcome>)
    requires HeadRunsAlone(c.queue) && Records(c.history, outcomes) && TellsOfHead(c, r, answer)
    ensures Records(Moved(c, MoveOf(c, r, answer), r.now, r.later).history, outcomes + Told(r, answer))
  {
    assert outcomes + [] == outcomes;
  }

  /** Over any run, the history has the deploys that ended, each with the reason and the time it was answered with. */
  lemma {:induction false} HistoryRecordsOutcomes(run: seq<Request>, ch: string)
    requires Timely(run)
    ensures Records(Run(INITIAL_WORLD, run).At(ch).history, Outcomes(run, ch))
  {
    if run != [] {
      var n := |run| - 1;
      var w, r := Run(INITIAL_WORLD, run[..n]), run[n];
      HistoryRecordsOutcomes(run[..n], ch);
      ReachableServeMoves(run[..n], r);
      if r.channelID == ch {
        EveryRunIsDisciplined(run[..n], ch);
        ServeTellsOfHead(w, r);
        MoveIsRecorded(w.At(ch), r, Serve(w, r).1, Outcomes(run[..n], ch));
      }
    }
  }

  // ---- history queries ----

  /**
   * On every reachable history the backward scan of the in-memory store finds exactly the deploys that did not
   * start before t, and Bolt's answer drops from it exactly those that started at t.
   */
  lemma SinceOnReachableHistory(run: seq<Request>, ch: string, t: Time)
    requires Timely(run)
    ensures SinceAgrees(Run(INITIAL_WORLD, run).At(ch).history, t)
  {
    EveryRunIsDisciplined(run, ch);
    SinceOnChronological(Run(INITIAL_WORLD, run).At(ch).history, t);
  }
}
