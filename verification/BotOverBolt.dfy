/** bot/bot.go over the Bolt store, and what a run over Bolt has in common with the same run in memory. */
module BotOverBolt {
  import opened Text
  import opened Clock
  import opened Deploys
  import opened ByteKeys
  import opened HistoryQueries
  import opened BotProtocol
  import opened BotRuns
  import opened BoltStore
  import P = ChannelProtocol

  /** What a request leaves behind: nothing is ever stored for the blank channel, although its events are raised. */
  function Stored(w: World, r: Request): World {
    if r.channelID == "" then w.(events := Serve(w, r).0.events) else Serve(w, r).0
  }

  function StoredRun(w: World, run: seq<Request>): World {
    if run == [] then w else Stored(StoredRun(w, run[..|run| - 1]), run[|run| - 1])
  }

  class Bot {
    const deploys: ChannelDeploys
    /** The events raised so far; every handler is sent them in this order. */
    var events: seq<Event>

    ghost predicate Valid()
      reads this, deploys.store
    {
      deploys.store.Valid()
    }

    /** The store holds the world w. */
    ghost predicate Holds(w: World)
      reads this, deploys.store
    {
      events == w.events && forall ch :: deploys.View(ch) == w.At(ch)
    }

    /** The histories can take n more deploys each. */
    ghost predicate RoomFor(n: nat)
      reads this, deploys.store
    {
      forall ch :: |deploys.View(ch).history| + n < UINT64_LIMIT
    }

    constructor (deploys: ChannelDeploys)
      requires deploys.store.Valid() && deploys.store.buckets == map[]
      ensures Valid() && this.deploys == deploys && Holds(INITIAL_WORLD)
    {
      this.deploys := deploys;
      events := [];
    }

    method ServeHTTP(r: Request, ghost w: World) returns (answer: Response)
      requires Valid() && Holds(w) && RoomFor(1)
      modifies this, deploys.store
      ensures Valid() && Holds(Stored(w, r)) && answer == Serve(w, r).1
    {
      if !r.isPost {
        return OnlyPost;
      }
      if !r.verified {
        return InvalidSignature;
      }
      if r.command != "/deploy" {
        return CommandNotSupported(r.command);
      }
      match ParseCommand(r.text) {
        case HelpCommand => answer := Help;
        case StatusCommand =>
          var queue := deploys.All(r.channelID);
          answer := if queue == [] then NoRunningDeploys else DeployStatus(queue);
        case DoneCommand => answer := ServeDone(r, w);
        case AbortCommand(reason) => answer := ServeAbort(r, reason, w);
        case HistoryCommand =>
          answer := if r.token.Some? then HistoryLink(r.channelID, r.token.value) else HistoryError;
        case StartCommand => answer := ServeStart(r, w);
      }
    }

    /** Raises the event that follows a completion. */
    method RaiseHandover(ch: string, drained: Event, ghost w: World) returns (next: Option<Deploy>)
      requires Holds(w)
      modifies this`events
      ensures Holds(Handover(w, ch, drained)) && next == Head(w.At(ch))
    {
      next := deploys.Current(ch);
      events := events + [if next.Some? then DeployStarted(ch, next.value) else drained];
    }

    method ServeDone(r: Request, ghost w: World) returns (answer: Response)
      requires Valid() && Holds(w) && RoomFor(1)
      modifies this, deploys.store
      ensures Valid() && Holds(Done(w, r).0) && answer == Done(w, r).1
    {
      var d := deploys.Finish(r.channelID, r.now, r.later);
      if d == None {
        return NoRunningDeploys;
      }
      ghost var w' := w.With(r.channelID, P.Finish(w.At(r.channelID), r.now, r.later).0);
      var next := RaiseHandover(r.channelID, DeployCompleted(r.channelID, d.value), w');
      answer := if d.value.user.id == r.user.id then DeployDone(d.value, next)
                else DeployInterrupted(d.value, r.user, next);
    }

    method ServeAbort(r: Request, reason: string, ghost w: World) returns (answer: Response)
      requires Valid() && Holds(w) && RoomFor(1)
      modifies this, deploys.store
      ensures Valid() && Holds(AbortOrLeave(w, r, reason).0) && answer == AbortOrLeave(w, r, reason).1
    {
      var current := deploys.Current(r.channelID);
      if current == None {
        return NoRunningDeploys;
      }
      if current.value.user.id != r.user.id {
        var left := deploys.LeaveQueue(r.channelID, r.user);
        return if left then UserLeftTheQueue else NotInTheQueue;
      }
      var d := deploys.Abort(r.channelID, reason, r.now, r.later);
      ghost var w' := w.With(r.channelID, P.Abort(w.At(r.channelID), reason, r.now, r.later).0);
      var next := RaiseHandover(r.channelID, DeployAborted(r.channelID, d.value), w');
      answer := DeployWasAborted(reason, r.user, next);
    }

    method ServeStart(r: Request, ghost w: World) returns (answer: Response)
      requires Valid() && Holds(w)
      modifies this, deploys.store
      ensures Valid() && answer == Announce(w, r, Proposed(r)).1
      ensures events == Announce(w, r, Proposed(r)).0.events
      ensures forall ch :: deploys.View(ch) ==
                if r.channelID == "" then w.At(ch) else Announce(w, r, Proposed(r)).0.At(ch)
    {
      var result := deploys.Start(r.channelID, Proposed(r), r.now);
      match result {
        case InProgress(current) => answer := DeployInProgress(current);
        case AlreadyInQueue(d) => answer := UserIsInQueue(d.user);
        case Started(d) =>
          events := events + [DeployStarted(r.channelID, d)];
          answer := DeployAnnouncement(d);
      }
    }

    /** Serves a run of requests: the store ends up holding what the protocol leads to. */
    method ServeAll(run: seq<Request>, ghost w: World)
      requires Valid() && Holds(w) && RoomFor(|run|)
      modifies this, deploys.store
      ensures Valid() && Holds(StoredRun(w, run))
    {
      for i := 0 to |run|
        invariant Valid() && Holds(StoredRun(w, run[..i])) && RoomFor(|run| - i)
      {
        ghost var w' := StoredRun(w, run[..i]);
        assert run[..i + 1][..i] == run[..i];
        HistoriesGrowByOne(w', run[i]);
        var _ := ServeHTTP(run[i], w');
      }
      assert run[..|run|] == run;
    }
  }

  lemma HistoriesGrowByOne(w: World, r: Request)
    ensures forall ch :: |Stored(w, r).At(ch).history| <= |w.At(ch).history| + 1
  {
    ObeyGrows(w, r, ParseCommand(r.text));
  }

  lemma ObeyGrows(w: World, r: Request, command: Command)
    ensures forall ch :: |Obey(w, r, command).0.At(ch).history| <= |w.At(ch).history| + 1
  {
  }

  // ---- the same run over the other store ----

  /** The two worlds show the same channel, and the same events of it. */
  ghost predicate SameChannel(a: World, b: World, ch: string) {
    a.At(ch) == b.At(ch) && EventsOf(a.events, ch) == EventsOf(b.events, ch)
  }

  /** What is answered depends on the channel of the request alone. */
  lemma AnswerIsLocal(a: World, b: World, r: Request)
    requires a.At(r.channelID) == b.At(r.channelID)
    ensures Serve(a, r).1 == Serve(b, r).1
  {
    ObeyAnswerIsLocal(a, b, r, ParseCommand(r.text));
  }

  lemma ObeyAnswerIsLocal(a: World, b: World, r: Request, command: Command)
    requires a.At(r.channelID) == b.At(r.channelID)
    ensures Obey(a, r, command).1 == Obey(b, r, command).1
  {
    match command {
      case StartCommand => AnnounceAnswerIsLocal(a, b, r, Proposed(r));
      case _ =>
    }
  }

  lemma AnnounceAnswerIsLocal(a: World, b: World, r: Request, d: Deploy)
    requires a.At(r.channelID) == b.At(r.channelID)
    ensures Announce(a, r, d).1 == Announce(b, r, d).1
  {
  }

  /** The move of a request, as one channel sees it. */
  lemma MoveSeen(w: World, r: Request, m: Move, w': World, ch: string)
    requires Moves(w, r, m, w')
    ensures var c := w.At(ch);
      if ch != r.channelID then SameChannel(w, w', ch)
      else && w'.At(ch) == Moved(c, m, r.now, r.later)
           && EventsOf(w'.events, ch) == EventsOf(w.events, ch) + Raised(ch, c, m, Moved(c, m, r.now, r.later))
  {
    EventsOfAppend(w.events, Raised(r.channelID, w.At(r.channelID), m, w'.At(r.channelID)), r.channelID, ch);
  }

  lemma SameStep(a: World, b: World, r: Request, ch: string)
    requires ch != "" && SameChannel(a, b, ch)
    requires P.HeadRunsAlone(a.At(r.channelID).queue) && P.HeadRunsAlone(b.At(r.channelID).queue)
    ensures SameChannel(Stored(a, r), Serve(b, r).0, ch)
  {
    ServeMoves(a, r);
    ServeMoves(b, r);
    MoveSeen(a, r, MoveOf(a.At(r.channelID), r, Serve(a, r).1), Serve(a, r).0, ch);
    MoveSeen(b, r, MoveOf(b.At(r.channelID), r, Serve(b, r).1), Serve(b, r).0, ch);
    if ch == r.channelID {
      AnswerIsLocal(a, b, r);
    }
  }

  lemma {:induction false} NothingIsStoredForBlank(run: seq<Request>)
    ensures StoredRun(INITIAL_WORLD, run).At("") == P.EMPTY_CHANNEL
  {
    if run != [] {
      var w, r := StoredRun(INITIAL_WORLD, run[..|run| - 1]), run[|run| - 1];
      NothingIsStoredForBlank(run[..|run| - 1]);
      if r.channelID != "" {
        OtherChannelsStay(w, r, "");
      }
    }
  }

  lemma OtherChannelsStay(w: World, r: Request, ch: string)
    requires ch != r.channelID
    ensures Serve(w, r).0.At(ch) == w.At(ch)
  {
  }

  /** Over both stores a run leads to the same channels and the same events of them, but for the blank channel. */
  lemma {:induction false} StoresAgree(run: seq<Request>, ch: string)
    requires Timely(run) && ch != ""
    ensures SameChannel(StoredRun(INITIAL_WORLD, run), Run(INITIAL_WORLD, run), ch)
    decreases |run|, 0
  {
    if run != [] {
      var n := |run| - 1;
      var r := run[n];
      StoresAgree(run[..n], ch);
      HeadsRunAlone(run[..n], r.channelID);
      SameStep(StoredRun(INITIAL_WORLD, run[..n]), Run(INITIAL_WORLD, run[..n]), r, ch);
    }
  }

  lemma {:induction false} HeadsRunAlone(run: seq<Request>, ch: string)
    requires Timely(run)
    ensures P.HeadRunsAlone(StoredRun(INITIAL_WORLD, run).At(ch).queue)
    ensures P.HeadRunsAlone(Run(INITIAL_WORLD, run).At(ch).queue)
    decreases |run|, 1
  {
    EveryRunIsDisciplined(run, ch);
    if ch == "" {
      NothingIsStoredForBlank(run);
    } else {
      StoresAgree(run, ch);
    }
  }

  /** So, but for the blank channel, the bot answers the same whichever store it has. */
  lemma AnswersAgree(run: seq<Request>, r: Request)
    requires Timely(run) && r.channelID != ""
    ensures Serve(StoredRun(INITIAL_WORLD, run), r).1 == Serve(Run(INITIAL_WORLD, run), r).1
  {
    StoresAgree(run, r.channelID);
    AnswerIsLocal(StoredRun(INITIAL_WORLD, run), Run(INITIAL_WORLD, run), r);
  }

  /**
   * After one and the same run, what InMemoryStore.Since answers is the deploys that started at that very time
   * followed by what BoltDBStore.Since answers.
   */
  lemma SinceOverBothStores(run: seq<Request>, ch: string, t: Time)
    requires Timely(run) && ch != ""
    ensures var inMemory, overBolt := Run(INITIAL_WORLD, run).At(ch).history, StoredRun(INITIAL_WORLD, run).At(ch).history;
      SuffixSince(inMemory, t) == At(overBolt, t) + After(overBolt, t)
  {
    StoresAgree(run, ch);
    SinceOnReachableHistory(run, ch, t);
  }
}
