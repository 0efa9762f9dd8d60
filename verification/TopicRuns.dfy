/** The topic of a channel over whole runs of the bot, its events delivered in the order they are raised. */
module TopicRuns {
  import opened Text
  import opened Clock
  import opened Deploys
  import opened ChannelProtocol
  import opened BotProtocol
  import opened BotRuns
  import opened Topic

  /** What one event does to the topic. */
  function React(topic: string, e: Event): string {
    if e.DeployStarted? then Mark(topic) else Unmark(topic)
  }

  /** The topic once the events of its channel have been handled. */
  function TopicAfter(topic: string, events: seq<Event>): string {
    if events == [] then topic else React(TopicAfter(topic, events[..|events| - 1]), events[|events| - 1])
  }

  /** The topic of the channel at the end of a run that found it at `topic`. */
  function TopicOf(topic: string, run: seq<Request>, ch: string): string {
    TopicAfter(topic, EventsOf(Run(INITIAL_WORLD, run).events, ch))
  }

  /** One event handed to the topic manager. */
  method Handle(mgr: SlackTopicManager, e: Event)
    modifies mgr
    ensures mgr.topics.Keys == old(mgr.topics).Keys
    ensures forall ch :: ch in mgr.topics ==>
              mgr.topics[ch] == if ch == e.channelID then React(old(mgr.topics)[ch], e) else old(mgr.topics)[ch]
  {
    match e {
      case DeployStarted(ch, _) => mgr.DeployStarted(ch);
      case DeployCompleted(ch, _) => mgr.DeployCompleted(ch);
      case DeployAborted(ch, _) => mgr.DeployAborted(ch);
    }
  }

  /** Delivering the events one by one leaves each channel with the topic its own events give it. */
  method Deliver(mgr: SlackTopicManager, events: seq<Event>)
    modifies mgr
    ensures mgr.topics.Keys == old(mgr.topics).Keys
    ensures forall ch :: ch in mgr.topics ==> mgr.topics[ch] == TopicAfter(old(mgr.topics)[ch], EventsOf(events, ch))
  {
    ghost var before := mgr.topics;
    for i := 0 to |events|
      invariant mgr.topics.Keys == before.Keys
      invariant forall ch :: ch in mgr.topics ==> mgr.topics[ch] == TopicAfter(before[ch], EventsOf(events[..i], ch))
    {
      Handle(mgr, events[i]);
      forall ch | ch in mgr.topics
        ensures TopicAfter(before[ch], EventsOf(events[..i + 1], ch)) ==
                if ch == events[i].channelID then React(TopicAfter(before[ch], EventsOf(events[..i], ch)), events[i])
                else TopicAfter(before[ch], EventsOf(events[..i], ch))
      {
        TopicAfterNext(before[ch], events, i, ch);
      }
    }
    assert events[..|events|] == events;
  }

  lemma TopicAfterNext(topic: string, events: seq<Event>, i: nat, ch: string)
    requires i < |events|
    ensures var topic' := TopicAfter(topic, EventsOf(events[..i], ch));
      TopicAfter(topic, EventsOf(events[..i + 1], ch)) ==
      if ch == events[i].channelID then React(topic', events[i]) else topic'
  {
    assert events[..i + 1] == events[..i] + [events[i]];
    EventsOfAppend(events[..i], [events[i]], events[i].channelID, ch);
    TopicAfterAppend(topic, EventsOf(events[..i], ch), events[i]);
  }

  lemma TopicAfterAppend(topic: string, events: seq<Event>, e: Event)
    ensures TopicAfter(topic, events + [e]) == React(TopicAfter(topic, events), e)
  {
    assert (events + [e])[..|events|] == events;
  }

  /** The sign the topic should carry. */
  function Sign(topic: string, c: Channel): string {
    if c.queue == [] then topic else Mark(topic)
  }

  lemma MoveKeepsSign(topic: string, ch: string, c: Channel, m: Move, now: Time, later: Time, events: seq<Event>)
    requires Dependable(topic) && Allowed(c, m, now) && TopicAfter(topic, events) == Sign(topic, c)
    ensures var c' := Moved(c, m, now, later);
      TopicAfter(topic, events + Raised(ch, c, m, c')) == Sign(topic, c')
  {
    var c' := Moved(c, m, now, later);
    var more := Raised(ch, c, m, c');
    RestoredIff(topic);
    MarkTwiceIff(topic);
    if more == [] {
      assert events + more == events;
      if m.Withdraw? {
        LeaveKeepsHead(c.queue, m.id);
      }
    } else {
      TopicAfterAppend(topic, events, more[0]);
    }
  }

  /**
   * Over any run the topic of a channel that began with a dependable topic is that topic while no deploy runs,
   * and the marked topic while one does.
   */
  lemma {:induction false} TopicShowsState(topic: string, run: seq<Request>, ch: string)
    requires Dependable(topic) && Timely(run)
    ensures TopicOf(topic, run, ch) == Sign(topic, Run(INITIAL_WORLD, run).At(ch))
  {
    if run != [] {
      var n := |run| - 1;
      var w, r := Run(INITIAL_WORLD, run[..n]), run[n];
      TopicShowsState(topic, run[..n], ch);
      ReachableServeMoves(run[..n], r);
      StepKeepsSign(topic, w, r, MoveOf(w.At(r.channelID), r, Serve(w, r).1), Serve(w, r).0, ch);
    }
  }

  lemma StepKeepsSign(topic: string, w: World, r: Request, m: Move, w': World, ch: string)
    requires Moves(w, r, m, w') && Dependable(topic)
    requires TopicAfter(topic, EventsOf(w.events, ch)) == Sign(topic, w.At(ch))
    ensures TopicAfter(topic, EventsOf(w'.events, ch)) == Sign(topic, w'.At(ch))
  {
    var more := Raised(r.channelID, w.At(r.channelID), m, w'.At(r.channelID));
    EventsOfAppend(w.events, more, r.channelID, ch);
    if ch == r.channelID {
      MoveKeepsSign(topic, ch, w.At(ch), m, r.now, r.later, EventsOf(w.events, ch));
    }
  }

  /** So a topic with a done emoji tells the truth: it shows :no_entry: exactly while a deploy runs. */
  lemma SignTellsTheTruth(topic: string, run: seq<Request>, ch: string)
    requires NoOverlap(topic) && !Contains(topic, IN_PROGRESS) && Contains(topic, DONE) && Timely(run)
    ensures var running := Run(INITIAL_WORLD, run).At(ch).queue != [];
      && (Contains(TopicOf(topic, run, ch), IN_PROGRESS) <==> running)
      && (Contains(TopicOf(topic, run, ch), DONE) <==> !running)
      && (!running ==> TopicOf(topic, run, ch) == topic)
  {
    CleanTopicIsRestored(topic);
    MarkedShowsInProgress(topic);
    TopicShowsState(topic, run, ch);
  }

  // ---- dependable is exactly what a topic must be ----

  ghost predicate FollowsEveryRun(topic: string) {
    forall run, ch :: Timely(run) ==> TopicOf(topic, run, ch) == Sign(topic, Run(INITIAL_WORLD, run).At(ch))
  }

  function Ask(user: string, text: string): Request {
    Request(true, true, "/deploy", "C", User(user, ""), text, 1, 1, None)
  }

  const FIRST := Ask("U1", "x")
  const SECOND := Ask("U2", "x")
  const FINISH := Ask("U1", "done")

  lemma ParsesStart()
    ensures ParseCommand("x") == StartCommand
  {
  }

  lemma ParsesFinish()
    ensures ParseCommand("done") == DoneCommand
  {
  }

  lemma RunAppend(w: World, run: seq<Request>, r: Request)
    ensures Run(w, run + [r]) == Serve(Run(w, run), r).0
  {
    assert (run + [r])[..|run|] == run;
  }

  lemma ServesCommand(w: World, r: Request, command: Command)
    requires r.isPost && r.verified && r.command == "/deploy" && ParseCommand(r.text) == command
    ensures Serve(w, r) == Obey(w, r, command)
  {
  }

  lemma StartCommandServed(w: World, r: Request)
    requires r.isPost && r.verified && r.command == "/deploy" && ParseCommand(r.text) == StartCommand
    requires EventsOf(w.events, r.channelID) == w.events
    ensures Serve(w, r) == Announce(w, r, Proposed(r))
    ensures EventsOf(Serve(w, r).0.events, r.channelID) == Serve(w, r).0.events
  {
    ServesCommand(w, r, StartCommand);
    AnnounceStaysInChannel(w, r, Proposed(r));
  }

  lemma StartServed(w: World, user: string)
    requires EventsOf(w.events, "C") == w.events
    ensures var r := Ask(user, "x");
      Serve(w, r) == Announce(w, r, Proposed(r)) && EventsOf(Serve(w, r).0.events, "C") == Serve(w, r).0.events
  {
    ParsesStart();
    StartCommandServed(w, Ask(user, "x"));
  }

  lemma FinishServed(w: World)
    requires EventsOf(w.events, "C") == w.events
    ensures Serve(w, FINISH) == Done(w, FINISH) && EventsOf(Serve(w, FINISH).0.events, "C") == Serve(w, FINISH).0.events
  {
    ParsesFinish();
    ServesCommand(w, FINISH, DoneCommand);
    DoneStaysInChannel(w, FINISH);
  }

  lemma ProposedIsTheUsers(r: Request)
    ensures Proposed(r).user == r.user
  {
  }

  lemma DoneStaysInChannel(w: World, r: Request)
    requires EventsOf(w.events, r.channelID) == w.events
    ensures EventsOf(Done(w, r).0.events, r.channelID) == Done(w, r).0.events
  {
    var w' := Done(w, r).0;
    if w'.events != w.events {
      EventsOfAppend(w.events, [w'.events[|w.events|]], r.channelID, r.channelID);
    }
  }

  lemma AnnounceStaysInChannel(w: World, r: Request, d: Deploy)
    requires EventsOf(w.events, r.channelID) == w.events
    ensures EventsOf(Announce(w, r, d).0.events, r.channelID) == Announce(w, r, d).0.events
  {
    var w' := Announce(w, r, d).0;
    if w'.events != w.events {
      EventsOfAppend(w.events, [w'.events[|w.events|]], r.channelID, r.channelID);
    }
  }

  lemma FirstStarts()
    ensures var w := Announce(INITIAL_WORLD, FIRST, Proposed(FIRST)).0;
      |w.events| == 1 && w.events[0].DeployStarted? && |w.At("C").queue| == 1 && w.At("C").queue[0].user == Proposed(FIRST).user
  {
  }

  lemma LoneDeployIsDone(w: World)
    requires |w.At("C").queue| == 1 && |w.events| == 1 && w.events[0].DeployStarted?
    ensures var w' := Done(w, FINISH).0;
      |w'.events| == 2 && w'.events[0].DeployStarted? && !w'.events[1].DeployStarted? && w'.At("C").queue == []
  {
  }

  /** A lone deploy: its start and its completion are announced. */
  lemma OneDeploy()
    ensures var w := Run(INITIAL_WORLD, [FIRST]);
      EventsOf(w.events, "C") == w.events && |w.events| == 1 && w.events[0].DeployStarted?
      && |w.At("C").queue| == 1 && w.At("C").queue[0].user == FIRST.user
    ensures var w := Run(INITIAL_WORLD, [FIRST, FINISH]);
      EventsOf(w.events, "C") == w.events && |w.events| == 2 && w.events[0].DeployStarted? && !w.events[1].DeployStarted?
      && w.At("C").queue == []
  {
    RunAppend(INITIAL_WORLD, [], FIRST);
    assert [] + [FIRST] == [FIRST];
    StartServed(INITIAL_WORLD, "U1");
    ProposedIsTheUsers(FIRST);
    FirstStarts();
    RunAppend(INITIAL_WORLD, [FIRST], FINISH);
    assert [FIRST] + [FINISH] == [FIRST, FINISH];
    FinishServed(Run(INITIAL_WORLD, [FIRST]));
    LoneDeployIsDone(Run(INITIAL_WORLD, [FIRST]));
  }

  lemma OtherUserWaits(c: Channel, d: Deploy, now: Time)
    requires |c.queue| == 1 && c.queue[0].user.id != d.user.id
    ensures Start(c, d, now) == (c.(queue := c.queue + [d]), InProgress(c.queue[0]))
  {
  }

  lemma SecondWaits(w: World)
    requires EventsOf(w.events, "C") == w.events && |w.At("C").queue| == 1 && w.At("C").queue[0].user == FIRST.user
    ensures var w' := Serve(w, SECOND).0;
      w'.events == w.events && EventsOf(w'.events, "C") == w'.events && |w'.At("C").queue| == 2
  {
    StartServed(w, "U2");
    ProposedIsTheUsers(SECOND);
    var d := Proposed(SECOND);
    assert FIRST.user.id[1] != SECOND.user.id[1];
    OtherUserWaits(w.At("C"), d, SECOND.now);
    assert Announce(w, SECOND, d).0 == w.With("C", w.At("C").(queue := w.At("C").queue + [d]));
  }

  lemma SecondTakesOver(w: World)
    requires EventsOf(w.events, "C") == w.events && |w.At("C").queue| == 2
    ensures var w' := Serve(w, FINISH).0;
      && |w'.events| == |w.events| + 1 && w'.events[..|w.events|] == w.events && w'.events[|w.events|].DeployStarted?
      && EventsOf(w'.events, "C") == w'.events && w'.At("C").queue != []
  {
    FinishServed(w);
  }

  /** Two deploys in a row: the second one starts without the first one being announced as completed. */
  lemma TwoDeploys()
    ensures var w := Run(INITIAL_WORLD, [FIRST, SECOND, FINISH]);
      EventsOf(w.events, "C") == w.events && |w.events| == 2 && w.events[0].DeployStarted? && w.events[1].DeployStarted?
      && w.At("C").queue != []
  {
    OneDeploy();
    var w1 := Run(INITIAL_WORLD, [FIRST]);
    RunAppend(INITIAL_WORLD, [FIRST], SECOND);
    assert [FIRST] + [SECOND] == [FIRST, SECOND];
    SecondWaits(w1);
    RunAppend(INITIAL_WORLD, [FIRST, SECOND], FINISH);
    assert [FIRST, SECOND] + [FINISH] == [FIRST, SECOND, FINISH];
    SecondTakesOver(Run(INITIAL_WORLD, [FIRST, SECOND]));
  }

  lemma TopicAfterTwo(topic: string, a: Event, b: Event)
    ensures TopicAfter(topic, [a]) == React(topic, a)
    ensures TopicAfter(topic, [a, b]) == React(React(topic, a), b)
  {
    TopicAfterAppend(topic, [], a);
    TopicAfterAppend(topic, [a], b);
    assert [] + [a] == [a] && [a] + [b] == [a, b];
  }

  lemma OnlyDependableFollows(topic: string)
    requires FollowsEveryRun(topic)
    ensures Dependable(topic)
  {
    RestoredIff(topic);
    MarkTwiceIff(topic);
    AfterOneDeploy(topic);
    AfterTwoDeploys(topic);
  }

  /** A run that raises two events, both of channel "C". */
  lemma TwoEventsSign(topic: string, run: seq<Request>)
    requires FollowsEveryRun(topic) && Timely(run)
    requires var e := Run(INITIAL_WORLD, run).events; |e| == 2 && EventsOf(e, "C") == e
    ensures var w := Run(INITIAL_WORLD, run);
      React(React(topic, w.events[0]), w.events[1]) == Sign(topic, w.At("C"))
  {
    var e := Run(INITIAL_WORLD, run).events;
    assert e == [e[0], e[1]];
    TopicAfterTwo(topic, e[0], e[1]);
    assert TopicOf(topic, run, "C") == React(React(topic, e[0]), e[1]);
  }

  lemma AfterOneDeploy(topic: string)
    requires FollowsEveryRun(topic)
    ensures Unmark(Mark(topic)) == topic
  {
    OneDeploy();
    TwoEventsSign(topic, [FIRST, FINISH]);
  }

  lemma AfterTwoDeploys(topic: string)
    requires FollowsEveryRun(topic)
    ensures Mark(Mark(topic)) == Mark(topic)
  {
    TwoDeploys();
    TwoEventsSign(topic, [FIRST, SECOND, FINISH]);
  }

  /** The topic follows the state of the channel over every run exactly if it is dependable to begin with. */
  lemma DependableIff(topic: string)
    ensures FollowsEveryRun(topic) <==> Dependable(topic)
  {
    if Dependable(topic) {
      forall run, ch | Timely(run)
        ensures TopicOf(topic, run, ch) == Sign(topic, Run(INITIAL_WORLD, run).At(ch))
      {
        TopicShowsState(topic, run, ch);
      }
    } else if FollowsEveryRun(topic) {
      OnlyDependableFollows(topic);
    }
  }
}
