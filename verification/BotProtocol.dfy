/** bot/bot.go on values: what one request does to the channels, which events it raises and how it is answered. */
module BotProtocol {
  import opened Text
  import opened Clock
  import opened Deploys
  import opened ChannelProtocol
  import Escape

  datatype Event =
    | DeployStarted(channelID: string, d: Deploy)
    | DeployCompleted(channelID: string, d: Deploy)
    | DeployAborted(channelID: string, d: Deploy)

  /**
   * A request with the readings of the clock made while serving it (now, then later) and the outcome of
   * IssueToken, should the bot ask for a token.
   */
  datatype Request = Request(
    isPost: bool,
    verified: bool,
    command: string,
    channelID: string,
    user: User,
    text: string,
    now: Time,
    later: Time,
    token: Option<string>)

  datatype Response =
    | OnlyPost
    | InvalidSignature
    | CommandNotSupported(command: string)
    | Help
    | NoRunningDeploys
    | DeployStatus(deploys: seq<Deploy>)
    | DeployDone(d: Deploy, next: Option<Deploy>)
    | DeployInterrupted(d: Deploy, actor: User, next: Option<Deploy>)
    | DeployWasAborted(reason: string, actor: User, next: Option<Deploy>)
    | UserLeftTheQueue
    | NotInTheQueue
    | HistoryLink(channelID: string, token: string)
    | HistoryError
    | DeployInProgress(current: Deploy)
    | UserIsInQueue(user: User)
    | DeployAnnouncement(d: Deploy)

  datatype Command =
    | HelpCommand
    | StatusCommand
    | DoneCommand
    | AbortCommand(reason: string)
    | HistoryCommand
    | StartCommand

  const ABORT_PREFIX := "abort "

  /** The switch of ServeHTTP over the trimmed text of the request. */
  function ParseCommand(text: string): Command {
    var subject := TrimSpace(text);
    if subject == "help" || subject == "" then HelpCommand
    else if subject == "status" then StatusCommand
    else if subject == "done" then DoneCommand
    else if subject == "abort" || ABORT_PREFIX <= subject then
      AbortCommand(if ABORT_PREFIX <= subject then subject[|ABORT_PREFIX|..] else "")
    else if subject == "history" then HistoryCommand
    else StartCommand
  }

  datatype World = World(channels: map<string, Channel>, events: seq<Event>) {
    function At(ch: string): Channel {
      if ch in channels then channels[ch] else EMPTY_CHANNEL
    }

    function With(ch: string, c: Channel): World {
      this.(channels := channels[ch := c])
    }

    function Raise(e: Event): World {
      this.(events := events + [e])
    }
  }

  const INITIAL_WORLD := World(map[], [])

  function Head(c: Channel): Option<Deploy> {
    if c.queue == [] then None else Some(c.queue[0])
  }

  /** The event after a completion: the next deploy has started, or the channel is free again. */
  function Handover(w: World, ch: string, drained: Event): World {
    match Head(w.At(ch))
    case Some(next) => w.Raise(DeployStarted(ch, next))
    case None => w.Raise(drained)
  }

  function Done(w: World, r: Request): (World, Response) {
    var (c, d) := Finish(w.At(r.channelID), r.now, r.later);
    match d
    case None => (w, NoRunningDeploys)
    case Some(d) =>
      (Handover(w.With(r.channelID, c), r.channelID, DeployCompleted(r.channelID, d)),
       if d.user.id == r.user.id then DeployDone(d, Head(c)) else DeployInterrupted(d, r.user, Head(c)))
  }

  function AbortOrLeave(w: World, r: Request, reason: string): (World, Response) {
    match Head(w.At(r.channelID))
    case None => (w, NoRunningDeploys)
    case Some(d) =>
      if d.user.id == r.user.id then
        var (c, a) := Abort(w.At(r.channelID), reason, r.now, r.later);
        (Handover(w.With(r.channelID, c), r.channelID, DeployAborted(r.channelID, a.value)),
         DeployWasAborted(reason, r.user, Head(c)))
      else
        var (c, left) := Leave(w.At(r.channelID), r.user.id);
        if left then (w.With(r.channelID, c), UserLeftTheQueue) else (w, NotInTheQueue)
  }

  function Announce(w: World, r: Request, d: Deploy): (World, Response) {
    var (c, result) := Start(w.At(r.channelID), d, r.now);
    match result
    case InProgress(current) => (w.With(r.channelID, c), DeployInProgress(current))
    case AlreadyInQueue(d) => (w, UserIsInQueue(d.user))
    case Started(d) => (w.With(r.channelID, c).Raise(DeployStarted(r.channelID, d)), DeployAnnouncement(d))
  }

  /** The deploy a request proposes, should it be a start command. */
  function Proposed(r: Request): Deploy {
    New(r.user, Escape.Escaped(TrimSpace(r.text)))
  }

  function Obey(w: World, r: Request, command: Command): (World, Response) {
    match command
    case HelpCommand => (w, Help)
    case StatusCommand =>
      (w, if w.At(r.channelID).queue == [] then NoRunningDeploys else DeployStatus(w.At(r.channelID).queue))
    case DoneCommand => Done(w, r)
    case AbortCommand(reason) => AbortOrLeave(w, r, reason)
    case HistoryCommand =>
      (w, if r.token.Some? then HistoryLink(r.channelID, r.token.value) else HistoryError)
    case StartCommand => Announce(w, r, Proposed(r))
  }

  function Serve(w: World, r: Request): (World, Response) {
    if !r.isPost then (w, OnlyPost)
    else if !r.verified then (w, InvalidSignature)
    else if r.command != "/deploy" then (w, CommandNotSupported(r.command))
    else Obey(w, r, ParseCommand(r.text))
  }

  /** The world after a run of requests, one served after the other. */
  function Run(w: World, run: seq<Request>): World {
    if run == [] then w else Serve(Run(w, run[..|run| - 1]), run[|run| - 1]).0
  }

  /** The clock never goes back, within a request or from one to the next. */
  ghost predicate Timely(run: seq<Request>) {
    && (forall i :: 0 <= i < |run| ==> ZERO_TIME < run[i].now <= run[i].later)
    && forall i, j :: 0 <= i < j < |run| ==> run[i].later <= run[j].now
  }

  /** The time when the run has been served. */
  function ClockAfter(run: seq<Request>): Time {
    if run == [] then ZERO_TIME else run[|run| - 1].later
  }

  /** What reaches the server: a command for the bot, or somebody looking at a history, perhaps since some time. */
  datatype Visit = Command(r: Request) | Look(ch: string, since: Option<Time>)

  /** The commands among the visits. */
  function Requests(visits: seq<Visit>): seq<Request> {
    if visits == [] then []
    else
      var v := visits[|visits| - 1];
      Requests(visits[..|visits| - 1]) + (if v.Command? then [v.r] else [])
  }
}
