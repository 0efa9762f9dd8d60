/**
 * bot/bot.go, command by command: what each text does to the channel and how it is answered. The text is what Slack
 * sends: words between gaps of white space.
 */
module Commands {
  import opened Text
  import opened Clock
  import opened CharClasses
  import opened References
  import opened Deploys
  import opened BotProtocol
  import P = ChannelProtocol
  import Escape

  // ---- the text of a command ----

  /** Nothing but white space. */
  predicate Blank(s: string) {
    forall i :: 0 <= i < |s| ==> s[i] in WHITE
  }

  /** A text that neither begins nor ends with white space. */
  predicate Trim(t: string) {
    t != "" ==> t[0] !in WHITE && t[|t| - 1] !in WHITE
  }

  lemma {:induction false} TrimLeftOf(before: string, t: string)
    requires Blank(before) && (t != "" ==> t[0] !in WHITE)
    ensures TrimLeft(before + t) == t
  {
    if before == "" {
      assert before + t == t;
      if t != "" {
        SpaceIsWhite(t[0]);
      }
    } else {
      SpaceIsWhite(before[0]);
      assert (before + t)[1..] == before[1..] + t;
      TrimLeftOf(before[1..], t);
    }
  }

  lemma {:induction false} TrimRightOf(t: string, behind: string)
    requires Blank(behind) && (t != "" ==> t[|t| - 1] !in WHITE)
    ensures TrimRight(t + behind) == t
  {
    var s := t + behind;
    if behind == "" {
      assert s == t;
      if t != "" {
        SpaceIsWhite(t[|t| - 1]);
      }
    } else {
      SpaceIsWhite(behind[|behind| - 1]);
      assert s[..|s| - 1] == t + behind[..|behind| - 1];
      TrimRightOf(t, behind[..|behind| - 1]);
    }
  }

  /** Trimming takes away exactly the white space on either side. */
  lemma TrimSpaceOf(text: string, before: string, t: string, behind: string)
    requires text == before + t + behind && Blank(before) && Blank(behind) && Trim(t)
    ensures TrimSpace(text) == t
  {
    if t == "" {
      assert text == (before + behind) + "";
      TrimLeftOf(before + behind, "");
    } else {
      assert text == before + (t + behind);
      TrimLeftOf(before, t + behind);
      TrimRightOf(t, behind);
    }
  }

  /** Every text is such a text between two gaps, so the laws below speak of every request. */
  lemma {:induction false} EveryTextHasParts(text: string) returns (before: string, t: string, behind: string)
    ensures text == before + t + behind && Blank(before) && Blank(behind) && Trim(t)
    decreases |text|
  {
    before, t, behind := "", text, "";
    if text != "" && text[0] in WHITE {
      before, t, behind := EveryTextHasParts(text[1..]);
      assert text == [text[0]] + text[1..];
      before := [text[0]] + before;
    } else if text != "" && text[|text| - 1] in WHITE {
      before, t, behind := EveryTextHasParts(text[..|text| - 1]);
      assert text == text[..|text| - 1] + [text[|text| - 1]];
      behind := behind + [text[|text| - 1]];
    }
  }

  /** A signed slash command with the text t, between gaps. */
  predicate Asks(r: Request, before: string, t: string, behind: string) {
    && r.isPost && r.verified && r.command == "/deploy"
    && r.text == before + t + behind && Blank(before) && Blank(behind) && Trim(t)
  }

  lemma CommandIsObeyed(w: World, r: Request, command: Command)
    requires r.isPost && r.verified && r.command == "/deploy" && ParseCommand(r.text) == command
    ensures Serve(w, r) == Obey(w, r, command)
  {
  }

  // ---- requests that are not commands ----

  lemma RefusedChangesNothing(w: World, r: Request)
    requires !r.isPost || !r.verified || r.command != "/deploy"
    ensures Serve(w, r) ==
      (w, if !r.isPost then OnlyPost else if !r.verified then InvalidSignature else CommandNotSupported(r.command))
  {
  }

  // ---- commands that only tell ----

  lemma HelpIsGiven(w: World, r: Request, before: string, t: string, behind: string)
    requires Asks(r, before, t, behind) && (t == "help" || t == "")
    ensures Serve(w, r) == (w, Help)
  {
    TrimSpaceOf(r.text, before, t, behind);
  }

  lemma StatusShowsTheQueue(w: World, r: Request, before: string, behind: string)
    requires Asks(r, before, "status", behind)
    ensures Serve(w, r) ==
      (w, if w.At(r.channelID).queue == [] then NoRunningDeploys else DeployStatus(w.At(r.channelID).queue))
  {
    TrimSpaceOf(r.text, before, "status", behind);
  }

  lemma HistoryGivesTheLink(w: World, r: Request, before: string, behind: string)
    requires Asks(r, before, "history", behind)
    ensures Serve(w, r) == (w, match r.token case Some(token) => HistoryLink(r.channelID, token) case None => HistoryError)
  {
    TrimSpaceOf(r.text, before, "history", behind);
  }

  // ---- completing the running deploy ----

  /** The queue once its head has left: the next deploy has been started, unless it had been before. */
  function NextUp(queue: seq<Deploy>, now: Time): seq<Deploy> {
    if |queue| <= 1 then []
    else [if queue[1].startedAt == 0 then queue[1].(startedAt := now) else queue[1]] + queue[2..]
  }

  /** The head has gone to the history as d and the next deploy runs; that is announced, or else that the queue drained. */
  ghost predicate HeadCompletes(w: World, r: Request, d: Deploy, drained: Event, w': World) {
    var ch := r.channelID;
    var next := NextUp(w.At(ch).queue, r.later);
    && w'.At(ch).history == w.At(ch).history + [d]
    && w'.At(ch).queue == next
    && (forall k :: k != ch ==> w'.At(k) == w.At(k))
    && w'.events == w.events + [if next != [] then DeployStarted(ch, next[0]) else drained]
  }

  function FirstOf(queue: seq<Deploy>): Option<Deploy> {
    if queue == [] then None else Some(queue[0])
  }

  lemma DoneCompletesTheHead(w: World, r: Request, before: string, behind: string)
    requires Asks(r, before, "done", behind)
    ensures var queue := w.At(r.channelID).queue; var (w', answer) := Serve(w, r);
      if queue == [] then w' == w && answer == NoRunningDeploys
      else
        var d := if queue[0].finishedAt == 0 then queue[0].(finishedAt := r.now) else queue[0];
        var next := FirstOf(NextUp(queue, r.later));
        && HeadCompletes(w, r, d, DeployCompleted(r.channelID, d), w')
        && answer == if queue[0].user.id == r.user.id then DeployDone(d, next) else DeployInterrupted(d, r.user, next)
  {
    TrimSpaceOf(r.text, before, "done", behind);
  }

  /** The text of an abort command with the reason, or without one. */
  function AbortText(reason: string): string {
    if reason == "" then "abort" else "abort " + reason
  }

  lemma AbortIsParsed(r: Request, before: string, reason: string, behind: string)
    requires Asks(r, before, AbortText(reason), behind)
    ensures ParseCommand(r.text) == AbortCommand(reason)
  {
    var t := AbortText(reason);
    TrimSpaceOf(r.text, before, t, behind);
    if reason != "" {
      assert t[5] == ' ' && t[6..] == reason;
    }
  }

  lemma OwnerAborts(w: World, r: Request, before: string, reason: string, behind: string)
    requires Asks(r, before, AbortText(reason), behind)
    requires var queue := w.At(r.channelID).queue; queue != [] && queue[0].user.id == r.user.id
    ensures var queue := w.At(r.channelID).queue; var (w', answer) := Serve(w, r);
      var d := if queue[0].finishedAt != 0 then queue[0]
               else queue[0].(finishedAt := r.now, aborted := true, abortReason := reason);
      && HeadCompletes(w, r, d, DeployAborted(r.channelID, d), w')
      && answer == DeployWasAborted(reason, r.user, FirstOf(NextUp(queue, r.later)))
  {
    AbortIsParsed(r, before, reason, behind);
    CommandIsObeyed(w, r, AbortCommand(reason));
    OwnerIsObeyed(w, r, reason);
  }

  lemma OwnerIsObeyed(w: World, r: Request, reason: string)
    requires var queue := w.At(r.channelID).queue; queue != [] && queue[0].user.id == r.user.id
    ensures var queue := w.At(r.channelID).queue; var (w', answer) := AbortOrLeave(w, r, reason);
      var d := if queue[0].finishedAt != 0 then queue[0]
               else queue[0].(finishedAt := r.now, aborted := true, abortReason := reason);
      && HeadCompletes(w, r, d, DeployAborted(r.channelID, d), w')
      && answer == DeployWasAborted(reason, r.user, FirstOf(NextUp(queue, r.later)))
  {
  }

  // ---- leaving the queue ----

  /** The deploys of all other users, in their order. */
  function OfOthers(queue: seq<Deploy>, id: string): seq<Deploy> {
    if queue == [] then []
    else
      var n := |queue| - 1;
      OfOthers(queue[..n], id) + (if queue[n].user.id == id then [] else [queue[n]])
  }

  lemma {:induction false} OfOthersBehind(d: Deploy, queue: seq<Deploy>, id: string)
    ensures OfOthers([d] + queue, id) == (if d.user.id == id then [] else [d]) + OfOthers(queue, id)
  {
    var s := [d] + queue;
    if queue == [] {
      assert s[..0] == [];
    } else {
      assert s[..|s| - 1] == [d] + queue[..|queue| - 1];
      OfOthersBehind(d, queue[..|queue| - 1], id);
    }
  }

  lemma {:induction false} WithoutUserLeavesOthers(queue: seq<Deploy>, id: string)
    ensures P.WithoutUser(queue, id) == OfOthers(queue, id)
  {
    if queue != [] {
      WithoutUserLeavesOthers(queue[1..], id);
      OfOthersBehind(queue[0], queue[1..], id);
      assert queue == [queue[0]] + queue[1..];
    }
  }

  /** From anybody but the owner of the running deploy, abort withdraws the deploys of that user, if there are any. */
  lemma OtherLeaves(w: World, r: Request, before: string, reason: string, behind: string)
    requires Asks(r, before, AbortText(reason), behind)
    requires var queue := w.At(r.channelID).queue; queue != [] ==> queue[0].user.id != r.user.id
    ensures var c := w.At(r.channelID); var (w', answer) := Serve(w, r);
      if c.queue == [] then w' == w && answer == NoRunningDeploys
      else if forall i :: 0 <= i < |c.queue| ==> c.queue[i].user.id != r.user.id then w' == w && answer == NotInTheQueue
      else
        && answer == UserLeftTheQueue && w'.events == w.events
        && w'.At(r.channelID) == c.(queue := OfOthers(c.queue, r.user.id))
        && forall k :: k != r.channelID ==> w'.At(k) == w.At(k)
  {
    AbortIsParsed(r, before, reason, behind);
    CommandIsObeyed(w, r, AbortCommand(reason));
    WithoutUserLeavesOthers(w.At(r.channelID).queue, r.user.id);
  }

  // ---- announcing a deploy ----

  /** None of the other commands. */
  predicate IsSubject(t: string) {
    && t != "" && t != "help" && t != "status" && t != "done" && t != "abort" && t != "history"
    && !("abort " <= t)
  }

  /** The deploy that a subject announces, before it is started: escaped, and with the references in the escaped text. */
  function Announced(user: User, t: string): Deploy {
    var subject := Escape.Escaped(t);
    Deploy(user, subject, 0, 0, false, "", PullRequestRefs(subject), UserRefs(subject))
  }

  lemma SubjectIsParsed(r: Request, before: string, t: string, behind: string)
    requires Asks(r, before, t, behind) && IsSubject(t)
    ensures ParseCommand(r.text) == StartCommand && Proposed(r) == Announced(r.user, t)
  {
    TrimSpaceOf(r.text, before, t, behind);
  }

  /** Refused if the user is in the queue already, and otherwise put at its end; a deploy that is first there starts. */
  ghost predicate Enlists(w: World, r: Request, d: Deploy, w': World, answer: Response) {
    var c := w.At(r.channelID);
    if exists i :: 0 <= i < |c.queue| && c.queue[i].user.id == r.user.id then w' == w && answer == UserIsInQueue(r.user)
    else
      var first := d.(startedAt := r.now);
      && w'.At(r.channelID) == c.(queue := c.queue + [if c.queue == [] then first else d])
      && answer == (if c.queue == [] then DeployAnnouncement(first) else DeployInProgress(c.queue[0]))
      && w'.events == w.events + (if c.queue == [] then [DeployStarted(r.channelID, first)] else [])
      && forall k :: k != r.channelID ==> w'.At(k) == w.At(k)
  }

  /** Any other text announces a deploy. */
  lemma SubjectAnnounces(w: World, r: Request, before: string, t: string, behind: string)
    requires Asks(r, before, t, behind) && IsSubject(t)
    ensures Enlists(w, r, Announced(r.user, t), Serve(w, r).0, Serve(w, r).1)
  {
    var d := Announced(r.user, t);
    SubjectIsParsed(r, before, t, behind);
    StartIsObeyed(w, r, d);
    AnnouncedIsEnlisted(w, r, d);
  }

  lemma StartIsObeyed(w: World, r: Request, d: Deploy)
    requires r.isPost && r.verified && r.command == "/deploy" && ParseCommand(r.text) == StartCommand && Proposed(r) == d
    ensures Serve(w, r) == Announce(w, r, d)
  {
    CommandIsObeyed(w, r, StartCommand);
  }

  lemma AnnouncedIsEnlisted(w: World, r: Request, d: Deploy)
    requires d.user == r.user && d.startedAt == 0
    ensures Enlists(w, r, d, Announce(w, r, d).0, Announce(w, r, d).1)
  {
    assert w.events + [] == w.events;
  }
}
