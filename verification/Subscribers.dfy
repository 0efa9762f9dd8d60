/** From the text of a command to the subscribers of a deploy: whoever is mentioned, over every run of the bot. */
module Subscribers {
  import opened Text
  import opened Deploys
  import opened References
  import opened BotProtocol
  import opened BotRuns
  import ReferenceLaws
  import PullRequestLaws

  // ---- trimming a text takes no word from it ----

  lemma {:induction false} WordsTrimLeft(s: string)
    ensures Words(TrimLeft(s)) == Words(s)
  {
    if s != "" && IsSpace(s[0]) {
      WordsTrimLeft(s[1..]);
    }
  }

  lemma WordFirstThen(s: string, n: nat)
    requires s != "" && !IsSpace(s[0]) && n == Span(s, IsWordChar)
    ensures 0 < n && Words(s) == [s[..n]] + Words(s[n..])
  {
  }

  lemma SpaceFirstThen(s: string)
    requires s != "" && IsSpace(s[0])
    ensures Words(s) == Words(s[1..])
  {
  }

  lemma SameSpan(s: string, n: nat)
    requires |s| > 1 && !IsSpace(s[0]) && IsSpace(s[|s| - 1]) && n == Span(s, IsWordChar)
    ensures var t := s[..|s| - 1];
      0 < n < |s| && n == Span(t, IsWordChar) && !IsSpace(t[0]) && t[..n] == s[..n] && t[n..] == s[n..][..|s| - 1 - n]
  {
    ReferenceLaws.SpanInPrefix(s, |s| - 1, IsWordChar);
    ReferenceLaws.TakeOfTake(s, |s| - 1, n);
    ReferenceLaws.DropOfTake(s, |s| - 1, n);
  }

  lemma SameWordFirst(s: string, t: string, n: nat)
    requires |s| > 1 && !IsSpace(s[0]) && IsSpace(s[|s| - 1]) && n == Span(s, IsWordChar) && t == s[..|s| - 1]
    ensures 0 < n < |s| && Words(s) == [s[..n]] + Words(s[n..])
    ensures Words(t) == [s[..n]] + Words(s[n..][..|s| - 1 - n])
  {
    SameSpan(s, n);
    WordFirstThen(s, n);
    WordFirstThen(t, n);
  }

  lemma {:induction false} WordsWithoutLast(s: string)
    requires s != "" && IsSpace(s[|s| - 1])
    ensures Words(s[..|s| - 1]) == Words(s)
    decreases |s|
  {
    if |s| == 1 {
      assert s[..0] == "" && s[1..] == "";
      SpaceFirstThen(s);
    } else if IsSpace(s[0]) {
      ReferenceLaws.DropOfTake(s, |s| - 1, 1);
      SpaceFirstThen(s);
      SpaceFirstThen(s[..|s| - 1]);
      WordsWithoutLast(s[1..]);
    } else {
      var n := Span(s, IsWordChar);
      SameWordFirst(s, s[..|s| - 1], n);
      WordsWithoutLast(s[n..]);
    }
  }

  lemma {:induction false} WordsTrimRight(s: string)
    ensures Words(TrimRight(s)) == Words(s)
    decreases |s|
  {
    if s != "" && IsSpace(s[|s| - 1]) {
      WordsWithoutLast(s);
      WordsTrimRight(s[..|s| - 1]);
    }
  }

  /** Trimmed and escaped, the text still mentions exactly the users it mentioned. */
  lemma ProposedSubscribers(r: Request)
    ensures Proposed(r).subscribers == UserRefs(r.text)
  {
    WordsTrimLeft(r.text);
    WordsTrimRight(TrimLeft(r.text));
    ReferenceLaws.EscapeKeepsUserReferences(TrimSpace(r.text));
  }

  /** Its pull requests are those of the text exactly if escaping spares them; there are never more. */
  lemma ProposedPullRequests(r: Request)
    ensures Proposed(r).pullRequests == PullRequestRefs(r.text) <==>
      PullRequestLaws.SparesPullRequests(TrimSpace(r.text))
    ensures |Proposed(r).pullRequests| <= |PullRequestRefs(r.text)|
  {
    WordsTrimLeft(r.text);
    WordsTrimRight(TrimLeft(r.text));
    PullRequestLaws.EscapeKeepsPullRequestsIff(TrimSpace(r.text));
  }

  // ---- over every run ----

  /** d is what a request of the run proposed for the channel. */
  ghost predicate ProposedIn(run: seq<Request>, ch: string, d: Deploy) {
    exists r :: r in run && r.channelID == ch && d == Proposed(r)
  }

  ghost predicate AllProposed(run: seq<Request>, ch: string, ledger: seq<Deploy>) {
    forall k :: 0 <= k < |ledger| ==> ProposedIn(run, ch, ledger[k])
  }

  lemma {:induction false} StrikeKeepsProposed(run: seq<Request>, ch: string, ledger: seq<Deploy>, id: string)
    requires AllProposed(run, ch, ledger)
    ensures AllProposed(run, ch, StrikeLast(ledger, id))
  {
    if ledger != [] {
      StrikeKeepsProposed(run, ch, ledger[..|ledger| - 1], id);
    }
  }

  lemma LongerRun(run: seq<Request>, more: seq<Request>, ch: string, ledger: seq<Deploy>)
    requires AllProposed(run, ch, ledger) && run <= more
    ensures AllProposed(more, ch, ledger)
  {
    forall k | 0 <= k < |ledger|
      ensures ProposedIn(more, ch, ledger[k])
    {
      assert ProposedIn(run, ch, ledger[k]);
      var r :| r in run && r.channelID == ch && ledger[k] == Proposed(r);
      assert r in more;
    }
  }

  lemma BookKeepsProposed(run: seq<Request>, ledger: seq<Deploy>, r: Request, answer: Response)
    requires AllProposed(run, r.channelID, ledger) && r in run
    ensures AllProposed(run, r.channelID, Book(ledger, r, answer))
  {
    assert ProposedIn(run, r.channelID, Proposed(r));
    StrikeKeepsProposed(run, r.channelID, ledger, r.user.id);
  }

  lemma {:induction false} LedgerIsProposed(run: seq<Request>, ch: string)
    ensures AllProposed(run, ch, Ledger(run, ch))
  {
    if run != [] {
      var n := |run| - 1;
      LedgerIsProposed(run[..n], ch);
      LongerRun(run[..n], run, ch, Ledger(run[..n], ch));
      if run[n].channelID == ch {
        BookKeepsProposed(run, Ledger(run[..n], ch), run[n], Serve(Run(INITIAL_WORLD, run[..n]), run[n]).1);
      }
    }
  }

  /**
   * Over any run, every deploy in the history or in the queue of a channel was proposed by a request for that
   * channel: by its user, and with exactly the users that request mentions as subscribers.
   */
  lemma SubscribersAreMentioned(run: seq<Request>, ch: string, d: Deploy)
    requires Timely(run)
    requires var c := Run(INITIAL_WORLD, run).At(ch); d in c.history + c.queue
    ensures exists r ::
      r in run && r.channelID == ch && d.Identity() == Proposed(r) && d.user == r.user && d.subscribers == UserRefs(r.text)
  {
    var c := Run(INITIAL_WORLD, run).At(ch);
    var line := c.history + c.queue;
    var k :| 0 <= k < |line| && line[k] == d;
    Conservation(run, ch);
    LedgerIsProposed(run, ch);
    assert Identities(line)[k] == d.Identity();
    assert ProposedIn(run, ch, d.Identity());
    var r :| r in run && r.channelID == ch && d.Identity() == Proposed(r);
    ProposedSubscribers(r);
    assert d.Identity().user == d.user && d.Identity().subscribers == d.subscribers;
  }
}
