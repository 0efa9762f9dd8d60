/** deploy/deploy.go: a deploy and its lifecycle. Go copies deploys by value, so the pointer methods map old value to new. */
module Deploys {
  import opened Clock
  import opened References

  datatype User = User(id: string, name: string)

  datatype Deploy = Deploy(
    user: User,
    subject: string,
    startedAt: Time,
    finishedAt: Time,
    aborted: bool,
    abortReason: string,
    pullRequests: seq<PullRequestReference>,
    subscribers: seq<UserReference>)
  {
    predicate Finished() { finishedAt != ZERO_TIME }

    function Start(now: Time): Deploy {
      if startedAt != ZERO_TIME then this else this.(startedAt := now)
    }

    function Finish(now: Time): Deploy {
      if Finished() then this else this.(finishedAt := now)
    }

    function Abort(reason: string, now: Time): Deploy {
      if Finished() then this else Finish(now).(aborted := true, abortReason := reason)
    }

    /** The part fixed when the deploy is announced: user, subject and references. */
    function Identity(): Deploy {
      this.(startedAt := ZERO_TIME, finishedAt := ZERO_TIME, aborted := false, abortReason := "")
    }

    /** The deploy as it was when it started running. */
    function Running(): Deploy {
      this.(finishedAt := ZERO_TIME, aborted := false, abortReason := "")
    }
  }

  const NO_DEPLOY := Deploy(User("", ""), "", ZERO_TIME, ZERO_TIME, false, "", [], [])

  /** deploy.New */
  function New(user: User, subject: string): Deploy {
    Deploy(user, subject, ZERO_TIME, ZERO_TIME, false, "", PullRequestRefs(subject), UserRefs(subject))
  }

  /** A deploy as deploy.New leaves it: never started, never finished. */
  predicate Fresh(d: Deploy) { d == d.Identity() }

  /** b is a, except that a start time that was zero may have been set. */
  ghost predicate Aged(a: Deploy, b: Deploy) {
    a == b || (a.startedAt == ZERO_TIME && b.startedAt != ZERO_TIME && b == a.(startedAt := b.startedAt))
  }

  /** The same, entry by entry: a listing may age, but keeps its length, order, users and subjects. */
  ghost predicate AgedSeq(a: seq<Deploy>, b: seq<Deploy>) {
    |a| == |b| && forall i :: 0 <= i < |a| ==> Aged(a[i], b[i])
  }

  /** Ageing composes, so what holds step by step holds over a run; a start time once set never changes again. */
  lemma AgedSeqTransitive(a: seq<Deploy>, b: seq<Deploy>, c: seq<Deploy>)
    requires AgedSeq(a, b) && AgedSeq(b, c)
    ensures AgedSeq(a, c)
    ensures forall i :: 0 <= i < |b| && b[i].startedAt != ZERO_TIME ==> b[i] == c[i]
  {
    forall i | 0 <= i < |a|
      ensures Aged(a[i], c[i])
    {
      assert Aged(a[i], b[i]) && Aged(b[i], c[i]);
    }
    forall i | 0 <= i < |b| && b[i].startedAt != ZERO_TIME
      ensures b[i] == c[i]
    {
      assert Aged(b[i], c[i]);
    }
  }

  function Identities(s: seq<Deploy>): (r: seq<Deploy>)
    ensures |r| == |s| && forall i :: 0 <= i < |s| ==> r[i] == s[i].Identity()
  {
    seq(|s|, i requires 0 <= i < |s| => s[i].Identity())
  }

  function Runnings(s: seq<Deploy>): (r: seq<Deploy>)
    ensures |r| == |s| && forall i :: 0 <= i < |s| ==> r[i] == s[i].Running()
  {
    seq(|s|, i requires 0 <= i < |s| => s[i].Running())
  }
}
